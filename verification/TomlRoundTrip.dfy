/** What parse_inline_table and parse_array_line make of text that was written as tables. */
module TomlRoundTrip {
  import opened TomlText
  import opened TomlTables

  datatype Pair = Pair(key: string, value: Value)

  // ---- writing ----

  function PrintString(s: string): string { "\"" + (Escape(s) + "\"") }

  function PrintItems(items: seq<string>): string {
    if items == [] then ""
    else PrintString(items[0]) + (if |items| == 1 then "" else "," + PrintItems(items[1..]))
  }

  function PrintValue(v: Value): string {
    match v
    case Text(t) => PrintString(t)
    case Items(items) => "[" + (PrintItems(items) + "]")
    case Bare(t) => t
  }

  function PrintPairs(pairs: seq<Pair>): string {
    if pairs == [] then ""
    else pairs[0].key + ("=" + (PrintValue(pairs[0].value)
                                + (if |pairs| == 1 then "" else "," + PrintPairs(pairs[1..]))))
  }

  function PrintTables(tables: seq<seq<Pair>>): string {
    if tables == [] then ""
    else "{" + (PrintPairs(tables[0]) + ("}" + (if |tables| == 1 then "" else "," + PrintTables(tables[1..]))))
  }

  predicate KeyOk(key: string) {
    0 < |key| < MAX_STR && key[0] != ',' && forall i :: 0 <= i < |key| ==> In(key[i], KeyChars)
  }

  predicate ValueOk(v: Value) {
    v.Bare? ==> 0 < |v.text| <= MAX_NUMBER && v.text[0] != '"' && v.text[0] != '['
                && forall i :: 0 <= i < |v.text| ==> In(v.text[i], BareChars)
  }

  predicate PairsOk(pairs: seq<Pair>) {
    forall i :: 0 <= i < |pairs| ==> KeyOk(pairs[i].key) && ValueOk(pairs[i].value)
  }

  predicate TablesOk(tables: seq<seq<Pair>>) { forall i :: 0 <= i < |tables| ==> PairsOk(tables[i]) }

  // ---- what is kept of it ----

  function CutItems(items: seq<string>, n: nat): seq<string> {
    if items == [] || n == 0 then [] else [Cut(items[0])] + CutItems(items[1..], n - 1)
  }

  /** Strings to 511 characters, arrays to 32 items. */
  function CutValue(v: Value): Value {
    match v
    case Text(t) => Text(Cut(t))
    case Items(items) => Items(CutItems(items, MAX_ARR))
    case Bare(t) => v
  }

  predicate IsLong(v: Value) { v.Items? && |v.items| > MAX_ARR }

  function Stored(pairs: seq<Pair>, at: Place): seq<Entry> {
    if pairs == [] then []
    else [Entry(Cut(at.section), at.table, pairs[0].key, CutValue(pairs[0].value))] + Stored(pairs[1..], at)
  }

  function LongCount(pairs: seq<Pair>): nat {
    if pairs == [] then 0 else (if IsLong(pairs[0].value) then 1 else 0) + LongCount(pairs[1..])
  }

  function WithPairs(d: Doc, pairs: seq<Pair>, at: Place): Doc {
    d.(entries := d.entries + Stored(pairs, at), longArrays := d.longArrays + LongCount(pairs))
  }

  function WithTables(d: Doc, tables: seq<seq<Pair>>, at: Place): Doc
    decreases tables
  {
    if tables == [] then d else WithTables(WithPairs(d, tables[0], at), tables[1..], at.(table := at.table + 1))
  }

  function PairCount(tables: seq<seq<Pair>>): nat { if tables == [] then 0 else |tables[0]| + PairCount(tables[1..]) }

  // ---- runs ----

  lemma {:induction false} SpanOver(a: string, b: string, class_: Class, n: nat)
    requires (forall i :: 0 <= i < |a| ==> In(a[i], class_)) && n >= |a| && (b == "" || n == |a| || !In(b[0], class_))
    ensures Span(a + b, class_, n) == b
  {
    if a == "" {
      assert a + b == b;
    } else {
      assert (a + b)[1..] == a[1..] + b;
      SpanOver(a[1..], b, class_, n - 1);
    }
  }

  // ---- strings and arrays ----

  lemma StringReadsBack(s: string, rest: string)
    ensures var p := PrintString(s) + rest; Unescaped(p[1..]) == s && StringRest(p) == rest
  {
    EscapedReadsBack(s, "\"" + rest);
    PrintedString(s, rest);
    assert ("\"" + rest)[1..] == rest;
  }

  lemma PrintedString(s: string, rest: string)
    ensures (PrintString(s) + rest)[0] == '"' && (PrintString(s) + rest)[1..] == Escape(s) + ("\"" + rest)
  {}

  /** What follows n items. */
  function Left(items: seq<string>, n: nat, rest: string): string {
    if |items| <= n then rest
    else if n == 0 then PrintItems(items) + rest
    else "," + (PrintItems(items[n..]) + rest)
  }

  lemma ItemsStart(items: seq<string>, rest: string)
    requires items != []
    ensures PrintItems(items) + rest
         == PrintString(items[0]) + (if |items| == 1 then rest else "," + (PrintItems(items[1..]) + rest))
  {
    if |items| > 1 {
      Regroup(PrintString(items[0]), "," + PrintItems(items[1..]), rest);
      Regroup(",", PrintItems(items[1..]), rest);
    } else {
      Regroup(PrintString(items[0]), "", rest);
    }
  }

  lemma GapThenItems(p: string, count: nat)
    requires count <= MAX_ARR && p != "" && p[0] == '"'
    ensures Skip("," + p, Gaps) == p && (count < MAX_ARR ==> ReadItems("," + p, count) == ReadItems(p, count))
  {
    SpanOver(",", p, Gaps, |p| + 2);
    SpanOver("", p, Gaps, |p| + 1);
    assert "" + p == p;
  }

  lemma {:induction false} ItemsReadBack(items: seq<string>, rest: string, count: nat)
    requires count <= MAX_ARR && rest != "" && rest[0] == ']'
    ensures ReadItems(PrintItems(items) + rest, count) ==
            (CutItems(items, MAX_ARR - count), Left(items, MAX_ARR - count, rest))
    decreases |items|
  {
    if items == [] {
      assert PrintItems(items) + rest == rest;
    } else if count < MAX_ARR {
      var p, first := PrintItems(items) + rest, PrintString(items[0]);
      var q := if |items| == 1 then rest else "," + (PrintItems(items[1..]) + rest);
      ItemsStart(items, rest);
      StringReadsBack(items[0], q);
      PrintedString(items[0], q);
      QuoteIsItem(p, count);
      ItemsReadBack(items[1..], rest, count + 1);
      if |items| == 1 {
        assert items[1..] == [] && PrintItems([]) + rest == rest;
      } else {
        ItemsStart(items[1..], rest);
        PrintedString(items[1], if |items| == 2 then rest else "," + (PrintItems(items[1..][1..]) + rest));
        GapThenItems(PrintItems(items[1..]) + rest, count + 1);
        LeftOver(items, MAX_ARR - count, rest);
      }
    }
  }

  lemma QuoteIsItem(p: string, count: nat)
    requires count < MAX_ARR && p != "" && p[0] == '"'
    ensures var r := ReadItems(StringRest(p), count + 1);
      ReadItems(p, count) == ([Cut(Unescaped(p[1..]))] + r.0, r.1)
  {
    SpanOver("", p, Gaps, |p| + 1);
    assert "" + p == p;
  }

  lemma LeftOver(items: seq<string>, n: nat, rest: string)
    requires |items| > 1 && n > 0
    ensures n > 1 ==> Left(items, n, rest) == Left(items[1..], n - 1, rest)
    ensures n == 1 ==> Left(items, n, rest) == "," + (PrintItems(items[1..]) + rest)
  {
    if n > 1 && |items| > n { assert items[1..][n - 1..] == items[n..]; }
  }

  /** The rest of an array is skipped to its own bracket, whatever its items say. */
  lemma {:induction false} ItemsAreSkipped(items: seq<string>, rest: string)
    requires rest != "" && rest[0] == ']'
    ensures ScanTail(PrintItems(items) + rest, ArrayStops(true)) == rest
    ensures AnyItem(PrintItems(items) + rest, ArrayStops(true)) == (items != [])
    decreases |items|
  {
    if items == [] {
      assert PrintItems(items) + rest == rest;
    } else {
      var q := if |items| == 1 then rest else "," + (PrintItems(items[1..]) + rest);
      ItemsStart(items, rest);
      StringReadsBack(items[0], q);
      PrintedString(items[0], q);
      if |items| > 1 {
        ItemsAreSkipped(items[1..], rest);
        assert q[1..] == PrintItems(items[1..]) + rest;
      }
    }
  }

  lemma ArrayReadsBack(items: seq<string>, rest: string)
    ensures ReadArray(PrintItems(items) + ("]" + rest)) ==
            Read(Items(CutItems(items, MAX_ARR)), rest, |items| > MAX_ARR, false)
  {
    ItemsReadBack(items, "]" + rest, 0);
    CutCount(items, MAX_ARR);
    if |items| > MAX_ARR {
      LongArrayEnds(CutItems(items, MAX_ARR), items[MAX_ARR..], rest);
    } else {
      ArrayEnds(CutItems(items, MAX_ARR), rest);
    }
  }

  lemma ArrayEnds(items: seq<string>, rest: string)
    ensures EndArray(items, "]" + rest) == Read(Items(items), rest, false, false)
  {
    assert ("]" + rest)[1..] == rest;
  }

  lemma LongArrayEnds(items: seq<string>, more: seq<string>, rest: string)
    requires more != [] && |items| == MAX_ARR
    ensures EndArray(items, "," + (PrintItems(more) + ("]" + rest))) == Read(Items(items), rest, true, false)
  {
    var end := "]" + rest;
    ItemsAreSkipped(more, end);
    assert ("," + (PrintItems(more) + end))[1..] == PrintItems(more) + end && end[1..] == rest;
  }

  lemma {:induction false} CutCount(items: seq<string>, n: nat)
    ensures |CutItems(items, n)| == Least(|items|, n)
  {
    if items != [] && n > 0 { CutCount(items[1..], n - 1); }
  }

  // ---- one pair ----

  /** What follows a value in a table. */
  predicate Follows(rest: string) { rest != "" && (rest[0] == ',' || rest[0] == '}') }

  lemma PrintedArray(items: seq<string>, rest: string)
    ensures var p := PrintValue(Items(items)) + rest; p[0] == '[' && p[1..] == PrintItems(items) + ("]" + rest)
  {
    Regroup("[", PrintItems(items) + "]", rest);
    Regroup(PrintItems(items), "]", rest);
  }

  lemma ValueReadsBack(v: Value, rest: string)
    requires ValueOk(v) && Follows(rest)
    ensures ReadValue(PrintValue(v) + rest) == Read(CutValue(v), rest, IsLong(v), false)
    ensures Skip(PrintValue(v) + rest, Spaces) == PrintValue(v) + rest
  {
    var p := PrintValue(v) + rest;
    match v {
      case Text(t) =>
        PrintedString(t, rest);
        StringReadsBack(t, rest);
      case Items(items) =>
        PrintedArray(items, rest);
        ArrayReadsBack(items, rest);
      case Bare(t) =>
        SpanOver(t, rest, BareChars, MAX_NUMBER);
        assert p[..|p| - |rest|] == t && p[0] == t[0];
    }
    SpanOver("", p, Spaces, |p| + 1);
    assert "" + p == p;
  }

  lemma KeyReadsBack(key: string, text: string, count: nat)
    requires KeyOk(key) && count < MAX_ENTRIES && Skip(text, Spaces) == text
    ensures NextEntry(key + ("=" + text), count) == Take(key, text)
  {
    var p, end := key + ("=" + text), "=" + text;
    SpanOver("", p, Gaps, |p| + 1);
    assert "" + p == p && p[0] == key[0] && In(key[0], KeyChars);
    SpanOver(key, end, KeyChars, |p| + 1);
    SpanOver("", end, Spaces, |end| + 1);
    assert "" + end == end && end[1..] == text && p[..|key|] == key;
  }

  lemma ValueEnds(d: Doc, at: Place, rest: string)
    requires Follows(rest)
    ensures AfterValue(d, at, rest) == (d, rest)
  {
    SpanOver("", rest, Spaces, |rest| + 1);
    SpanOver("", rest, ValueChars, |rest| + 1);
    assert "" + rest == rest;
  }

  /** A comma before an entry is passed over. */
  lemma GapThenTable(p: string, d: Doc, at: Place)
    requires p != "" && !IsGap(p[0])
    ensures ReadTable("," + p, d, at) == ReadTable(p, d, at)
  {
    SpanOver(",", p, Gaps, |p| + 2);
    SpanOver("", p, Gaps, |p| + 1);
    assert "" + p == p;
    SameEntry("," + p, p, d, at);
  }

  lemma SameEntry(p: string, q: string, d: Doc, at: Place)
    requires NextEntry(p, |d.entries|) == NextEntry(q, |d.entries|)
    ensures ReadTable(p, d, at) == ReadTable(q, d, at)
  {}

  lemma PairReadsBack(pair: Pair, rest: string, d: Doc, at: Place)
    requires KeyOk(pair.key) && ValueOk(pair.value) && Follows(rest) && |d.entries| < MAX_ENTRIES
    ensures ReadTable(pair.key + ("=" + (PrintValue(pair.value) + rest)), d, at)
         == ReadTable(rest, WithPairs(d, [pair], at), at)
  {
    ValueReadsBack(pair.value, rest);
    KeyReadsBack(pair.key, PrintValue(pair.value) + rest, |d.entries|);
    var e := Added(d, at, pair.key, Read(CutValue(pair.value), rest, IsLong(pair.value), false));
    ValueEnds(e, at, rest);
    OnePair(d, pair, at);
  }

  lemma StoredOne(pair: Pair, at: Place)
    ensures Stored([pair], at) == [Entry(Cut(at.section), at.table, pair.key, CutValue(pair.value))]
    ensures LongCount([pair]) == if IsLong(pair.value) then 1 else 0
  {
    assert [pair][1..] == [];
  }

  lemma OnePair(d: Doc, pair: Pair, at: Place)
    ensures WithPairs(d, [pair], at)
         == Added(d, at, pair.key, Read(CutValue(pair.value), "", IsLong(pair.value), false))
  {
    StoredOne(pair, at);
  }

  lemma PairsTogether(d: Doc, pairs: seq<Pair>, at: Place)
    requires pairs != []
    ensures WithPairs(WithPairs(d, [pairs[0]], at), pairs[1..], at) == WithPairs(d, pairs, at)
  {
    StoredOne(pairs[0], at);
    var e := Stored([pairs[0]], at);
    assert (d.entries + e) + Stored(pairs[1..], at) == d.entries + (e + Stored(pairs[1..], at));
  }

  // ---- tables ----

  lemma PairsStart(pairs: seq<Pair>, rest: string)
    requires pairs != []
    ensures PrintPairs(pairs) + rest
         == pairs[0].key + ("=" + (PrintValue(pairs[0].value)
                                   + (if |pairs| == 1 then rest else "," + (PrintPairs(pairs[1..]) + rest))))
  {
    var k, v, more := pairs[0].key, PrintValue(pairs[0].value), if |pairs| == 1 then ""
        else "," + PrintPairs(pairs[1..]);
    Regroup(k, "=" + (v + more), rest);
    Regroup("=", v + more, rest);
    Regroup(v, more, rest);
    Regroup(",", PrintPairs(pairs[1..]), rest);
    assert "" + rest == rest;
  }

  /** A written table is read back pair by pair, its long strings and arrays cut, and the reader
      stands exactly behind its brace, whatever follows. */
  lemma {:induction false} TableReadsBack(pairs: seq<Pair>, rest: string, d: Doc, at: Place)
    requires PairsOk(pairs) && |d.entries| + |pairs| <= MAX_ENTRIES
    ensures ReadTable(PrintPairs(pairs) + ("}" + rest), d, at) == (WithPairs(d, pairs, at), rest)
    decreases |pairs|
  {
    var end := "}" + rest;
    if pairs == [] {
      assert PrintPairs(pairs) + end == end && end[1..] == rest;
      SpanOver("", end, Gaps, |end| + 1);
      assert "" + end == end && d.entries + [] == d.entries;
    } else {
      var next := if |pairs| == 1 then end else "," + (PrintPairs(pairs[1..]) + end);
      PairsStart(pairs, end);
      PairReadsBack(pairs[0], next, d, at);
      var e := WithPairs(d, [pairs[0]], at);
      OnePair(d, pairs[0], at);
      PairsTogether(d, pairs, at);
      TableReadsBack(pairs[1..], rest, e, at);
      if |pairs| == 1 {
        assert pairs[1..] == [] && PrintPairs([]) + end == end;
      } else {
        PairsStart(pairs[1..], end);
        var more := PrintPairs(pairs[1..]) + end;
        assert more[0] == pairs[1].key[0] && In(pairs[1].key[0], KeyChars);
        GapThenTable(more, e, at);
      }
    }
  }

  lemma TablesStart(tables: seq<seq<Pair>>, rest: string)
    requires tables != []
    ensures PrintTables(tables) + rest
         == "{" + (PrintPairs(tables[0])
                   + ("}" + (if |tables| == 1 then rest else "," + (PrintTables(tables[1..]) + rest))))
  {
    var t, more := PrintPairs(tables[0]), if |tables| == 1 then "" else "," + PrintTables(tables[1..]);
    Regroup("{", t + ("}" + more), rest);
    Regroup(t, "}" + more, rest);
    Regroup("}", more, rest);
    Regroup(",", PrintTables(tables[1..]), rest);
    assert "" + rest == rest;
  }

  ghost predicate IsRead(l: Line, p: string, d: Doc, at: Place) { l == ReadLine(p, d, at) }

  /** ReadLine(p, d, at) == l, kept folded. */
  ghost predicate Reads(p: string, d: Doc, at: Place, l: Line) { forall x :: IsRead(x, p, d, at) ==> x == l }

  /** A written line of tables is read back table by table, numbered one after the other, with
      nothing reported; the bracket that closes it is found behind the last. */
  lemma LineReadsBack(tables: seq<seq<Pair>>, rest: string, d: Doc, at: Place)
    requires TablesOk(tables) && |d.entries| + PairCount(tables) <= MAX_ENTRIES
    ensures ReadLine(PrintTables(tables) + ("]" + rest), d, at)
         == Line(WithTables(d, tables, at), at.table + |tables|, true)
  {
    TablesRead(tables, "]" + rest, d, at);
    assert IsRead(ReadLine(PrintTables(tables) + ("]" + rest), d, at), PrintTables(tables) + ("]" + rest), d, at);
  }

  lemma {:induction false} TablesRead(tables: seq<seq<Pair>>, end: string, d: Doc, at: Place)
    requires TablesOk(tables) && |d.entries| + PairCount(tables) <= MAX_ENTRIES && end != "" && end[0] == ']'
    ensures Reads(PrintTables(tables) + end, d, at, Line(WithTables(d, tables, at), at.table + |tables|, true))
    decreases |tables|
  {
    if tables == [] {
      NoTables(end, d, at);
    } else {
      RoomForRest(tables, d, at);
      TablesRead(tables[1..], end, WithPairs(d, tables[0], at), at.(table := at.table + 1));
      ReadsStep(tables, end, d, at, Line(WithTables(d, tables, at), at.table + |tables|, true));
    }
  }

  lemma RoomForRest(tables: seq<seq<Pair>>, d: Doc, at: Place)
    requires TablesOk(tables) && |d.entries| + PairCount(tables) <= MAX_ENTRIES && tables != []
    ensures TablesOk(tables[1..]) && PairsOk(tables[0]) && |d.entries| + |tables[0]| <= MAX_ENTRIES
    ensures |WithPairs(d, tables[0], at).entries| + PairCount(tables[1..]) <= MAX_ENTRIES
  {
    StoredCount(tables[0], at);
  }

  lemma NoTables(end: string, d: Doc, at: Place)
    requires end != "" && end[0] == ']'
    ensures Reads(PrintTables([]) + end, d, at, Line(d, at.table, true))
  {
    assert PrintTables([]) + end == end;
  }

  lemma ReadsStep(tables: seq<seq<Pair>>, end: string, d: Doc, at: Place, l: Line)
    requires tables != [] && PairsOk(tables[0]) && |d.entries| + |tables[0]| <= MAX_ENTRIES
    requires Reads(PrintTables(tables[1..]) + end, WithPairs(d, tables[0], at), at.(table := at.table + 1), l)
    ensures Reads(PrintTables(tables) + end, d, at, l)
  {
    LineStep(tables, end, d, at);
    var p, e, further := PrintTables(tables[1..]) + end, WithPairs(d, tables[0], at), at.(table := at.table + 1);
    assert IsRead(ReadLine(p, e, further), p, e, further);
  }

  lemma LineStep(tables: seq<seq<Pair>>, end: string, d: Doc, at: Place)
    requires tables != [] && PairsOk(tables[0]) && |d.entries| + |tables[0]| <= MAX_ENTRIES
    ensures ReadLine(PrintTables(tables) + end, d, at)
         == ReadLine(PrintTables(tables[1..]) + end, WithPairs(d, tables[0], at), at.(table := at.table + 1))
  {
    var next := if |tables| == 1 then end else "," + (PrintTables(tables[1..]) + end);
    TablesStart(tables, end);
    FirstTable(tables[0], next, d, at);
    LastTable(tables, end, next, WithPairs(d, tables[0], at), at.(table := at.table + 1));
  }

  lemma FirstTable(pairs: seq<Pair>, next: string, d: Doc, at: Place)
    requires PairsOk(pairs) && |d.entries| + |pairs| <= MAX_ENTRIES
    ensures ReadLine("{" + (PrintPairs(pairs) + ("}" + next)), d, at)
         == ReadLine(next, WithPairs(d, pairs, at), at.(table := at.table + 1))
  {
    var inside := PrintPairs(pairs) + ("}" + next);
    TableReadsBack(pairs, next, d, at);
    assert ("{" + inside)[1..] == inside;
    LineTable("{" + inside, d, at);
  }

  lemma LastTable(tables: seq<seq<Pair>>, end: string, next: string, d: Doc, at: Place)
    requires tables != [] && next == if |tables| == 1 then end else "," + (PrintTables(tables[1..]) + end)
    ensures ReadLine(next, d, at) == ReadLine(PrintTables(tables[1..]) + end, d, at)
  {
    var more := PrintTables(tables[1..]) + end;
    if |tables| == 1 {
      assert tables[1..] == [] && more == end;
    } else {
      assert ("," + more)[1..] == more;
      LineOther("," + more, d, at);
    }
  }

  lemma {:induction false} StoredCount(pairs: seq<Pair>, at: Place)
    ensures |Stored(pairs, at)| == |pairs|
  {
    if pairs != [] { StoredCount(pairs[1..], at); }
  }
}
