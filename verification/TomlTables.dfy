/** tomlparser.c on one line of an array of tables: parse_inline_table and parse_array_line.
    Whatever the line says the parser moves on and stays within its limits. */
module TomlTables {
  import opened TomlText

  const MAX_ENTRIES := 512
  const MAX_STR := 512
  const MAX_ARR := 32
  const MAX_NUMBER := 63

  /** Bare is a boolean or number, by its text; strtol and strtod decide its value. */
  datatype Value = Text(text: string) | Items(items: seq<string>) | Bare(text: string)

  datatype Entry = Entry(section: string, table: nat, key: string, value: Value)

  datatype Doc = Doc(entries: seq<Entry>, truncated: bool, badLines: nat, firstBadLine: nat, longArrays: nat)

  /** A text in a TOML_MAX_STR buffer. */
  function Cut(s: string): (r: string)
    ensures |r| < MAX_STR
  {
    s[..Least(|s|, MAX_STR - 1)]
  }

  // ---- runs of characters ----

  datatype Class = Spaces | Gaps | KeyChars | ValueChars | BareChars

  predicate In(c: char, class_: Class) {
    match class_
    case Spaces => IsSpace(c)
    case Gaps => IsGap(c)
    case KeyChars => c != '=' && c != '}' && !IsSpace(c)
    case ValueChars => c != ',' && c != '}'
    case BareChars => c != ',' && c != '}' && !IsSpace(c)
  }

  /** Past a run of a class, of at most n characters. */
  function Span(p: string, class_: Class, n: nat): (rest: string)
    ensures |rest| <= |p|
    ensures rest != "" && |p| < n ==> !In(rest[0], class_)
  {
    if p != "" && n > 0 && In(p[0], class_) then Span(p[1..], class_, n - 1) else p
  }

  function Skip(p: string, class_: Class): (rest: string)
    ensures |rest| <= |p| && (rest != "" ==> !In(rest[0], class_))
  {
    Span(p, class_, |p| + 1)
  }

  /** The while loops over isspace and its like. */
  method Advance(start: string, class_: Class, limit: nat) returns (p: string)
    ensures p == Span(start, class_, limit)
  {
    p := start;
    var n := limit;
    while p != "" && n > 0 && In(p[0], class_)
      invariant Span(p, class_, n) == Span(start, class_, limit)
      decreases |p|
    {
      p, n := p[1..], n - 1;
    }
  }

  // ---- one value ----

  /** A string, its tail read past and its text cut to the buffer. */
  function StringRest(p: string): (rest: string)
    requires p != ""
    ensures |rest| < |p|
  {
    Past(StringTail(p[1..]))
  }

  /** The items of an array in a table, up to the limit. */
  function ReadItems(p: string, count: nat): (r: (seq<string>, string))
    requires count <= MAX_ARR
    ensures |r.0| + count <= MAX_ARR && |r.1| <= |p| && forall i :: 0 <= i < |r.0| ==> |r.0[i]| < MAX_STR
    decreases |p|
  {
    if p == "" || p[0] == ']' || p[0] == '}' || count == MAX_ARR then ([], p)
    else
      var q := Skip(p, Gaps);
      if q == "" || q[0] == ']' || q[0] == '}' then ([], q)
      else if q[0] == '"' then
        var r := ReadItems(StringRest(q), count + 1);
        ([Cut(Unescaped(q[1..]))] + r.0, r.1)
      else ReadItems(q[1..], count)
  }

  datatype Read = Read(value: Value, rest: string, cutShort: bool, unclosed: bool)

  function ReadArray(p: string): (r: Read)
    ensures |r.rest| <= |p|
  {
    var (items, q) := ReadItems(p, 0);
    EndArray(items, q)
  }

  /** Past what does not fit, and past the bracket. */
  function EndArray(items: seq<string>, q: string): (r: Read)
    ensures |r.rest| <= |q|
  {
    var full := |items| == MAX_ARR;
    var end := if full then ScanTail(q, ArrayStops(true)) else q;
    var closed := end != "" && end[0] == ']';
    Read(Items(items), if closed then end[1..] else end, full && AnyItem(q, ArrayStops(true)), !closed)
  }

  function ReadValue(p: string): (r: Read)
    ensures |r.rest| <= |p|
  {
    if p != "" && p[0] == '"' then Read(Text(Cut(Unescaped(p[1..]))), StringRest(p), false, false)
    else if p != "" && p[0] == '[' then ReadArray(p[1..])
    else
      var rest := Span(p, BareChars, MAX_NUMBER);
      Read(Bare(p[..|p| - |rest|]), rest, false, false)
  }

  // ---- a table, and a line of tables ----

  function Marked(d: Doc, line: nat): Doc {
    if d.badLines > 0 && d.firstBadLine == line then d
    else d.(badLines := d.badLines + 1,
            firstBadLine := if d.badLines == 0 || line < d.firstBadLine then line else d.firstBadLine)
  }

  function MarkedIf(d: Doc, bad: bool, line: nat): Doc { if bad then Marked(d, line) else d }

  datatype Place = Place(section: string, table: nat, line: nat)

  /** The end of a table: its brace, or a mark that it is missing. */
  function Close(p: string, d: Doc, at: Place): (r: (Doc, string))
    ensures |r.1| <= |p|
  {
    if p != "" && p[0] == '}' then (d, p[1..]) else (MarkedIf(d, |d.entries| < MAX_ENTRIES, at.line), p)
  }

  function Added(d: Doc, at: Place, key: string, r: Read): Doc {
    MarkedIf(d.(entries := d.entries + [Entry(Cut(at.section), at.table, key, r.value)],
                longArrays := d.longArrays + if r.cutShort then 1 else 0),
             r.unclosed, at.line)
  }

  /** After a value only spaces belong before the comma or the brace. */
  function AfterValue(d: Doc, at: Place, rest: string): (r: (Doc, string))
    ensures |r.1| <= |rest|
  {
    var w := Skip(rest, Spaces);
    (MarkedIf(d, w != "" && In(w[0], ValueChars), at.line), Skip(w, ValueChars))
  }

  datatype Step = Stop(rest: string, bad: bool, full: bool) | Take(key: string, value: string)

  /** What the next entry is: nothing more, something unreadable, or a key whose value follows. */
  function NextEntry(p: string, count: nat): (s: Step)
    ensures s.Stop? ==> |s.rest| <= |p|
    ensures s.Take? ==> |s.value| < |p| && 0 < |s.key| < MAX_STR
  {
    var start := Skip(p, Gaps);
    if start == "" || start[0] == '}' then Stop(start, false, false)
    else if count >= MAX_ENTRIES then Stop(start, false, true)
    else KeyThenValue(start)
  }

  function KeyThenValue(start: string): (s: Step)
    ensures s.Stop? ==> |s.rest| <= |start| && !s.full
    ensures s.Take? ==> |s.value| < |start| && 0 < |s.key| < MAX_STR
  {
    var end := Skip(start, KeyChars);
    var length := |start| - |end|;
    if length == 0 || length >= MAX_STR then Stop(end, true, false)
    else
      var equals := Skip(end, Spaces);
      if equals == "" || equals[0] != '=' then Stop(equals, true, false)
      else Take(start[..length], Skip(equals[1..], Spaces))
  }

  /** parse_inline_table, from past its brace. */
  function ReadTable(p: string, d: Doc, at: Place): (r: (Doc, string))
    ensures |r.1| <= |p|
    decreases |p|
  {
    match NextEntry(p, |d.entries|)
    case Stop(rest, bad, full) =>
      Close(rest, MarkedIf(if full then d.(truncated := true) else d, bad, at.line), at)
    case Take(key, value) =>
      var r := ReadValue(value);
      var after := AfterValue(Added(d, at, key, r), at, r.rest);
      ReadTable(after.1, after.0, at)
  }

  datatype Line = Line(doc: Doc, table: nat, closed: bool)

  /** parse_array_line. */
  function ReadLine(p: string, d: Doc, at: Place): Line
    decreases |p|
  {
    if p == "" then Line(d, at.table, false)
    else if p[0] == ']' then Line(d, at.table, true)
    else if p[0] == '{' then
      var r := ReadTable(p[1..], d, at);
      ReadLine(r.1, r.0, at.(table := at.table + 1))
    else ReadLine(p[1..], MarkedIf(d, !IsGap(p[0]), at.line), at)
  }

  lemma LineTable(p: string, d: Doc, at: Place)
    requires p != "" && p[0] == '{'
    ensures var r := ReadTable(p[1..], d, at); ReadLine(p, d, at) == ReadLine(r.1, r.0, at.(table := at.table + 1))
  {}

  lemma LineOther(p: string, d: Doc, at: Place)
    requires p != "" && p[0] != '{' && p[0] != ']'
    ensures ReadLine(p, d, at) == ReadLine(p[1..], MarkedIf(d, !IsGap(p[0]), at.line), at)
  {}

  lemma Regrouped<T>(a: seq<T>, x: T, b: seq<T>)
    ensures a + ([x] + b) == (a + [x]) + b
  {}

  // ---- the parser ----

  class TomlDoc {
    var entries: seq<Entry>
    var truncated: bool
    var badLines: nat
    var firstBadLine: nat
    var longArrays: nat
    /** cur_line. */
    var line: nat

    function Contents(): Doc
      reads this
    {
      Doc(entries, truncated, badLines, firstBadLine, longArrays)
    }

    constructor (line: nat)
      ensures Contents() == Doc([], false, 0, 0, 0) && this.line == line
    {
      entries, truncated, badLines, firstBadLine, longArrays := [], false, 0, 0, 0;
      this.line := line;
    }

    /** mark_bad. */
    method MarkBad()
      modifies this
      ensures Contents() == Marked(old(Contents()), line) && line == old(line)
    {
      if badLines > 0 && firstBadLine == line { return; }
      if badLines == 0 || line < firstBadLine { firstBadLine := line; }
      badLines := badLines + 1;
    }

    /** unescape_into a TOML_MAX_STR buffer, and past the closing quote. */
    method ParseString(p: string) returns (text: string, rest: string)
      requires p != ""
      ensures text == Cut(Unescaped(p[1..])) && rest == StringRest(p)
    {
      var dst := new char[MAX_STR];
      rest := UnescapeInto(p[1..], dst);
      text := dst[..Least(|Unescaped(p[1..])|, MAX_STR - 1)];
      if rest != "" { rest := rest[1..]; }
    }

    /** The items of an array. */
    method ParseItems(start: string) returns (items: seq<string>, p: string)
      ensures (items, p) == ReadItems(start, 0)
    {
      items, p := [], start;
      ghost var whole := ReadItems(start, 0);
      assert [] + whole.0 == whole.0;
      while p != "" && p[0] != ']' && p[0] != '}' && |items| < MAX_ARR
        invariant |items| <= MAX_ARR && items + ReadItems(p, |items|).0 == whole.0 && ReadItems(p, |items|).1 == whole.1
        decreases |p|
      {
        var q := Advance(p, Gaps, |p| + 1);
        if q == "" || q[0] == ']' || q[0] == '}' {
          assert items + [] == items;
          return items, q;
        }
        if q[0] == '"' {
          var item, rest := ParseString(q);
          Regrouped(items, item, ReadItems(rest, |items| + 1).0);
          items, p := items + [item], rest;
        } else {
          p := q[1..];
        }
      }
      assert items + [] == items;
    }

    /** The value that follows a key. */
    method ParseValue(p: string) returns (r: Read)
      ensures r == ReadValue(p)
    {
      if p != "" && p[0] == '"' {
        var text, rest := ParseString(p);
        return Read(Text(text), rest, false, false);
      }
      if p != "" && p[0] == '[' {
        var items, end := ParseItems(p[1..]);
        var skipped := false;
        if |items| == MAX_ARR { end, skipped := SkipArrayRest(end, true); }
        if end != "" && end[0] == ']' { return Read(Items(items), end[1..], skipped, false); }
        return Read(Items(items), end, skipped, true);
      }
      var rest := Advance(p, BareChars, MAX_NUMBER);
      return Read(Bare(p[..|p| - |rest|]), rest, false, false);
    }

    /** What the next entry is. */
    method FindEntry(p: string) returns (s: Step)
      ensures s == NextEntry(p, |entries|)
    {
      var start := Advance(p, Gaps, |p| + 1);
      if start == "" || start[0] == '}' { return Stop(start, false, false); }
      if |entries| >= MAX_ENTRIES { return Stop(start, false, true); }
      s := ParseKey(start);
    }

    /** Its key, and where its value is. */
    method ParseKey(start: string) returns (s: Step)
      ensures s == KeyThenValue(start)
    {
      var end := Advance(start, KeyChars, |start| + 1);
      var length := |start| - |end|;
      if length == 0 || length >= MAX_STR { return Stop(end, true, false); }
      var equals := Advance(end, Spaces, |end| + 1);
      if equals == "" || equals[0] != '=' { return Stop(equals, true, false); }
      var value := Advance(equals[1..], Spaces, |equals|);
      return Take(start[..length], value);
    }

    /** Store one entry. */
    method Store(key: string, r: Read, at: Place)
      requires at.line == line
      modifies this
      ensures line == old(line) && Contents() == Added(old(Contents()), at, key, r)
    {
      entries := entries + [Entry(Cut(at.section), at.table, key, r.value)];
      if r.cutShort { longArrays := longArrays + 1; }
      if r.unclosed { MarkBad(); }
    }

    /** Read and store one entry and move to the comma or the brace after it. */
    method ParseEntry(key: string, value: string, at: Place) returns (rest: string)
      requires at.line == line
      modifies this
      ensures line == old(line)
      ensures (Contents(), rest) == AfterValue(Added(old(Contents()), at, key, ReadValue(value)), at,
                                               ReadValue(value).rest)
    {
      var r := ParseValue(value);
      Store(key, r, at);
      rest := Advance(r.rest, Spaces, |r.rest| + 1);
      if rest != "" && rest[0] != ',' && rest[0] != '}' { MarkBad(); }
      rest := Advance(rest, ValueChars, |rest| + 1);
    }

    /** parse_inline_table. */
    method ParseInlineTable(start: string, at: Place) returns (p: string)
      requires at.line == line
      modifies this
      ensures line == old(line) && (Contents(), p) == ReadTable(start, old(Contents()), at)
    {
      p := start;
      while true
        invariant line == old(line) && ReadTable(p, Contents(), at) == ReadTable(start, old(Contents()), at)
        decreases |p|
      {
        var step := FindEntry(p);
        match step {
          case Stop(rest, bad, full) =>
            p := rest;
            if full { truncated := true; }
            if bad { MarkBad(); }
            break;
          case Take(key, value) =>
            p := ParseEntry(key, value, at);
        }
      }
      if p != "" && p[0] == '}' {
        p := p[1..];
      } else if |entries| < MAX_ENTRIES {
        MarkBad();
      }
    }

    /** parse_array_line. */
    method ParseArrayLine(start: string, section: string, tidx: nat) returns (closed: bool, table: nat)
      modifies this
      ensures line == old(line)
      ensures Line(Contents(), table, closed) == ReadLine(start, old(Contents()), Place(section, tidx, line))
    {
      ghost var whole := ReadLine(start, Contents(), Place(section, tidx, line));
      var sp := start;
      table := tidx;
      while sp != "" && sp[0] != ']'
        invariant line == old(line) && ReadLine(sp, Contents(), Place(section, table, line)) == whole
        decreases |sp|
      {
        var at := Place(section, table, line);
        ghost var before := Contents();
        if sp[0] == '{' {
          LineTable(sp, before, at);
          sp := ParseInlineTable(sp[1..], at);
          table := table + 1;
        } else {
          LineOther(sp, before, at);
          if !IsSpace(sp[0]) && sp[0] != ',' { MarkBad(); }
          sp := sp[1..];
        }
      }
      return sp != "", table;
    }
  }

  // ---- limits ----

  /** What the C buffers and arrays can hold. */
  predicate ValueFits(v: Value) {
    match v
    case Text(t) => |t| < MAX_STR
    case Items(items) => |items| <= MAX_ARR && forall i :: 0 <= i < |items| ==> |items[i]| < MAX_STR
    case Bare(t) => |t| <= MAX_NUMBER
  }

  predicate EntryFits(e: Entry) { |e.section| < MAX_STR && 0 < |e.key| < MAX_STR && ValueFits(e.value) }

  predicate DocFits(d: Doc) {
    |d.entries| <= MAX_ENTRIES && forall i :: 0 <= i < |d.entries| ==> EntryFits(d.entries[i])
  }

  /** Entries are only added, each for this table; marks and counts only grow. */
  ghost predicate Extends(d: Doc, e: Doc, first: nat, last: nat) {
    && |d.entries| <= |e.entries| && e.entries[..|d.entries|] == d.entries
    && (forall i :: |d.entries| <= i < |e.entries| ==> first <= e.entries[i].table <= last)
    && (d.truncated ==> e.truncated) && d.badLines <= e.badLines && d.longArrays <= e.longArrays
  }

  lemma {:induction false} SpanLength(p: string, class_: Class, n: nat)
    ensures |p| - |Span(p, class_, n)| <= n
  {
    if p != "" && n > 0 && In(p[0], class_) { SpanLength(p[1..], class_, n - 1); }
  }

  lemma ReadValueFits(p: string)
    ensures ValueFits(ReadValue(p).value)
  {
    SpanLength(p, BareChars, MAX_NUMBER);
  }

  lemma EntryKeepsLimits(d: Doc, at: Place, key: string, value: string)
    requires DocFits(d) && |d.entries| < MAX_ENTRIES && 0 < |key| < MAX_STR
    ensures var r := ReadValue(value); var e := AfterValue(Added(d, at, key, r), at, r.rest).0;
      DocFits(e) && Extends(d, e, at.table, at.table)
  {
    ReadValueFits(value);
  }

  lemma NextEntryHasRoom(p: string, count: nat)
    ensures NextEntry(p, count).Take? ==> count < MAX_ENTRIES
    ensures NextEntry(p, count).Stop? && NextEntry(p, count).full ==> count >= MAX_ENTRIES
  {}

  lemma ExtendsTogether(d: Doc, e: Doc, f: Doc, first: nat, middle: nat, last: nat)
    requires Extends(d, e, first, middle) && Extends(e, f, first, last) && middle <= last
    ensures Extends(d, f, first, last)
  {
    assert f.entries[..|d.entries|] == f.entries[..|e.entries|][..|d.entries|];
    forall i | |d.entries| <= i < |f.entries| ensures first <= f.entries[i].table <= last {
      if i < |e.entries| { assert f.entries[i] == f.entries[..|e.entries|][i]; }
    }
  }

  /** Any text at all, read as a table, keeps every limit and touches no entry that was there. */
  lemma {:induction false} TableKeepsLimits(p: string, d: Doc, at: Place)
    requires DocFits(d)
    ensures var e := ReadTable(p, d, at).0; DocFits(e) && Extends(d, e, at.table, at.table)
    decreases |p|
  {
    NextEntryHasRoom(p, |d.entries|);
    match NextEntry(p, |d.entries|)
    case Stop(rest, bad, full) =>
    case Take(key, value) =>
      var r := ReadValue(value);
      var after := AfterValue(Added(d, at, key, r), at, r.rest);
      EntryKeepsLimits(d, at, key, value);
      TableKeepsLimits(after.1, after.0, at);
      ExtendsTogether(d, after.0, ReadTable(p, d, at).0, at.table, at.table, at.table);
  }

  /** And so does any line of tables. */
  lemma {:induction false} LineKeepsLimits(p: string, d: Doc, at: Place)
    requires DocFits(d)
    ensures var l := ReadLine(p, d, at); DocFits(l.doc) && at.table <= l.table && Extends(d, l.doc, at.table, l.table)
    decreases |p|
  {
    ExtendsItself(d, at.table);
    if p == "" || p[0] == ']' {
    } else if p[0] == '{' {
      var r := ReadTable(p[1..], d, at);
      TableKeepsLimits(p[1..], d, at);
      LineKeepsLimits(r.1, r.0, at.(table := at.table + 1));
      AfterTable(d, r.0, ReadLine(r.1, r.0, at.(table := at.table + 1)), at.table);
    } else {
      var e := MarkedIf(d, !IsGap(p[0]), at.line);
      LineKeepsLimits(p[1..], e, at);
      ExtendsTogether(d, e, ReadLine(p[1..], e, at).doc, at.table, at.table, ReadLine(p[1..], e, at).table);
    }
  }

  lemma ExtendsItself(d: Doc, first: nat)
    ensures Extends(d, d, first, first)
    ensures forall line :: Extends(d, Marked(d, line), first, first)
  {}

  lemma AfterTable(d: Doc, e: Doc, l: Line, first: nat)
    requires Extends(d, e, first, first) && Extends(e, l.doc, first + 1, l.table) && first + 1 <= l.table
    ensures Extends(d, l.doc, first, l.table)
  {
    Widen(e, l.doc, first, first + 1, l.table);
    ExtendsTogether(d, e, l.doc, first, first, l.table);
  }

  lemma Widen(d: Doc, e: Doc, first: nat, second: nat, last: nat)
    requires Extends(d, e, second, last) && first <= second
    ensures Extends(d, e, first, last)
  {}
}
