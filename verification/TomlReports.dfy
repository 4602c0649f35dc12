/** What parse_inline_table takes for an entry, and what it reports, in terms of how the text is built. */
module TomlReports {
  import opened TomlText
  import opened TomlTables
  import opened TomlRoundTrip

  predicate All(s: string, class_: Class) { forall i :: 0 <= i < |s| ==> In(s[i], class_) }

  /** A text is a run of a class and then something else. */
  predicate Runs(p: string, run: string, class_: Class, rest: string) {
    p == run + rest && All(run, class_) && (rest != "" ==> !In(rest[0], class_))
  }

  lemma {:induction false} SpanRuns(p: string, class_: Class, n: nat) returns (run: string)
    requires n > |p|
    ensures Runs(p, run, class_, Span(p, class_, n))
    decreases |p|
  {
    if p != "" && In(p[0], class_) {
      run := SpanRuns(p[1..], class_, n - 1);
      run := [p[0]] + run;
    } else {
      run := "";
      assert "" + p == p;
    }
  }

  lemma SkipRuns(p: string, class_: Class) returns (run: string)
    ensures Runs(p, run, class_, Skip(p, class_))
  {
    run := SpanRuns(p, class_, |p| + 1);
  }

  lemma {:induction false} RunIsSkipped(p: string, run: string, class_: Class, rest: string)
    requires Runs(p, run, class_, rest)
    ensures Skip(p, class_) == rest
  {
    SpanOver(run, rest, class_, |p| + 1);
  }

  /** Spaces, an equals sign, spaces and the value. */
  ghost predicate ValueAt(equals: string, value: string) {
    exists space: string, sign: string, lead: string ::
      && Runs(equals, space, Spaces, sign) && sign != "" && sign[0] == '='
      && Runs(sign[1..], lead, Spaces, value)
  }

  /** A key of 1 to 511 characters, and its value. */
  ghost predicate KeyAt(start: string, key: string, value: string) {
    exists equals: string :: Runs(start, key, KeyChars, equals) && 0 < |key| < MAX_STR && ValueAt(equals, value)
  }

  /** Spaces and commas, and then that. */
  ghost predicate EntryAt(p: string, key: string, value: string) {
    exists gap: string, start: string :: Runs(p, gap, Gaps, start) && KeyAt(start, key, value)
  }

  /** Spaces and commas up to the end of the line or of the table. */
  ghost predicate NothingLeft(p: string) {
    exists gap: string, rest: string :: Runs(p, gap, Gaps, rest) && (rest == "" || rest[0] == '}')
  }

  lemma ValueAtIff(equals: string, value: string)
    ensures ValueAt(equals, value) <==>
      var sign := Skip(equals, Spaces); sign != "" && sign[0] == '=' && value == Skip(sign[1..], Spaces)
  {
    var space := SkipRuns(equals, Spaces);
    var sign := Skip(equals, Spaces);
    if sign != "" { var lead := SkipRuns(sign[1..], Spaces); }
    if space', sign', lead' :| Runs(equals, space', Spaces, sign') && sign' != "" && sign'[0] == '='
                               && Runs(sign'[1..], lead', Spaces, value) {
      RunIsSkipped(equals, space', Spaces, sign');
      RunIsSkipped(sign'[1..], lead', Spaces, value);
    }
  }

  lemma RunIs(p: string, run: string, class_: Class, rest: string)
    requires Runs(p, run, class_, rest)
    ensures rest == Skip(p, class_) && run == p[..|p| - |rest|]
  {
    RunIsSkipped(p, run, class_, rest);
  }

  lemma KeyAtIff(start: string, key: string, value: string)
    ensures KeyAt(start, key, value) <==> KeyThenValue(start) == Take(key, value)
  {
    var run := SkipRuns(start, KeyChars);
    var equals := Skip(start, KeyChars);
    RunIs(start, run, KeyChars, equals);
    ValueAtIff(equals, value);
    if KeyThenValue(start) == Take(key, value) {
      assert key == run && ValueAt(equals, value);
      assert KeyAt(start, key, value);
    }
    if equals' :| Runs(start, key, KeyChars, equals') && 0 < |key| < MAX_STR && ValueAt(equals', value) {
      RunIs(start, key, KeyChars, equals');
    }
  }

  /** The next entry is taken exactly when there is room and the text is built as one; otherwise a full
      table is noted, and what is neither an entry nor the end is reported. */
  lemma NextEntryIff(p: string, count: nat, key: string, value: string)
    ensures NextEntry(p, count) == Take(key, value) <==>
      count < MAX_ENTRIES && !NothingLeft(p) && EntryAt(p, key, value)
    ensures NextEntry(p, count).Stop? && NextEntry(p, count).full <==> count >= MAX_ENTRIES && !NothingLeft(p)
    ensures NextEntry(p, count).Stop? && NextEntry(p, count).bad <==>
      count < MAX_ENTRIES && !NothingLeft(p) && forall k, v :: !EntryAt(p, k, v)
  {
    var gap := SkipRuns(p, Gaps);
    var start := Skip(p, Gaps);
    if gap', start' :| Runs(p, gap', Gaps, start') && (start' == "" || start'[0] == '}') {
      RunIs(p, gap', Gaps, start');
    }
    forall k, v ensures EntryAt(p, k, v) <==> KeyThenValue(start) == Take(k, v) {
      KeyAtIff(start, k, v);
      if gap', start' :| Runs(p, gap', Gaps, start') && KeyAt(start', k, v) { RunIs(p, gap', Gaps, start'); }
    }
    if KeyThenValue(start).Take? {
      var k, v := KeyThenValue(start).key, KeyThenValue(start).value;
      assert EntryAt(p, k, v);
    }
  }

  /** What follows a value is skipped to the next comma or brace, and reported if it is more than spaces. */
  lemma AfterValueReports(d: Doc, at: Place, rest: string) returns (space: string, junk: string, mid: string)
    ensures Runs(rest, space, Spaces, mid) && Runs(mid, junk, ValueChars, AfterValue(d, at, rest).1)
    ensures AfterValue(d, at, rest).0 == if junk != "" then Marked(d, at.line) else d
  {
    space := SkipRuns(rest, Spaces);
    mid := Skip(rest, Spaces);
    junk := SkipRuns(mid, ValueChars);
    assert junk != "" <==> mid != "" && In(mid[0], ValueChars);
  }

  // ---- nothing unclosed goes unreported ----

  /** The characters left over come from the text. */
  ghost predicate From(rest: string, p: string) { forall c :: c in rest ==> c in p }

  lemma {:induction false} SpanFrom(p: string, class_: Class, n: nat)
    ensures From(Span(p, class_, n), p)
  {
    if p != "" && n > 0 && In(p[0], class_) { SpanFrom(p[1..], class_, n - 1); }
  }

  lemma {:induction false} StringFrom(p: string)
    ensures From(StringTail(p), p)
  {
    if p != "" && p[0] != '"' { StringFrom(if p[0] == '\\' && |p| > 1 then p[2..] else p[1..]); }
  }

  lemma StringRestFrom(p: string)
    requires p != ""
    ensures From(StringRest(p), p)
  {
    var tail := StringTail(p[1..]);
    StringFrom(p[1..]);
    assert From(p[1..], p);
    assert tail != "" ==> From(tail[1..], tail);
  }

  lemma {:induction false} ScanFrom(p: string, stops: set<char>)
    requires '"' !in stops
    ensures From(ScanTail(p, stops), p)
    decreases |p|
  {
    if p != "" && p[0] == '"' {
      StringRestFrom(p);
      ScanFrom(StringRest(p), stops);
    } else if p != "" && p[0] !in stops {
      ScanFrom(p[1..], stops);
    }
  }

  lemma {:induction false} ItemsFrom(p: string, count: nat)
    requires count <= MAX_ARR
    ensures From(ReadItems(p, count).1, p)
    decreases |p|
  {
    if !(p == "" || p[0] == ']' || p[0] == '}' || count == MAX_ARR) {
      var q := Skip(p, Gaps);
      SpanFrom(p, Gaps, |p| + 1);
      if q != "" && q[0] == '"' {
        StringRestFrom(q);
        ItemsFrom(StringRest(q), count + 1);
      } else if q != "" && q[0] != ']' && q[0] != '}' {
        ItemsFrom(q[1..], count);
      }
    }
  }

  lemma ArrayFrom(p: string)
    ensures From(ReadArray(p).rest, p) && (']' !in p ==> ReadArray(p).unclosed)
  {
    var q := ReadItems(p, 0).1;
    ItemsFrom(p, 0);
    ScanFrom(q, ArrayStops(true));
    var end := if |ReadItems(p, 0).0| == MAX_ARR then ScanTail(q, ArrayStops(true)) else q;
    assert From(end, p);
    assert end != "" ==> end[0] in end && From(end[1..], end);
  }

  /** An array whose bracket is missing is always reported. */
  lemma OpenArrayIsReported(p: string, d: Doc, at: Place, key: string)
    requires p != "" && p[0] == '[' && ']' !in p[1..] && Counts(d, at)
    ensures Added(d, at, key, ReadValue(p)).badLines > d.badLines
  {
    ArrayFrom(p[1..]);
  }

  lemma ValueFrom(p: string)
    ensures From(ReadValue(p).rest, p)
  {
    if p != "" && p[0] == '"' {
      StringRestFrom(p);
    } else if p != "" && p[0] == '[' {
      ArrayFrom(p[1..]);
      assert From(p[1..], p);
    } else {
      SpanFrom(p, BareChars, MAX_NUMBER);
    }
  }

  lemma EntryFrom(p: string, count: nat)
    ensures match NextEntry(p, count)
      case Stop(rest, _, _) => From(rest, p)
      case Take(_, value) => From(value, p)
  {
    SpanFrom(p, Gaps, |p| + 1);
    var start := Skip(p, Gaps);
    SpanFrom(start, KeyChars, |start| + 1);
    var end := Skip(start, KeyChars);
    SpanFrom(end, Spaces, |end| + 1);
    var equals := Skip(end, Spaces);
    if equals != "" { SpanFrom(equals[1..], Spaces, |equals|); }
  }

  lemma RestFrom(d: Doc, at: Place, rest: string)
    ensures From(AfterValue(d, at, rest).1, rest)
  {
    var mid := Skip(rest, Spaces);
    SpanFrom(rest, Spaces, |rest| + 1);
    SpanFrom(mid, ValueChars, |mid| + 1);
  }

  /** A mark of a line that is not the first bad one counts. */
  predicate Counts(d: Doc, at: Place) { d.badLines == 0 || d.firstBadLine < at.line }

  /** And so is a table whose brace is missing, unless all 512 entries are taken. */
  lemma {:induction false} OpenTableIsReported(p: string, d: Doc, at: Place)
    requires '}' !in p && Counts(d, at)
    ensures var e := ReadTable(p, d, at).0; e.badLines > d.badLines || |e.entries| >= MAX_ENTRIES
    decreases |p|
  {
    EntryFrom(p, |d.entries|);
    match NextEntry(p, |d.entries|)
    case Stop(rest, bad, full) =>
      assert rest != "" ==> rest[0] in rest;
    case Take(key, value) =>
      var r := ReadValue(value);
      var after := AfterValue(Added(d, at, key, r), at, r.rest);
      ValueFrom(value);
      RestFrom(Added(d, at, key, r), at, r.rest);
      if after.0.badLines == d.badLines {
        OpenTableIsReported(after.1, after.0, at);
      } else {
        MarksGrow(after.1, after.0, at);
      }
  }

  lemma {:induction false} MarksGrow(p: string, d: Doc, at: Place)
    ensures ReadTable(p, d, at).0.badLines >= d.badLines
    decreases |p|
  {
    match NextEntry(p, |d.entries|)
    case Stop(rest, bad, full) =>
    case Take(key, value) =>
      var r := ReadValue(value);
      var after := AfterValue(Added(d, at, key, r), at, r.rest);
      MarksGrow(after.1, after.0, at);
  }
}
