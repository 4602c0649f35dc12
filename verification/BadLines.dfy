/** What bad_lines counts: mark_bad over any lines, and over the lines an array is spread over. */
module BadLines {
  import opened TomlText
  import opened TomlTables

  // ---- any marks ----

  function MarkAll(d: Doc, lines: seq<nat>): Doc
    decreases |lines|
  {
    if lines == [] then d else MarkAll(Marked(d, lines[0]), lines[1..])
  }

  function Others(lines: seq<nat>, first: nat): seq<nat> {
    if lines == [] then [] else (if lines[0] == first then [] else [lines[0]]) + Others(lines[1..], first)
  }

  /** Only marks on the first bad line are recognized as repeated. */
  lemma {:induction false} MarksCounted(d: Doc, lines: seq<nat>)
    requires d.badLines > 0 && forall i :: 0 <= i < |lines| ==> lines[i] >= d.firstBadLine
    ensures MarkAll(d, lines) == d.(badLines := d.badLines + |Others(lines, d.firstBadLine)|)
    decreases |lines|
  {
    if lines != [] { MarksCounted(Marked(d, lines[0]), lines[1..]); }
  }

  ghost predicate NoRepeats(lines: seq<nat>) { forall i, j :: 0 <= i < j < |lines| ==> lines[i] != lines[j] }

  function Members(lines: seq<nat>): set<nat> { set x | x in lines }

  lemma {:induction false} MembersCount(lines: seq<nat>)
    ensures |Members(lines)| <= |lines| && (|Members(lines)| == |lines| <==> NoRepeats(lines))
  {
    if lines != [] {
      var x, rest := lines[0], lines[1..];
      MembersCount(rest);
      assert lines == [x] + rest;
      assert Members(lines) == {x} + Members(rest);
      if NoRepeats(lines) {
        assert NoRepeats(rest) && x !in rest;
      } else if NoRepeats(rest) {
        assert x in Members(rest);
      }
    }
  }

  lemma {:induction false} OthersAre(lines: seq<nat>, first: nat)
    ensures Members(Others(lines, first)) == Members(lines) - {first}
  {
    if lines != [] {
      OthersAre(lines[1..], first);
      assert lines == [lines[0]] + lines[1..];
      assert Members(lines) == {lines[0]} + Members(lines[1..]);
      var rest := Others(lines[1..], first);
      assert Members([lines[0]] + rest) == {lines[0]} + Members(rest);
    }
  }

  /** bad_lines is the number of bad lines exactly when no line but the first of them is marked
      twice, although each line is meant to be counted once; first_bad_line is always right. */
  lemma BadLinesCountedIff(lines: seq<nat>)
    requires lines != [] && forall i :: 0 <= i < |lines| ==> lines[0] <= lines[i]
    ensures var e := MarkAll(Doc([], false, 0, 0, 0), lines);
      && e.firstBadLine == lines[0]
      && (e.badLines == |Members(lines)| <==> NoRepeats(Others(lines, lines[0])))
  {
    var first := lines[0];
    var d := Marked(Doc([], false, 0, 0, 0), first);
    MarksCounted(d, lines[1..]);
    var others := Others(lines, first);
    assert others == Others(lines[1..], first);
    MembersCount(others);
    OthersAre(lines, first);
    assert first in Members(lines);
    assert |Members(lines) - {first}| == |Members(lines)| - 1;
  }

  /** Two stray characters on the second bad line already count it twice. */
  lemma SecondBadLineCountedTwice()
    ensures MarkAll(Doc([], false, 0, 0, 0), [5, 7, 7]).badLines == 3
    ensures var d := Doc([], false, 1, 5, 0); ReadLine("xx]", d, Place("s", 0, 7)).doc.badLines == 3
  {
    var d, at := Doc([], false, 1, 5, 0), Place("s", 0, 7);
    assert [5, 7, 7][1..] == [7, 7] && [7, 7][1..] == [7] && [7][1..] == [];
    assert "xx]"[1..] == "x]" && "x]"[1..] == "]";
    var once := Marked(d, 7);
    assert ReadLine("x]", once, at) == ReadLine("]", Marked(once, 7), at);
    assert ReadLine("xx]", d, at) == ReadLine("x]", once, at);
  }

  // ---- the marks of a text ----

  /** The document with an earlier bad line on record, so that every further mark counts. */
  function Probe(d: Doc): Doc { d.(badLines := 1, firstBadLine := 0) }

  /** How often parse_array_line calls mark_bad on a line. */
  function MarksOf(p: string, d: Doc, at: Place): int { ReadLine(p, Probe(d), at).doc.badLines - 1 }

  /** bad_lines and first_bad_line after n marks of one line. */
  function Counted(d: Doc, line: nat, n: nat): (nat, nat) {
    if n == 0 then (d.badLines, d.firstBadLine)
    else if d.badLines == 0 || line < d.firstBadLine then (d.badLines + 1, line)
    else (d.badLines + if line == d.firstBadLine then 0 else n, d.firstBadLine)
  }

  /** Reading has come to e from d and to probe from its probe, with the same marks of the line. */
  predicate Tracks(d: Doc, e: Doc, probe: Doc, line: nat) {
    && probe.badLines >= 1 && probe.firstBadLine == 0
    && e == probe.(badLines := e.badLines, firstBadLine := e.firstBadLine)
    && (e.badLines, e.firstBadLine) == Counted(d, line, probe.badLines - 1)
  }

  lemma MarkedTracks(d: Doc, e: Doc, probe: Doc, bad: bool, line: nat)
    requires line > 0 && Tracks(d, e, probe, line)
    ensures Tracks(d, MarkedIf(e, bad, line), MarkedIf(probe, bad, line), line)
  {}

  lemma {:induction false} TableTracks(p: string, d: Doc, e: Doc, probe: Doc, at: Place)
    requires at.line > 0 && Tracks(d, e, probe, at.line)
    ensures ReadTable(p, e, at).1 == ReadTable(p, probe, at).1
    ensures Tracks(d, ReadTable(p, e, at).0, ReadTable(p, probe, at).0, at.line)
    decreases |p|
  {
    match NextEntry(p, |e.entries|)
    case Stop(rest, bad, full) =>
      var e', probe' := if full then e.(truncated := true) else e, if full then probe.(truncated := true) else probe;
      MarkedTracks(d, e', probe', bad, at.line);
    case Take(key, value) =>
      var r := ReadValue(value);
      AddedTracks(d, e, probe, at, key, r);
      var after, after' := AfterValue(Added(e, at, key, r), at, r.rest),
          AfterValue(Added(probe, at, key, r), at, r.rest);
      TableTracks(after.1, d, after.0, after'.0, at);
  }

  lemma AddedTracks(d: Doc, e: Doc, probe: Doc, at: Place, key: string, r: Read)
    requires at.line > 0 && Tracks(d, e, probe, at.line)
    ensures var after, after' := AfterValue(Added(e, at, key, r), at, r.rest),
            AfterValue(Added(probe, at, key, r), at, r.rest);
      after.1 == after'.1 && Tracks(d, after.0, after'.0, at.line)
  {}

  lemma {:induction false} LineTracks(p: string, d: Doc, e: Doc, probe: Doc, at: Place)
    requires at.line > 0 && Tracks(d, e, probe, at.line)
    ensures var l, l' := ReadLine(p, e, at), ReadLine(p, probe, at);
      l.table == l'.table && l.closed == l'.closed && Tracks(d, l.doc, l'.doc, at.line)
    decreases |p|
  {
    if p != "" && p[0] == '{' {
      var r, r' := ReadTable(p[1..], e, at), ReadTable(p[1..], probe, at);
      TableTracks(p[1..], d, e, probe, at);
      LineTracks(r.1, d, r.0, r'.0, at.(table := at.table + 1));
    } else if p != "" && p[0] != ']' {
      var bad := !IsGap(p[0]);
      MarkedTracks(d, e, probe, bad, at.line);
      LineTracks(p[1..], d, MarkedIf(e, bad, at.line), MarkedIf(probe, bad, at.line), at);
    }
  }

  /** What a line adds to the counters, whatever it says. */
  lemma LineCounts(p: string, d: Doc, at: Place)
    requires at.line > 0
    ensures var e, n := ReadLine(p, d, at).doc, MarksOf(p, d, at);
      n >= 0 && (e.badLines, e.firstBadLine) == Counted(d, at.line, n)
  {
    LineTracks(p, d, d, Probe(d), at);
  }

  // ---- an array spread over lines ----

  /** The lines of an open array, up to the one that closes it. */
  function ReadLines(lines: seq<string>, d: Doc, at: Place): Line
    decreases |lines|
  {
    if lines == [] then Line(d, at.table, false)
    else
      var l := ReadLine(lines[0], d, at);
      if l.closed then l else ReadLines(lines[1..], l.doc, at.(table := l.table, line := at.line + 1))
  }

  /** How often each of them is marked. */
  function Marks(lines: seq<string>, d: Doc, at: Place): seq<int>
    decreases |lines|
  {
    if lines == [] then []
    else
      var l := ReadLine(lines[0], d, at);
      [MarksOf(lines[0], d, at)] + if l.closed then []
          else Marks(lines[1..], l.doc, at.(table := l.table, line := at.line + 1))
  }

  /** How many lines are bad. */
  function BadOnes(marks: seq<int>): nat {
    if marks == [] then 0 else (if marks[0] > 0 then 1 else 0) + BadOnes(marks[1..])
  }

  function Sum(marks: seq<int>): int { if marks == [] then 0 else marks[0] + Sum(marks[1..]) }

  ghost predicate AtMostOnce(marks: seq<int>) { forall i :: 0 <= i < |marks| ==> marks[i] <= 1 }

  /** The lines after the first bad one. */
  function AfterFirst(marks: seq<int>): seq<int> {
    if marks == [] then [] else if marks[0] > 0 then marks[1..] else AfterFirst(marks[1..])
  }

  /** Once a line is bad, bad_lines counts every further mark. */
  lemma {:induction false} FurtherMarksCount(lines: seq<string>, d: Doc, at: Place)
    requires d.badLines > 0 && d.firstBadLine < at.line
    ensures var e, marks := ReadLines(lines, d, at).doc, Marks(lines, d, at);
      && e.badLines == d.badLines + Sum(marks) && e.firstBadLine == d.firstBadLine
      && Sum(marks) >= BadOnes(marks) && (Sum(marks) == BadOnes(marks) <==> AtMostOnce(marks))
    decreases |lines|
  {
    if lines != [] {
      var l, n := ReadLine(lines[0], d, at), MarksOf(lines[0], d, at);
      LineCounts(lines[0], d, at);
      var next := at.(table := l.table, line := at.line + 1);
      var rest := if l.closed then [] else Marks(lines[1..], l.doc, next);
      if !l.closed { FurtherMarksCount(lines[1..], l.doc, next); }
      assert Marks(lines, d, at) == [n] + rest && ([n] + rest)[1..] == rest;
      assert AtMostOnce([n] + rest) <==> n <= 1 && AtMostOnce(rest) by {
        if AtMostOnce([n] + rest) {
          assert ([n] + rest)[0] == n;
          forall i | 0 <= i < |rest| ensures rest[i] <= 1 { assert ([n] + rest)[i + 1] == rest[i]; }
        }
      }
    }
  }

  /** Of the lines of an array bad_lines counts the bad ones exactly when no line after the first
      bad one holds two things that cannot be read. */
  lemma {:induction false} LinesCountedIff(lines: seq<string>, d: Doc, at: Place)
    requires at.line > 0 && d.badLines == 0
    ensures var e, marks := ReadLines(lines, d, at).doc, Marks(lines, d, at);
      && (e.badLines == BadOnes(marks) <==> AtMostOnce(AfterFirst(marks)))
      && (BadOnes(marks) > 0 ==> at.line <= e.firstBadLine < at.line + |marks| && marks[e.firstBadLine - at.line] > 0
                                 && forall i :: 0 <= i < e.firstBadLine - at.line ==> marks[i] <= 0)
    decreases |lines|
  {
    if lines != [] {
      var l, n := ReadLine(lines[0], d, at), MarksOf(lines[0], d, at);
      LineCounts(lines[0], d, at);
      var next := at.(table := l.table, line := at.line + 1);
      var rest := if l.closed then [] else Marks(lines[1..], l.doc, next);
      if !l.closed && n > 0 { FurtherMarksCount(lines[1..], l.doc, next); }
      if !l.closed && n == 0 { LinesCountedIff(lines[1..], l.doc, next); }
      assert Marks(lines, d, at) == [n] + rest && ([n] + rest)[1..] == rest;
    }
  }
}
