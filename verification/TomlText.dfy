/** The scanners of tomlparser.c that must agree on where a quoted string ends. A char * into a
    text is modelled by the text from there to its NUL, so that p[1..] is p + 1. */
module TomlText {
  // ---- one quoted string ----

  /** What a backslash makes of the character after it. */
  function EscapeOf(c: char): char {
    if c == 'n' then '\n' else if c == 't' then '\t' else c
  }

  /** The rest of a text from the closing quote of the string that it starts inside, or from its end. */
  function StringTail(p: string): (tail: string)
    ensures |tail| <= |p| && (tail != "" ==> tail[0] == '"')
  {
    if p == "" || p[0] == '"' then p
    else if p[0] == '\\' && |p| > 1 then StringTail(p[2..])
    else StringTail(p[1..])
  }

  /** What that string says. */
  function Unescaped(p: string): string {
    if p == "" || p[0] == '"' then ""
    else if p[0] == '\\' && |p| > 1 then [EscapeOf(p[1])] + Unescaped(p[2..])
    else [p[0]] + Unescaped(p[1..])
  }

  function Least(a: nat, b: nat): nat { if a < b then a else b }

  /** To the closing quote, whatever is done with the characters. */
  method SkipString(start: string) returns (src: string)
    ensures src == StringTail(start)
  {
    src := start;
    while src != "" && src[0] != '"'
      invariant StringTail(src) == StringTail(start)
      decreases |src|
    {
      if src[0] == '\\' && |src| > 1 {
        assert src[1..][1..] == src[2..];
        src := src[1..];
      }
      src := src[1..];
    }
  }

  /** The content copied to dst as far as it fits, and where the copy stopped. */
  method CopyString(start: string, dst: array<char>) returns (src: string)
    requires dst.Length > 0
    modifies dst
    ensures StringTail(src) == StringTail(start)
    ensures var n := Least(|Unescaped(start)|, dst.Length - 1); dst[..n] == Unescaped(start)[..n] && dst[n] == '\0'
  {
    var si := 0;
    src := start;
    ghost var copied := "";
    while src != "" && src[0] != '"' && si < dst.Length - 1
      invariant 0 <= si <= dst.Length - 1 && dst[..si] == copied
      invariant StringTail(src) == StringTail(start) && copied + Unescaped(src) == Unescaped(start)
      decreases |src|
    {
      var escaped := src[0] == '\\' && |src| > 1;
      var c := if escaped then EscapeOf(src[1]) else src[0];
      Appended(copied, c, Unescaped(if escaped then src[2..] else src[1..]));
      dst[si] := c;
      copied := copied + [c];
      src := if escaped then src[2..] else src[1..];
      si := si + 1;
    }
    PrefixIs(copied, Unescaped(src));
    dst[si] := '\0';
  }

  lemma Appended(a: string, c: char, b: string)
    ensures a + ([c] + b) == (a + [c]) + b
  {}

  lemma PrefixIs(a: string, b: string)
    ensures (a + b)[..|a|] == a
  {}

  /** unescape_into: the text goes to dst as far as it fits, but is read to its closing quote. */
  method UnescapeInto(start: string, dst: array<char>) returns (tail: string)
    requires dst.Length > 0
    modifies dst
    ensures tail == StringTail(start)
    ensures var n := Least(|Unescaped(start)|, dst.Length - 1); dst[..n] == Unescaped(start)[..n] && dst[n] == '\0'
  {
    tail := CopyString(start, dst);
    tail := SkipString(tail);
  }

  // ---- text outside strings ----

  /** Past the closing quote, if there is one. */
  function Past(tail: string): (rest: string)
    ensures |rest| <= |tail|
  {
    if tail == "" then "" else tail[1..]
  }

  /** The rest of a text from the first stop outside a quoted string. */
  function ScanTail(p: string, stops: set<char>): (tail: string)
    requires '"' !in stops
    ensures |tail| <= |p| && (tail != "" ==> tail[0] in stops)
    decreases |p|
  {
    if p == "" then ""
    else if p[0] == '"' then ScanTail(Past(StringTail(p[1..])), stops)
    else if p[0] in stops then p
    else ScanTail(p[1..], stops)
  }

  predicate IsSpace(c: char) { c == ' ' || '\t' <= c <= '\r' }

  predicate IsGap(c: char) { IsSpace(c) || c == ',' }

  /** Something other than space and commas stands before the first stop outside a string. */
  predicate AnyItem(p: string, stops: set<char>) {
    p != "" && (p[0] == '"' || (p[0] !in stops && (!IsGap(p[0]) || AnyItem(p[1..], stops))))
  }

  function ArrayStops(inTable: bool): set<char> { if inTable then {']', '}'} else {']'} }

  /** skip_array_rest: to the end of the array, never to a bracket inside a string. */
  method SkipArrayRest(start: string, inTable: bool) returns (p: string, skipped: bool)
    ensures p == ScanTail(start, ArrayStops(inTable))
    ensures skipped == AnyItem(start, ArrayStops(inTable))
  {
    p, skipped := start, false;
    while p != "" && p[0] != ']' && !(inTable && p[0] == '}')
      invariant ScanTail(p, ArrayStops(inTable)) == ScanTail(start, ArrayStops(inTable))
      invariant (skipped || AnyItem(p, ArrayStops(inTable))) == AnyItem(start, ArrayStops(inTable))
      decreases |p|
    {
      if p[0] == '"' {
        p := SkipString(p[1..]);
        if p != "" { p := p[1..]; }
        skipped := true;
      } else {
        if !IsSpace(p[0]) && p[0] != ',' { skipped := true; }
        p := p[1..];
      }
    }
  }

  // ---- what survives a comment ----

  /** The text of a line before its comment. */
  function Kept(p: string): string
    decreases |p|
  {
    if p == "" || p[0] == '#' then ""
    else if p[0] == '"' then
      var tail := StringTail(p[1..]);
      if tail == "" then p else "\"" + (Body(p[1..]) + ("\"" + Kept(Past(tail))))
    else [p[0]] + Kept(p[1..])
  }

  lemma {:induction false} KeptAndTail(p: string)
    ensures p == Kept(p) + ScanTail(p, {'#'})
    decreases |p|
  {
    if p == "" || p[0] == '#' {
    } else if p[0] == '"' {
      var tail := StringTail(p[1..]);
      assert p == "\"" + p[1..];
      BodyAndTail(p[1..]);
      if tail != "" {
        KeptAndTail(Past(tail));
        Quoted(Body(p[1..]), Kept(Past(tail)), ScanTail(Past(tail), {'#'}), tail, p);
      }
    } else {
      KeptAndTail(p[1..]);
      FirstAndRest(p);
      Regroup([p[0]], Kept(p[1..]), ScanTail(p[1..], {'#'}));
    }
  }

  lemma FirstAndRest(p: string)
    requires p != ""
    ensures p == [p[0]] + p[1..]
  {}

  lemma Regroup(a: string, b: string, c: string)
    ensures (a + b) + c == a + (b + c)
  {}

  lemma Quoted(body: string, kept: string, rest: string, tail: string, p: string)
    requires tail == "\"" + (kept + rest) && p == "\"" + (body + tail)
    ensures p == "\"" + (body + ("\"" + kept)) + rest
  {}

  /** The contents of the quoted strings before the first stop outside them. */
  function Strings(p: string, stops: set<char>): seq<string>
    requires '"' !in stops
    decreases |p|
  {
    if p == "" then []
    else if p[0] == '"' then [Unescaped(p[1..])] + Strings(Past(StringTail(p[1..])), stops)
    else if p[0] in stops then []
    else Strings(p[1..], stops)
  }

  /** The characters of a string up to its closing quote. */
  function Body(p: string): string {
    if p == "" || p[0] == '"' then ""
    else if p[0] == '\\' && |p| > 1 then [p[0], p[1]] + Body(p[2..])
    else [p[0]] + Body(p[1..])
  }

  lemma {:induction false} BodyAndTail(p: string)
    ensures p == Body(p) + StringTail(p)
  {
    if p == "" || p[0] == '"' {
    } else if p[0] == '\\' && |p| > 1 {
      BodyAndTail(p[2..]);
      assert p == [p[0], p[1]] + p[2..];
    } else {
      BodyAndTail(p[1..]);
      assert p == [p[0]] + p[1..];
    }
  }

  /** Where a closed string ends, and what it says, does not depend on what follows it. */
  lemma {:induction false} ClosedString(p: string, tail: string)
    requires StringTail(p) != "" && tail != "" && tail[0] == '"'
    ensures StringTail(Body(p) + tail) == tail && Unescaped(Body(p) + tail) == Unescaped(p)
  {
    var q := Body(p) + tail;
    if p[0] == '"' {
      assert q == tail;
    } else if p[0] == '\\' && |p| > 1 {
      ClosedString(p[2..], tail);
      assert q[2..] == Body(p[2..]) + tail && q[1] == p[1];
    } else {
      ClosedString(p[1..], tail);
      assert q[1..] == Body(p[1..]) + tail;
    }
  }

  /** Cutting the comment cuts no string, and leaves no # outside one. */
  lemma {:induction false} CommentCutsNoString(p: string)
    ensures Strings(Kept(p), {}) == Strings(p, {'#'}) && ScanTail(Kept(p), {'#'}) == ""
    decreases |p|
  {
    var kept := Kept(p);
    if p == "" || p[0] == '#' {
    } else if p[0] == '"' {
      var inside := p[1..];
      var tail := StringTail(inside);
      if tail == "" {
        assert kept == p;
      } else {
        var rest := Past(tail);
        CommentCutsNoString(rest);
        var closing := "\"" + Kept(rest);
        ClosedString(inside, closing);
        assert kept[1..] == Body(inside) + closing && closing[1..] == Kept(rest);
      }
    } else {
      CommentCutsNoString(p[1..]);
      assert kept == [p[0]] + Kept(p[1..]);
    }
  }

  // ---- comments, cut in place ----

  /** The C string in a buffer. */
  ghost predicate Holds(buffer: seq<char>, text: string) {
    |text| < |buffer| && buffer[..|text|] == text && buffer[|text|] == '\0' && '\0' !in text
  }

  /** Scanning from inside a string, or from outside. */
  function ScanState(p: string, inString: bool): string {
    if inString then ScanTail(Past(StringTail(p)), {'#'}) else ScanTail(p, {'#'})
  }

  /** strip_comment: the buffer's text ends before the first # outside a string. */
  method StripComment(buffer: array<char>, ghost text: string)
    requires Holds(buffer[..], text)
    modifies buffer
    ensures Holds(buffer[..], Kept(text))
    ensures forall i :: 0 <= i < buffer.Length && i != |Kept(text)| ==> buffer[i] == old(buffer[i])
  {
    KeptIsPrefix(text);
    assert forall i :: 0 <= i < |text| ==> buffer[i] == text[i] by {
      forall i | 0 <= i < |text| ensures buffer[i] == text[i] { assert buffer[..][..|text|][i] == text[i]; }
    }
    assert text[0..] == text;
    var inString, s := false, 0;
    while buffer[s] != '\0'
      invariant 0 <= s <= |text| && buffer[..] == old(buffer[..])
      invariant ScanState(text[s..], inString) == ScanTail(text, {'#'})
      decreases |text| - s
    {
      assert s < |text| && buffer[s] == text[s];
      ghost var p := text[s..];
      if inString && buffer[s] == '\\' && buffer[s + 1] != '\0' {
        assert s + 1 < |text| && p[2..] == text[s + 2..];
        s := s + 2;
      } else {
        assert p[1..] == text[s + 1..];
        if buffer[s] == '"' {
          inString := !inString;
        } else if !inString && buffer[s] == '#' {
          buffer[s] := '\0';
          assert |ScanTail(text, {'#'})| == |text| - s;
          CutHolds(old(buffer[..]), buffer[..], text, s);
          return;
        }
        s := s + 1;
      }
    }
    assert text[s..] == "" && text[..|text|] == text;
  }

  lemma KeptIsPrefix(p: string)
    ensures |Kept(p)| == |p| - |ScanTail(p, {'#'})| && Kept(p) == p[..|Kept(p)|]
  {
    KeptAndTail(p);
    assert (Kept(p) + ScanTail(p, {'#'}))[..|Kept(p)|] == Kept(p);
  }

  lemma CutHolds(before: seq<char>, after: seq<char>, text: string, s: nat)
    requires Holds(before, text) && s < |text| && after == before[s := '\0']
    ensures Holds(after, text[..s])
  {
    assert after[..s] == before[..|text|][..s];
  }

  // ---- texts written as strings ----

  function EscapeChar(c: char): string {
    if c == '\n' then "\\n" else if c == '\t' then "\\t" else if c == '\\' then "\\\\" else if c == '"' then "\\\""
        else [c]
  }

  function Escape(s: string): string { if s == "" then "" else EscapeChar(s[0]) + Escape(s[1..]) }

  lemma EscapedStep(c: char, q: string)
    ensures Unescaped(['\\', c] + q) == [EscapeOf(c)] + Unescaped(q) && StringTail(['\\', c] + q) == StringTail(q)
  {
    assert (['\\', c] + q)[2..] == q;
  }

  /** A backslash makes a newline of n and a tab of t, and of any other character that character. */
  lemma EscapesMean(c: char, q: string)
    ensures Unescaped(['\\', c] + q) == [if c == 'n' then '\n' else if c == 't' then '\t' else c] + Unescaped(q)
    ensures Unescaped(['\\']) == ['\\'] && StringTail(['\\', c] + q) == StringTail(q)
  {
    EscapedStep(c, q);
    assert ['\\'][1..] == "";
  }

  lemma PlainStep(c: char, q: string)
    requires c != '"' && c != '\\'
    ensures Unescaped([c] + q) == [c] + Unescaped(q) && StringTail([c] + q) == StringTail(q)
  {
    assert ([c] + q)[1..] == q;
  }

  /** Every text, written escaped and closed, reads back as itself. */
  lemma {:induction false} EscapedReadsBack(s: string, rest: string)
    requires rest != "" && rest[0] == '"'
    ensures Unescaped(Escape(s) + rest) == s && StringTail(Escape(s) + rest) == rest
  {
    if s == "" {
      assert Escape(s) + rest == rest;
    } else {
      EscapedReadsBack(s[1..], rest);
      Regroup(EscapeChar(s[0]), Escape(s[1..]), rest);
      CharReadsBack(s[0], Escape(s[1..]) + rest);
      FirstAndRest(s);
    }
  }

  lemma CharReadsBack(c: char, q: string)
    ensures Unescaped(EscapeChar(c) + q) == [c] + Unescaped(q) && StringTail(EscapeChar(c) + q) == StringTail(q)
  {
    var e := EscapeChar(c);
    if |e| == 1 { PlainStep(c, q); } else { EscapedStep(e[1], q); }
  }
}
