/** Tab-separated fields and canonical decimal numbers. */
module Fields {
  import opened Results
  import opened Text
  import opened Utf8

  // ---- fields ----

  function Join(fields: seq<string>): string
    requires fields != []
  {
    if |fields| == 1 then fields[0] else fields[0] + "\t" + Join(fields[1..])
  }

  /** Position of the first tab, or the length. */
  function FirstTab(s: string): (n: nat)
    ensures n <= |s| && (n < |s| ==> s[n] == '\t') && forall i :: 0 <= i < n ==> s[i] != '\t'
  {
    if s == "" || s[0] == '\t' then 0 else 1 + FirstTab(s[1..])
  }

  /** Python's split("\t"). */
  function Split(s: string): (fields: seq<string>)
    ensures fields != []
  {
    var n := FirstTab(s);
    if n == |s| then [s] else [s[..n]] + Split(s[n + 1..])
  }

  predicate TabFree(s: string) { forall i :: 0 <= i < |s| ==> s[i] != '\t' }

  lemma {:induction false} SplitJoin(fields: seq<string>)
    requires fields != [] && forall i :: 0 <= i < |fields| ==> TabFree(fields[i])
    ensures Split(Join(fields)) == fields
  {
    var s, head := Join(fields), fields[0];
    if |fields| > 1 {
      assert s[|head|] == '\t' && forall i :: 0 <= i < |head| ==> s[i] == head[i];
      assert FirstTab(s) == |head|;
      assert s[..|head|] == head && s[|head| + 1..] == Join(fields[1..]);
      SplitJoin(fields[1..]);
      assert [head] + fields[1..] == fields;
    } else {
      assert FirstTab(s) == |s|;
      assert [head] == fields;
    }
  }

  lemma {:induction false} JoinSplit(s: string)
    ensures Join(Split(s)) == s
    ensures forall i :: 0 <= i < |Split(s)| ==> TabFree(Split(s)[i])
  {
    var n := FirstTab(s);
    if n < |s| {
      JoinSplit(s[n + 1..]);
      assert Split(s) == [s[..n]] + Split(s[n + 1..]);
      assert Split(s)[1..] == Split(s[n + 1..]);
      assert s == s[..n] + "\t" + s[n + 1..];
    }
  }

  lemma {:induction false} JoinIsLine(fields: seq<string>)
    requires fields != [] && forall i :: 0 <= i < |fields| ==> IsLine(fields[i])
    ensures IsLine(Join(fields))
  {
    if |fields| > 1 { JoinIsLine(fields[1..]); }
  }

  lemma JoinedBytes(fields: seq<string>)
    requires |fields| > 1
    ensures |Encode(Join(fields))| == |Encode(fields[0])| + 1 + |Encode(Join(fields[1..]))|
  {
    AsciiLength("\t");
    EncodeConcat(fields[0] + "\t", Join(fields[1..]));
    EncodeConcat(fields[0], "\t");
  }

  /** A generous bound on the bytes of every field but the detail. */
  const FIELD_BYTES := 400

  /** A bound on the bytes of joined fields, with an allowance for one of them. */
  lemma {:induction false} JoinBytes(fields: seq<string>, wide: int, allowance: nat)
    requires fields != []
    requires forall i :: 0 <= i < |fields| ==> |Encode(fields[i])| <= FIELD_BYTES + if i == wide then allowance else 0
    ensures |Encode(Join(fields))| <= |fields| * (FIELD_BYTES + 1) + if 0 <= wide < |fields| then allowance else 0
    decreases |fields|
  {
    if |fields| > 1 {
      JoinBytes(fields[1..], wide - 1, allowance);
      JoinedBytes(fields);
    }
  }

  // ---- decimal numbers ----

  function DigitChar(d: nat): (c: char)
    requires d < 10
    ensures IsDigit(c) && Digit(c) == d
  { ('0' as int + d) as char }

  /** Python's str(n). */
  function Decimal(n: nat): (s: string)
    ensures s != ""
  {
    if n < 10 then [DigitChar(n)] else Decimal(n / 10) + [DigitChar(n % 10)]
  }

  predicate AllDigits(s: string) { forall i :: 0 <= i < |s| ==> IsDigit(s[i]) }

  /** Python's int(s). */
  function Value(s: string): nat
    requires AllDigits(s)
  {
    if s == "" then 0 else 10 * Value(s[..|s| - 1]) + Digit(s[|s| - 1])
  }

  /** 0|[1-9][0-9]* */
  predicate IsCanonical(s: string) {
    s != "" && AllDigits(s) && (|s| > 1 ==> s[0] != '0')
  }

  lemma {:induction false} DecimalCanonical(n: nat)
    ensures IsCanonical(Decimal(n)) && Value(Decimal(n)) == n
    ensures n > 0 ==> Decimal(n)[0] != '0'
  {
    if n >= 10 {
      DecimalCanonical(n / 10);
      var s := Decimal(n);
      assert s[..|s| - 1] == Decimal(n / 10);
    } else {
      assert Decimal(n)[..0] == "";
    }
  }

  lemma {:induction false} CanonicalDecimal(s: string)
    requires IsCanonical(s)
    ensures Decimal(Value(s)) == s
  {
    var rest := s[..|s| - 1];
    if rest != "" {
      CanonicalDecimal(rest);
      CanonicalBounds(rest);
      assert Value(s) / 10 == Value(rest) && Value(s) % 10 == Digit(s[|s| - 1]);
      assert s == rest + [s[|s| - 1]];
    } else {
      assert Value(rest) == 0;
      assert s == [s[0]];
    }
  }

  function Power10(n: nat): (p: nat)
    ensures p > 0
  { if n == 0 then 1 else 10 * Power10(n - 1) }

  lemma {:induction false} CanonicalBounds(s: string)
    requires s != "" && AllDigits(s)
    ensures Value(s) < Power10(|s|)
    ensures s[0] != '0' ==> Power10(|s| - 1) <= Value(s)
  {
    var rest := s[..|s| - 1];
    if rest != "" {
      CanonicalBounds(rest);
    } else {
      assert Value(rest) == 0;
    }
  }

  lemma {:induction false} Power10Monotone(a: nat, b: nat)
    requires a <= b
    ensures Power10(a) <= Power10(b)
  {
    if a < b { Power10Monotone(a, b - 1); }
  }

  /** Python's > on strings of one length: the first difference decides. */
  predicate Greater(a: string, b: string) {
    exists k :: 0 <= k < |a| && k < |b| && a[..k] == b[..k] && a[k] > b[k]
  }

  lemma GreaterLast(a: string, x: char, b: string, y: char)
    requires |a| == |b|
    ensures Greater(a + [x], b + [y]) <==> Greater(a, b) || (a == b && x > y)
  {
    var s, t := a + [x], b + [y];
    if Greater(s, t) {
      var k :| 0 <= k < |s| && k < |t| && s[..k] == t[..k] && s[k] > t[k];
      assert s[..k] == a[..k] && t[..k] == b[..k];
    }
    if Greater(a, b) {
      var k :| 0 <= k < |a| && k < |b| && a[..k] == b[..k] && a[k] > b[k];
      assert s[..k] == a[..k] && t[..k] == b[..k] && s[k] > t[k];
    }
    if a == b && x > y { assert s[..|a|] == t[..|a|] && s[|a|] > t[|a|]; }
  }

  /** On digit strings of one length, textual order is numeric order. */
  lemma {:induction false} TextualOrder(a: string, b: string)
    requires |a| == |b| && AllDigits(a) && AllDigits(b)
    ensures Greater(a, b) <==> Value(a) > Value(b)
    ensures a == b <==> Value(a) == Value(b)
  {
    if a != "" {
      var n := |a| - 1;
      TextualOrder(a[..n], b[..n]);
      GreaterLast(a[..n], a[n], b[..n], b[n]);
      assert a == a[..n] + [a[n]] && b == b[..n] + [b[n]];
    }
  }

  /** _decode_journal_uint64. */
  function ParseUint64(s: string): Option<nat> {
    if !IsCanonical(s) then None
    else
      var maximum := Decimal(SEQUENCE_MAX);
      if |s| > |maximum| || (|s| == |maximum| && Greater(s, maximum)) then None else Some(Value(s))
  }

  lemma ShorterIsSmaller(a: string, b: string)
    requires IsCanonical(a) && IsCanonical(b) && |a| < |b|
    ensures Value(a) < Value(b)
  {
    CanonicalBounds(a);
    CanonicalBounds(b);
    Power10Monotone(|a|, |b| - 1);
  }

  /** Longer, or as long and textually greater, is numerically greater. */
  lemma TextuallyBeyond(s: string, m: nat)
    requires IsCanonical(s)
    ensures Value(s) > m <==> |s| > |Decimal(m)| || (|s| == |Decimal(m)| && Greater(s, Decimal(m)))
  {
    DecimalCanonical(m);
    if |s| < |Decimal(m)| {
      ShorterIsSmaller(s, Decimal(m));
    } else if |s| > |Decimal(m)| {
      ShorterIsSmaller(Decimal(m), s);
    } else {
      TextualOrder(s, Decimal(m));
    }
  }

  /** The decimal form is the only text the decoder accepts, and it accepts it exactly up to 2^64 - 1. */
  lemma ParseUint64Exact(s: string, n: nat)
    ensures ParseUint64(s) == Some(n) <==> s == Decimal(n) && n <= SEQUENCE_MAX
  {
    DecimalCanonical(n);
    if IsCanonical(s) {
      CanonicalDecimal(s);
      TextuallyBeyond(s, SEQUENCE_MAX);
    }
  }

  lemma Power10Of20()
    ensures Power10(20) == 100_000_000_000_000_000_000
  {
    assert Power10(5) == 100_000;
    assert Power10(10) == 10_000_000_000;
    assert Power10(15) == 1_000_000_000_000_000;
  }

  lemma DecimalDigits(n: nat)
    requires n <= SEQUENCE_MAX
    ensures |Decimal(n)| <= 20 && AllDigits(Decimal(n))
  {
    DecimalCanonical(n);
    CanonicalBounds(Decimal(n));
    Power10Of20();
    if |Decimal(n)| > 20 { Power10Monotone(20, |Decimal(n)| - 1); }
  }
}
