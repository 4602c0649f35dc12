/** Strict UTF-8 (RFC 3629), as Python's str.encode and bytes.decode apply it:
    Dafny's char, like an encodable Python character, is a Unicode scalar value. */
module Utf8 {
  import opened Results

  type Byte = b: int | 0 <= b < 256

  /** The one to four bytes of one character. */
  function EncodeChar(c: char): (bytes: seq<Byte>)
    ensures 1 <= |bytes| <= 4
  {
    var n := c as int;
    if n < 0x80 then [n]
    else if n < 0x800 then [0xC0 + n / 64, 0x80 + n % 64]
    else if n < 0x10000 then [0xE0 + n / 4096, 0x80 + n / 64 % 64, 0x80 + n % 64]
    else [0xF0 + n / 262144, 0x80 + n / 4096 % 64, 0x80 + n / 64 % 64, 0x80 + n % 64]
  }

  function Encode(s: string): (bytes: seq<Byte>)
    ensures |s| <= |bytes| <= 4 * |s|
  {
    if s == "" then [] else EncodeChar(s[0]) + Encode(s[1..])
  }

  predicate IsContinuation(b: Byte) { 0x80 <= b < 0xC0 }

  /** The six payload bits of a continuation byte. */
  function Low(b: Byte): int { b - 0x80 }

  /** The shortest-form and scalar-value checks on a spelled code point. */
  function Checked(n: int, least: nat, length: nat): Option<(char, nat)> {
    if n < least || 0xD800 <= n < 0xE000 || n >= 0x110000 then None else Some((n as char, length))
  }

  /** One character off the front: overlong forms, surrogates and values past
      U+10FFFF are refused. */
  function DecodeChar(b: seq<Byte>): (r: Option<(char, nat)>)
    requires b != []
    ensures r.Some? ==> 1 <= r.value.1 <= |b| && r.value.1 <= 4
  {
    var lead: int := b[0];
    if lead < 0x80 then Some((lead as char, 1))
    else if lead < 0xC0 || lead >= 0xF8 then None
    else if |b| < 2 || !IsContinuation(b[1]) then None
    else if lead < 0xE0 then Checked((lead - 0xC0) * 64 + Low(b[1]), 0x80, 2)
    else if |b| < 3 || !IsContinuation(b[2]) then None
    else if lead < 0xF0 then Checked((lead - 0xE0) * 4096 + Low(b[1]) * 64 + Low(b[2]), 0x800, 3)
    else if |b| < 4 || !IsContinuation(b[3]) then None
    else Checked((lead - 0xF0) * 262144 + Low(b[1]) * 4096 + Low(b[2]) * 64 + Low(b[3]), 0x10000, 4)
  }

  function Decode(b: seq<Byte>): Option<string> {
    if b == [] then Some("")
    else match DecodeChar(b)
      case None => None
      case Some((c, n)) =>
        match Decode(b[n..])
        case None => None
        case Some(rest) => Some([c] + rest)
  }

  lemma Base64Digits(n: nat)
    ensures n == n / 64 * 64 + n % 64
    ensures n / 4096 == n / 64 / 64 && n / 262144 == n / 4096 / 64
    ensures n == n / 4096 * 4096 + n / 64 % 64 * 64 + n % 64
    ensures n == n / 262144 * 262144 + n / 4096 % 64 * 4096 + n / 64 % 64 * 64 + n % 64
  {}

  lemma DecodeCharEncodeChar(c: char, rest: seq<Byte>)
    ensures DecodeChar(EncodeChar(c) + rest) == Some((c, |EncodeChar(c)|))
  {
    Base64Digits(c as int);
    var bytes, b := EncodeChar(c), EncodeChar(c) + rest;
    assert b[0] == bytes[0];
    assert |bytes| > 1 ==> b[1] == bytes[1];
    assert |bytes| > 2 ==> b[2] == bytes[2];
    assert |bytes| > 3 ==> b[3] == bytes[3];
  }

  lemma Base64Split(high: int, low: int)
    requires 0 <= low < 64
    ensures (high * 64 + low) / 64 == high && (high * 64 + low) % 64 == low
  {}

  lemma EncodeCharDecodeChar(b: seq<Byte>)
    requires b != [] && DecodeChar(b).Some?
    ensures EncodeChar(DecodeChar(b).value.0) == b[..DecodeChar(b).value.1]
  {
    var (c, length) := DecodeChar(b).value;
    var n := c as int;
    if length == 2 {
      Base64Split(b[0] - 0xC0, Low(b[1]));
    } else if length == 3 {
      Base64Digits(n);
      Base64Split((b[0] - 0xE0) * 64 + Low(b[1]), Low(b[2]));
      Base64Split(b[0] - 0xE0, Low(b[1]));
    } else if length == 4 {
      Base64Digits(n);
      Base64Split((b[0] - 0xF0) * 4096 + Low(b[1]) * 64 + Low(b[2]), Low(b[3]));
      Base64Split((b[0] - 0xF0) * 64 + Low(b[1]), Low(b[2]));
      Base64Split(b[0] - 0xF0, Low(b[1]));
    }
  }

  /** Decoding gives back every string ... */
  lemma {:induction false} DecodeEncode(s: string)
    ensures Decode(Encode(s)) == Some(s)
  {
    if s != "" {
      DecodeCharEncodeChar(s[0], Encode(s[1..]));
      assert Encode(s)[|EncodeChar(s[0])|..] == Encode(s[1..]);
      DecodeEncode(s[1..]);
      assert [s[0]] + s[1..] == s;
    }
  }

  /** ... and accepts only the bytes that encoding produces. */
  lemma {:induction false} EncodeDecode(b: seq<Byte>)
    requires Decode(b).Some?
    ensures Encode(Decode(b).value) == b
  {
    if b != [] {
      var (c, n) := DecodeChar(b).value;
      EncodeCharDecodeChar(b);
      EncodeDecode(b[n..]);
      assert ([c] + Decode(b[n..]).value)[1..] == Decode(b[n..]).value;
    }
  }

  lemma {:induction false} EncodeConcat(a: string, b: string)
    ensures Encode(a + b) == Encode(a) + Encode(b)
  {
    if a == "" {
      assert a + b == b;
    } else {
      assert (a + b)[1..] == a[1..] + b;
      EncodeConcat(a[1..], b);
    }
  }

  predicate IsAscii(s: string) { forall i :: 0 <= i < |s| ==> s[i] as int < 0x80 }

  lemma {:induction false} AsciiLength(s: string)
    requires IsAscii(s)
    ensures |Encode(s)| == |s|
  {
    if s != "" {
      AsciiLength(s[1..]);
    }
  }
}
