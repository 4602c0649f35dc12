/** Canonical journal frames: a 64-byte header carrying a SHA-256 digest (FIPS 180-4), the
    payload, and zero padding. The digest is any function to 32 bytes; no lemma assumes more of
    it than it says. */
module Frames {
  import opened Results
  import opened Text
  import opened Utf8

  const FRAME_SIZE := 8192
  const PAYLOAD_OFFSET := 64
  const PAYLOAD_MAX := FRAME_SIZE - PAYLOAD_OFFSET
  const FILE_SIZE := FRAME_SIZE * 2

  /** SHA-256, of which only the size of its result is used. */
  type Digest = sha: seq<Byte> -> seq<Byte> | forall x :: |sha(x)| == 32 witness x => Zeros(32)

  function Hash(sha: Digest, x: seq<Byte>): (digest: seq<Byte>)
    ensures |digest| == 32
  {
    sha(x)
  }

  datatype Frame = Frame(sequence: nat, payload: string)

  datatype FrameError = BadSequence | BadPayload | BadFrame | BadSize | ShortWrite | NoFrame | Conflict | Exhausted

  /** "DWMJNL1" and a NUL. */
  const MAGIC: seq<Byte> := [0x44, 0x57, 0x4D, 0x4A, 0x4E, 0x4C, 0x31, 0]

  // ---- little-endian integers ----

  function Power256(n: nat): (p: nat)
    ensures p > 0
  {
    if n == 0 then 1 else 256 * Power256(n - 1)
  }

  function LittleEndian(n: nat, size: nat): (b: seq<Byte>)
    ensures |b| == size
  {
    if size == 0 then [] else [n % 256] + LittleEndian(n / 256, size - 1)
  }

  function FromLittleEndian(b: seq<Byte>): nat {
    if b == [] then 0 else b[0] + 256 * FromLittleEndian(b[1..])
  }

  lemma {:induction false} LittleEndianRoundTrip(n: nat, size: nat)
    requires n < Power256(size)
    ensures FromLittleEndian(LittleEndian(n, size)) == n
  {
    if size > 0 {
      LittleEndianRoundTrip(n / 256, size - 1);
      assert LittleEndian(n, size)[1..] == LittleEndian(n / 256, size - 1);
    }
  }

  lemma Base256Split(low: int, high: int)
    requires 0 <= low < 256
    ensures (low + 256 * high) % 256 == low && (low + 256 * high) / 256 == high
  {}

  lemma {:induction false} LittleEndianCanonical(b: seq<Byte>)
    ensures LittleEndian(FromLittleEndian(b), |b|) == b && FromLittleEndian(b) < Power256(|b|)
  {
    if b != [] {
      LittleEndianCanonical(b[1..]);
      Base256Split(b[0], FromLittleEndian(b[1..]));
    }
  }

  // ---- frames ----

  function Zeros(n: nat): (z: seq<Byte>)
    ensures |z| == n
  {
    seq(n, _ => 0)
  }

  /** struct.pack("<8sHHIQQ", magic, 1, 0, length, sequence, 0). */
  function Header(length: nat, sequence: nat): (h: seq<Byte>)
    ensures |h| == 32
  {
    MAGIC + LittleEndian(1, 2) + LittleEndian(0, 2) + LittleEndian(length, 4) + LittleEndian(sequence, 8)
        + LittleEndian(0, 8)
  }

  predicate PayloadFits(payload: string) { IsLine(payload) && |Encode(payload)| <= PAYLOAD_MAX }

  predicate FrameFits(f: Frame) { 1 <= f.sequence <= SEQUENCE_MAX && PayloadFits(f.payload) }

  function FrameBytes(sha: Digest, f: Frame): (image: seq<Byte>)
    requires FrameFits(f)
    ensures |image| == FRAME_SIZE
  {
    var encoded := Encode(f.payload);
    var header := Header(|encoded|, f.sequence);
    header + Hash(sha, header + encoded) + encoded + Zeros(PAYLOAD_MAX - |encoded|)
  }

  /** encode_journal_frame. */
  function EncodeFrame(sha: Digest, f: Frame): Result<seq<Byte>, FrameError> {
    if !(1 <= f.sequence <= SEQUENCE_MAX) then Err(BadSequence)
    else if !PayloadFits(f.payload) then Err(BadPayload)
    else Ok(FrameBytes(sha, f))
  }

  function LengthField(image: seq<Byte>): nat
    requires |image| == FRAME_SIZE
  { FromLittleEndian(image[12..16]) }

  function SequenceField(image: seq<Byte>): nat
    requires |image| == FRAME_SIZE
  { FromLittleEndian(image[16..24]) }

  /** Where the payload of an image ends; an impossible length means the end of the image. */
  function PayloadEnd(image: seq<Byte>): (end: nat)
    requires |image| == FRAME_SIZE
    ensures PAYLOAD_OFFSET <= end <= FRAME_SIZE
  {
    if LengthField(image) <= PAYLOAD_MAX then PAYLOAD_OFFSET + LengthField(image) else FRAME_SIZE
  }

  /** The bytes a valid digest covers: the header without the digest, and the payload. */
  function Covered(image: seq<Byte>): seq<Byte>
    requires |image| == FRAME_SIZE
  {
    image[..32] + image[PAYLOAD_OFFSET..PayloadEnd(image)]
  }

  /** The rules decode_journal_frame applies in turn; breaking any of them is one error. */
  predicate FrameRule(sha: Digest, image: seq<Byte>, rule: nat)
    requires |image| == FRAME_SIZE
  {
    match rule
    case 0 => image[..8] == MAGIC
    case 1 => FromLittleEndian(image[8..10]) == 1 && FromLittleEndian(image[10..12]) == 0
    case 2 => FromLittleEndian(image[24..32]) == 0
    case 3 => LengthField(image) <= PAYLOAD_MAX
    case 4 => SequenceField(image) >= 1
    case 5 => image[PayloadEnd(image)..] == Zeros(FRAME_SIZE - PayloadEnd(image))
    case 6 => image[32..PAYLOAD_OFFSET] == Hash(sha, Covered(image))
    case 7 =>
      var payload := Decode(image[PAYLOAD_OFFSET..PayloadEnd(image)]);
      payload.Some? && PayloadFits(payload.value)
    case _ => true
  }

  predicate FrameSound(sha: Digest, image: seq<Byte>) {
    |image| == FRAME_SIZE && forall rule :: 0 <= rule < 8 ==> FrameRule(sha, image, rule)
  }

  /** decode_journal_frame. */
  function DecodeFrame(sha: Digest, image: seq<Byte>): Result<Frame, FrameError> {
    if !FrameSound(sha, image) then Err(BadFrame)
    else
      assert FrameRule(sha, image, 7);
      Ok(Frame(SequenceField(image), Decode(image[PAYLOAD_OFFSET..PayloadEnd(image)]).value))
  }

  lemma PowerValues()
    ensures Power256(2) == 0x1_0000 && Power256(4) == 0x1_0000_0000 && Power256(8) == SEQUENCE_MAX + 1
  {
    assert Power256(1) == 256;
    assert Power256(3) == 256 * Power256(2);
    assert Power256(4) == 256 * Power256(3);
    assert Power256(6) == 256 * Power256(5);
    assert Power256(8) == 256 * Power256(7);
  }

  lemma HeaderCuts(m: seq<Byte>, a: seq<Byte>, b: seq<Byte>, c: seq<Byte>, d: seq<Byte>, e: seq<Byte>, rest: seq<Byte>)
    requires |m| == 8 && |a| == 2 && |b| == 2 && |c| == 4 && |d| == 8 && |e| == 8
    ensures var header := m + a + b + c + d + e;
      var image := header + rest;
      && image[..32] == header
      && image[..8] == m && image[8..10] == a && image[10..12] == b && image[12..16] == c
      && image[16..24] == d && image[24..32] == e
  {}

  /** Where the header fields of an image stand. */
  lemma HeaderFields(length: nat, sequence: nat, rest: seq<Byte>)
    requires length <= PAYLOAD_MAX && sequence <= SEQUENCE_MAX
    ensures var image := Header(length, sequence) + rest;
      && image[..8] == MAGIC && image[..32] == Header(length, sequence)
      && FromLittleEndian(image[8..10]) == 1 && FromLittleEndian(image[10..12]) == 0
      && FromLittleEndian(image[12..16]) == length && FromLittleEndian(image[16..24]) == sequence
      && FromLittleEndian(image[24..32]) == 0
  {
    HeaderCuts(MAGIC, LittleEndian(1, 2), LittleEndian(0, 2), LittleEndian(length, 4), LittleEndian(sequence, 8),
               LittleEndian(0, 8), rest);
    HeaderValues(length, sequence);
  }

  lemma HeaderValues(length: nat, sequence: nat)
    requires length <= PAYLOAD_MAX && sequence <= SEQUENCE_MAX
    ensures FromLittleEndian(LittleEndian(1, 2)) == 1 && FromLittleEndian(LittleEndian(0, 2)) == 0
    ensures FromLittleEndian(LittleEndian(length, 4)) == length
    ensures FromLittleEndian(LittleEndian(sequence, 8)) == sequence
    ensures FromLittleEndian(LittleEndian(0, 8)) == 0
  {
    PowerValues();
    LittleEndianRoundTrip(1, 2);
    LittleEndianRoundTrip(0, 2);
    LittleEndianRoundTrip(length, 4);
    LittleEndianRoundTrip(sequence, 8);
    LittleEndianRoundTrip(0, 8);
  }

  lemma FrameParts(sha: Digest, f: Frame)
    requires FrameFits(f)
    ensures var image, encoded := FrameBytes(sha, f), Encode(f.payload);
      && |image| == FRAME_SIZE
      && LengthField(image) == |encoded| && SequenceField(image) == f.sequence
      && image[..32] == Header(|encoded|, f.sequence)
      && image[32..PAYLOAD_OFFSET] == Hash(sha, image[..32] + encoded)
      && image[PAYLOAD_OFFSET..PAYLOAD_OFFSET + |encoded|] == encoded
      && image[PAYLOAD_OFFSET + |encoded|..] == Zeros(PAYLOAD_MAX - |encoded|)
  {
    var encoded := Encode(f.payload);
    var header := Header(|encoded|, f.sequence);
    var image := FrameBytes(sha, f);
    FrameCuts(header, Hash(sha, header + encoded), encoded, Zeros(PAYLOAD_MAX - |encoded|));
    assert image == header + image[32..];
    HeaderFields(|encoded|, f.sequence, image[32..]);
  }

  lemma FrameCuts(header: seq<Byte>, digest: seq<Byte>, encoded: seq<Byte>, padding: seq<Byte>)
    requires |header| == 32 && |digest| == 32
    ensures var image := header + digest + encoded + padding;
      && image[..32] == header && image[32..PAYLOAD_OFFSET] == digest
      && image[PAYLOAD_OFFSET..PAYLOAD_OFFSET + |encoded|] == encoded
      && image[PAYLOAD_OFFSET + |encoded|..] == padding
  {}

  /** Decoding gives back every frame that encoding accepts ... */
  lemma DecodeEncodedFrame(sha: Digest, f: Frame)
    requires FrameFits(f)
    ensures DecodeFrame(sha, FrameBytes(sha, f)) == Ok(f) && EncodeFrame(sha, f) == Ok(FrameBytes(sha, f))
  {
    var image, encoded := FrameBytes(sha, f), Encode(f.payload);
    FrameParts(sha, f);
    HeaderFields(|encoded|, f.sequence, image[32..]);
    assert image == Header(|encoded|, f.sequence) + image[32..];
    DecodeEncode(f.payload);
    assert forall rule :: 0 <= rule < 8 ==> FrameRule(sha, image, rule);
  }

  lemma CanonicalHeader(image: seq<Byte>)
    requires |image| == FRAME_SIZE && image[..8] == MAGIC
    requires FromLittleEndian(image[8..10]) == 1 && FromLittleEndian(image[10..12]) == 0
    requires FromLittleEndian(image[24..32]) == 0
    ensures image[..32] == Header(LengthField(image), SequenceField(image))
    ensures SequenceField(image) <= SEQUENCE_MAX
  {
    PowerValues();
    LittleEndianCanonical(image[8..10]);
    LittleEndianCanonical(image[10..12]);
    LittleEndianCanonical(image[12..16]);
    LittleEndianCanonical(image[16..24]);
    LittleEndianCanonical(image[24..32]);
    assert image[..32] == image[..8] + image[8..10] + image[10..12] + image[12..16] + image[16..24] + image[24..32];
  }

  lemma FourParts(image: seq<Byte>, i: nat, j: nat, k: nat)
    requires i <= j <= k <= |image|
    ensures image == image[..i] + image[i..j] + image[j..k] + image[k..]
  {}

  /** The four stretches of an image: header, digest, payload and padding. */
  predicate Part(image: seq<Byte>, header: seq<Byte>, digest: seq<Byte>, encoded: seq<Byte>, padding: seq<Byte>,
                 part: nat) {
    |image| == FRAME_SIZE && |encoded| <= PAYLOAD_MAX &&
    match part
    case 0 => image[..32] == header
    case 1 => image[32..PAYLOAD_OFFSET] == digest
    case 2 => image[PAYLOAD_OFFSET..PAYLOAD_OFFSET + |encoded|] == encoded
    case _ => image[PAYLOAD_OFFSET + |encoded|..] == padding
  }

  predicate Parts(image: seq<Byte>, header: seq<Byte>, digest: seq<Byte>, encoded: seq<Byte>, padding: seq<Byte>) {
    forall part :: 0 <= part < 4 ==> Part(image, header, digest, encoded, padding, part)
  }

  lemma DecodedPayload(sha: Digest, image: seq<Byte>)
    requires DecodeFrame(sha, image).Ok? && |image| == FRAME_SIZE
    ensures var f := DecodeFrame(sha, image).value;
      && FrameFits(f) && f.sequence == SequenceField(image) && LengthField(image) <= PAYLOAD_MAX
      && image[PAYLOAD_OFFSET..PayloadEnd(image)] == Encode(f.payload)
      && |Encode(f.payload)| == LengthField(image) && image[..32] == Header(LengthField(image), f.sequence)
  {
    assert FrameRule(sha, image, 0) && FrameRule(sha, image, 1) && FrameRule(sha, image, 2) && FrameRule(sha, image, 3);
    assert FrameRule(sha, image, 4) && FrameRule(sha, image, 5) && FrameRule(sha, image, 6) && FrameRule(sha, image, 7);
    CanonicalHeader(image);
    EncodeDecode(image[PAYLOAD_OFFSET..PayloadEnd(image)]);
  }

  lemma DecodedTail(sha: Digest, image: seq<Byte>)
    requires DecodeFrame(sha, image).Ok? && |image| == FRAME_SIZE
    ensures image[32..PAYLOAD_OFFSET] == Hash(sha, Covered(image))
    ensures image[PayloadEnd(image)..] == Zeros(FRAME_SIZE - PayloadEnd(image))
  {
    assert FrameRule(sha, image, 5) && FrameRule(sha, image, 6);
  }

  lemma PartsOf(image: seq<Byte>, header: seq<Byte>, digest: seq<Byte>, encoded: seq<Byte>, padding: seq<Byte>)
    requires |image| == FRAME_SIZE && |encoded| <= PAYLOAD_MAX
    requires image[..32] == header && image[32..PAYLOAD_OFFSET] == digest
    requires image[PAYLOAD_OFFSET..PAYLOAD_OFFSET + |encoded|] == encoded
             && image[PAYLOAD_OFFSET + |encoded|..] == padding
    ensures Parts(image, header, digest, encoded, padding)
  {}

  lemma DecodedParts(sha: Digest, image: seq<Byte>)
    requires DecodeFrame(sha, image).Ok? && |image| == FRAME_SIZE
    ensures FrameFits(DecodeFrame(sha, image).value)
    ensures var f := DecodeFrame(sha, image).value;
      var encoded := Encode(f.payload);
      var header := Header(|encoded|, f.sequence);
      Parts(image, header, Hash(sha, header + encoded), encoded, Zeros(PAYLOAD_MAX - |encoded|))
  {
    DecodedPayload(sha, image);
    DecodedTail(sha, image);
    var f := DecodeFrame(sha, image).value;
    var encoded := Encode(f.payload);
    var header := Header(|encoded|, f.sequence);
    PartsOf(image, header, Hash(sha, header + encoded), encoded, Zeros(PAYLOAD_MAX - |encoded|));
  }

  lemma Assembled(image: seq<Byte>, header: seq<Byte>, digest: seq<Byte>, encoded: seq<Byte>, padding: seq<Byte>)
    requires Parts(image, header, digest, encoded, padding)
    ensures image == header + digest + encoded + padding
  {
    assert Part(image, header, digest, encoded, padding, 0) && Part(image, header, digest, encoded, padding, 1);
    assert Part(image, header, digest, encoded, padding, 2) && Part(image, header, digest, encoded, padding, 3);
    FourParts(image, 32, PAYLOAD_OFFSET, PAYLOAD_OFFSET + |encoded|);
  }

  lemma PartsAreFrameBytes(sha: Digest, image: seq<Byte>, f: Frame, encoded: seq<Byte>, header: seq<Byte>)
    requires FrameFits(f) && encoded == Encode(f.payload) && header == Header(|encoded|, f.sequence)
    requires Parts(image, header, Hash(sha, header + encoded), encoded, Zeros(PAYLOAD_MAX - |encoded|))
    ensures image == FrameBytes(sha, f)
  {
    Assembled(image, header, Hash(sha, header + encoded), encoded, Zeros(PAYLOAD_MAX - |encoded|));
  }

  lemma DecodedIsFrameBytes(sha: Digest, image: seq<Byte>, f: Frame)
    requires DecodeFrame(sha, image) == Ok(f)
    ensures FrameFits(f) && image == FrameBytes(sha, f)
  {
    DecodedParts(sha, image);
    PartsAreFrameBytes(sha, image, f, Encode(f.payload), Header(|Encode(f.payload)|, f.sequence));
  }

  lemma FrameBytesEncode(sha: Digest, f: Frame)
    requires FrameFits(f)
    ensures EncodeFrame(sha, f) == Ok(FrameBytes(sha, f))
  {}

  /** ... and accepts only the canonical image of the frame it returns. */
  lemma EncodeDecodedFrame(sha: Digest, image: seq<Byte>)
    requires DecodeFrame(sha, image).Ok?
    ensures EncodeFrame(sha, DecodeFrame(sha, image).value) == Ok(image)
  {
    DecodedIsFrameBytes(sha, image, DecodeFrame(sha, image).value);
    FrameBytesEncode(sha, DecodeFrame(sha, image).value);
  }
}
