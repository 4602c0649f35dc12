/** What an interrupted initialization leaves in a journal file, and which images a later
    initialization may rewrite. */
module Fragments {
  import opened Text
  import opened Utf8
  import opened Frames
  import opened DualFile
  import opened Records
  import opened Fields
  import opened Codecs

  // ---- one interrupted initial write ----

  /** The first k bytes of an image, the rest still zero. */
  ghost predicate ZeroTailed(image: seq<Byte>, expected: seq<Byte>, k: nat) {
    |image| == |expected| && 0 < k <= |expected|
    && forall i :: 0 <= i < |image| ==> image[i] == if i < k then expected[i] else 0
  }

  ghost predicate Starts(image: seq<Byte>, expected: seq<Byte>) {
    |image| <= |expected| && forall i :: 0 <= i < |image| ==> image[i] == expected[i]
  }

  /** What one interrupted initial write leaves: a prefix, or a non-empty prefix and then zeros. */
  ghost predicate InitialFragment(image: seq<Byte>, expected: seq<Byte>) {
    Starts(image, expected) || exists k :: ZeroTailed(image, expected, k)
  }

  /** _is_safe_initial_fragment accepts exactly those. */
  method IsSafeInitialFragment(image: seq<Byte>, expected: seq<Byte>) returns (safe: bool)
    ensures safe <==> InitialFragment(image, expected)
  {
    if |image| > |expected| { return false; }
    if image == expected[..|image|] { return true; }
    assert !Starts(image, expected);
    if |image| != |expected| { return false; }
    var common := 0;
    while common < |expected| && image[common] == expected[common]
      invariant 0 <= common <= |expected| && forall i :: 0 <= i < common ==> image[i] == expected[i]
    {
      common := common + 1;
    }
    safe := common > 0 && forall i :: common <= i < |image| ==> image[i] == 0;
    if safe { assert ZeroTailed(image, expected, common); }
  }

  /** The write of an initial image, stopped after k bytes, over what was there. */
  function Overwritten(image: seq<Byte>, expected: seq<Byte>, k: nat): seq<Byte>
    requires k <= |expected|
  {
    if k <= |image| then expected[..k] + image[k..] else expected[..k]
  }

  /** Overwriting a fragment of one image with another, up to any point, leaves a fragment of what
      overwriting the image itself leaves. */
  lemma OverwrittenOver(image: seq<Byte>, whole: seq<Byte>, expected: seq<Byte>, k: nat)
    requires |whole| == |expected| && InitialFragment(image, whole) && k <= |expected|
    ensures InitialFragment(Overwritten(image, expected, k), Overwritten(whole, expected, k))
  {
    var r, w := Overwritten(image, expected, k), Overwritten(whole, expected, k);
    if Starts(image, whole) {
      assert Starts(r, w);
    } else {
      var c: nat :| ZeroTailed(image, whole, c);
      assert ZeroTailed(r, w, if k < c then c else k);
    }
  }

  /** A fragment that storage extends with zeros to its full size is a fragment still, unless it was empty. */
  lemma ExtendedFragment(image: seq<Byte>, expected: seq<Byte>)
    requires InitialFragment(image, expected) && image != []
    ensures InitialFragment(image + Zeros(|expected| - |image|), expected)
  {
    if Starts(image, expected) {
      assert ZeroTailed(image + Zeros(|expected| - |image|), expected, |image|);
    } else {
      assert image + Zeros(0) == image;
    }
  }

  // ---- a file that ever took a commit ----

  /** A byte of a second frame has reached storage. */
  predicate EverCommitted(image: seq<Byte>) { |image| == FILE_SIZE && image[FRAME_SIZE] != 0 }

  lemma MagicStarts(sha: Digest, f: Frame)
    requires FrameFits(f)
    ensures FrameBytes(sha, f)[0] == 0x44
  {
    FrameParts(sha, f);
    HeaderStarts(|Encode(f.payload)|, f.sequence);
    assert FrameBytes(sha, f)[0] == FrameBytes(sha, f)[..32][0];
  }

  lemma HeaderStarts(length: nat, sequence: nat)
    ensures Header(length, sequence)[0] == 0x44
  {
    assert MAGIC[0] == 0x44;
  }

  /** The first byte of a first commit marks the file; no later write ever clears the mark. */
  lemma CommitsMark(sha: Digest, image: seq<Byte>, payload: string, cut: nat)
    requires Select(sha, image).Ok? && FrameFits(NextFrame(sha, image, payload)) && cut <= FRAME_SIZE
    ensures EverCommitted(image) ==> EverCommitted(TornCommit(sha, image, payload, cut))
    ensures Select(sha, image).value.index == 0 && cut > 0 ==> EverCommitted(TornCommit(sha, image, payload, cut))
  {
    var index, next := 1 - Select(sha, image).value.index, NextFrame(sha, image, payload);
    var bytes, torn := FrameBytes(sha, next), TornCommit(sha, image, payload, cut);
    MagicStarts(sha, next);
    assert torn[FRAME_SIZE] == Half(torn, 1)[0] && (|image| == FILE_SIZE ==> image[FRAME_SIZE] == Half(image, 1)[0]);
    if index == 1 && cut > 0 { assert Torn(Half(image, 1), bytes, cut)[0] == bytes[0]; }
    if index == 1 && cut == 0 { assert Torn(Half(image, 1), bytes, 0) == Half(image, 1); }
  }

  lemma InitialTailIsZero(sha: Digest, payload: string)
    requires PayloadFits(payload)
    ensures |InitialImage(sha, payload)| == FILE_SIZE
    ensures forall i :: FRAME_SIZE <= i < FILE_SIZE ==> InitialImage(sha, payload)[i] == 0
  {}

  /** No image of a file that took a commit passes for an initial fragment. */
  lemma CommittedIsNoFragment(sha: Digest, image: seq<Byte>, payload: string)
    requires EverCommitted(image) && PayloadFits(payload)
    ensures !InitialFragment(image, InitialImage(sha, payload))
  {
    InitialTailIsZero(sha, payload);
    MarkedIsNoFragment(image, InitialImage(sha, payload));
  }

  lemma MarkedIsNoFragment(image: seq<Byte>, expected: seq<Byte>)
    requires EverCommitted(image) && |expected| == FILE_SIZE && expected[FRAME_SIZE] == 0
    ensures !InitialFragment(image, expected)
  {}

  // ---- the restart file, whose initial payload names the boot ----

  const CLEAR_SUFFIX := "\t-\tnone\tnone\t0\tno\t0"
  const CLEAR_BYTES := 55
  const CLEAR_END := PAYLOAD_OFFSET + CLEAR_BYTES

  /** An all-clear restart payload: a boot identity and the fixed suffix. */
  function ClearText(boot: string): string { RestartText(ClearRestart(boot)) }

  /** _is_all_clear_restart_payload. */
  predicate ClearPayload(payload: string) {
    DecodeRestart(payload).Some? && AllClear(DecodeRestart(payload).value)
  }

  /** What may stand at a position of an all-clear payload, whatever the boot. */
  predicate TemplateAt(i: int, b: Byte) {
    0 <= i < CLEAR_BYTES &&
    if i in {8, 13, 18, 23} then b == '-' as int
    else if i < 36 then '0' as int <= b <= '9' as int || 'a' as int <= b <= 'f' as int
    else b == CLEAR_SUFFIX[i - 36] as int
  }

  /** _is_all_clear_restart_payload_prefix. */
  predicate TemplatePrefix(b: seq<Byte>) {
    |b| <= CLEAR_BYTES && forall i :: 0 <= i < |b| ==> TemplateAt(i, b[i])
  }

  lemma ClearTextIs(boot: string)
    ensures ClearText(boot) == boot + CLEAR_SUFFIX
  {
    var f := RestartFields(ClearRestart(boot));
    assert Decimal(0) == "0";
    assert f == [boot] + (["-"] + (["none"] + (["none"] + (["0"] + (["no"] + ["0"])))));
    JoinFirst("no", ["0"]);
    JoinFirst("0", ["no"] + ["0"]);
    JoinFirst("none", ["0"] + (["no"] + ["0"]));
    JoinFirst("none", ["none"] + (["0"] + (["no"] + ["0"])));
    JoinFirst("-", ["none"] + (["none"] + (["0"] + (["no"] + ["0"]))));
    JoinFirst(boot, ["-"] + (["none"] + (["none"] + (["0"] + (["no"] + ["0"])))));
  }

  lemma JoinFirst(first: string, rest: seq<string>)
    requires rest != []
    ensures Join([first] + rest) == first + "\t" + Join(rest)
  {
    assert ([first] + rest)[1..] == rest;
  }

  /** The bytes of an ASCII text are its characters. */
  lemma {:induction false} AsciiBytes(s: string, i: nat)
    requires IsAscii(s) && i < |s|
    ensures |Encode(s)| == |s| && Encode(s)[i] == s[i] as int
  {
    AsciiLength(s);
    assert EncodeChar(s[0]) == [s[0] as int];
    if i > 0 {
      AsciiBytes(s[1..], i - 1);
    }
  }

  lemma ClearIsTemplate(boot: string)
    requires IsBootId(boot)
    ensures IsAscii(ClearText(boot)) && |Encode(ClearText(boot))| == CLEAR_BYTES
            && TemplatePrefix(Encode(ClearText(boot)))
  {
    var s := ClearText(boot);
    ClearTextIs(boot);
    assert |CLEAR_SUFFIX| == 19;
    forall i | 0 <= i < |s| ensures s[i] as int < 0x80 {
      if i >= 36 { assert s[i] == CLEAR_SUFFIX[i - 36]; }
    }
    AsciiLength(s);
    forall i | 0 <= i < |Encode(s)| ensures TemplateAt(i, Encode(s)[i]) { AsciiBytes(s, i); }
  }

  predicate IsAsciiBytes(b: seq<Byte>) { forall i :: 0 <= i < |b| ==> b[i] < 0x80 }

  /** bytes.decode("ascii"). */
  function AsciiText(b: seq<Byte>): (s: string)
    requires IsAsciiBytes(b)
    ensures |s| == |b| && IsAscii(s) && forall i :: 0 <= i < |s| ==> s[i] as int == b[i]
  {
    seq(|b|, i requires 0 <= i < |b| => b[i] as char)
  }

  lemma AsciiEncodes(b: seq<Byte>)
    requires IsAsciiBytes(b)
    ensures Encode(AsciiText(b)) == b
  {
    AsciiLength(AsciiText(b));
    forall i | 0 <= i < |b| ensures Encode(AsciiText(b))[i] == b[i] { AsciiBytes(AsciiText(b), i); }
  }

  lemma AsciiDecodes(s: string)
    requires IsAscii(s)
    ensures IsAsciiBytes(Encode(s)) && AsciiText(Encode(s)) == s
  {
    AsciiLength(s);
    forall i | 0 <= i < |s| ensures Encode(s)[i] == s[i] as int { AsciiBytes(s, i); }
  }

  /** A full template is the payload of some boot. */
  lemma TemplateIsClear(b: seq<Byte>) returns (boot: string)
    requires |b| == CLEAR_BYTES && TemplatePrefix(b)
    ensures IsBootId(boot) && IsAsciiBytes(b) && AsciiText(b) == ClearText(boot) && b == Encode(ClearText(boot))
  {
    forall i | 0 <= i < |b| ensures b[i] < 0x80 {
      assert TemplateAt(i, b[i]);
      if i >= 36 { assert CLEAR_SUFFIX[i - 36] as int < 0x80; }
    }
    var s := AsciiText(b);
    boot := s[..36];
    assert |CLEAR_SUFFIX| == 19;
    forall i | 0 <= i < 36 ensures if i in {8, 13, 18, 23} then boot[i] == '-' else IsHex(boot[i]) {
      assert TemplateAt(i, b[i]) && boot[i] as int == b[i];
    }
    ClearTextIs(boot);
    forall i | 0 <= i < |s| ensures s[i] == (boot + CLEAR_SUFFIX)[i] { assert TemplateAt(i, b[i]); }
    assert s == boot + CLEAR_SUFFIX;
    AsciiEncodes(b);
  }

  lemma ClearTextIsClear(boot: string)
    requires IsBootId(boot)
    ensures ClearPayload(ClearText(boot)) && PayloadFits(ClearText(boot))
  {
    var r := ClearRestart(boot);
    assert RestartFieldSound(r, 0) && RestartFieldSound(r, 1);
    RestartRoundTrip(r);
  }

  lemma ClearIsText(payload: string) returns (boot: string)
    requires ClearPayload(payload)
    ensures IsBootId(boot) && payload == ClearText(boot)
  {
    var r := DecodeRestart(payload).value;
    RestartCanonical(payload);
    assert RestartFieldSound(r, 0);
    boot := r.bootId;
    assert r == ClearRestart(boot);
  }

  /** The initial restart file of a boot. */
  function ClearImage(sha: Digest, boot: string): (image: seq<Byte>)
    requires IsBootId(boot)
    ensures |image| == FILE_SIZE
  {
    ClearTextIsClear(boot);
    InitialTailIsZero(sha, ClearText(boot));
    InitialImage(sha, ClearText(boot))
  }

  // ---- one interrupted rewrite for a new boot ----

  /** The new image up to k, an all-clear image of some boot beyond. */
  ghost predicate RewriteOf(sha: Digest, image: seq<Byte>, expected: seq<Byte>, boot: string, k: nat) {
    && IsBootId(boot) && CLEAR_END <= |image| <= FILE_SIZE && |expected| == FILE_SIZE && k <= |image|
    && image[PAYLOAD_OFFSET..CLEAR_END] == Encode(ClearText(boot))
    && forall i :: 0 <= i < |image| ==> image[i] == if i < k then expected[i] else ClearImage(sha, boot)[i]
  }

  ghost predicate RewriteFragment(sha: Digest, image: seq<Byte>, expected: seq<Byte>) {
    exists boot, k :: RewriteOf(sha, image, expected, boot, k)
  }

  /** How far two images agree from the front, and from the back. */
  method AgreeFront(a: seq<Byte>, b: seq<Byte>, n: nat) returns (k: nat)
    requires n <= |a| && n <= |b|
    ensures k <= n && (forall i :: 0 <= i < k ==> a[i] == b[i]) && (k < n ==> a[k] != b[k])
  {
    k := 0;
    while k < n && a[k] == b[k]
      invariant 0 <= k <= n && forall i :: 0 <= i < k ==> a[i] == b[i]
    {
      k := k + 1;
    }
  }

  method AgreeBack(a: seq<Byte>, b: seq<Byte>, n: nat) returns (k: nat)
    requires n <= |a| && n <= |b|
    ensures k <= n && (forall i :: k <= i < n ==> a[i] == b[i]) && (k > 0 ==> a[k - 1] != b[k - 1])
  {
    k := n;
    while k > 0 && a[k - 1] == b[k - 1]
      invariant 0 <= k <= n && forall i :: k <= i < n ==> a[i] == b[i]
    {
      k := k - 1;
    }
  }

  lemma RewritePayload(sha: Digest, image: seq<Byte>, expected: seq<Byte>, boot: string, k: nat)
    requires RewriteOf(sha, image, expected, boot, k)
    ensures var encoded := image[PAYLOAD_OFFSET..CLEAR_END];
      IsAsciiBytes(encoded) && AsciiText(encoded) == ClearText(boot) && ClearPayload(AsciiText(encoded))
  {
    ClearIsTemplate(boot);
    AsciiDecodes(ClearText(boot));
    ClearTextIsClear(boot);
  }

  lemma NotRewrite(sha: Digest, image: seq<Byte>, expected: seq<Byte>)
    requires CLEAR_END <= |image|
    requires var encoded := image[PAYLOAD_OFFSET..CLEAR_END];
             IsAsciiBytes(encoded) ==> !ClearPayload(AsciiText(encoded))
    ensures !RewriteFragment(sha, image, expected)
  {
    forall boot, k: nat ensures !RewriteOf(sha, image, expected, boot, k) {
      if RewriteOf(sha, image, expected, boot, k) { RewritePayload(sha, image, expected, boot, k); }
    }
  }

  /** The front and back agreements meet exactly when some cut explains the image. */
  lemma AgreementsMeet(sha: Digest, image: seq<Byte>, expected: seq<Byte>, boot: string, front: nat, back: nat)
    requires |expected| == FILE_SIZE && CLEAR_END <= |image| <= FILE_SIZE && IsBootId(boot)
    requires image[PAYLOAD_OFFSET..CLEAR_END] == Encode(ClearText(boot)) && front <= |image| && back <= |image|
    requires (forall i :: 0 <= i < front ==> image[i] == expected[i])
             && (front < |image| ==> image[front] != expected[front])
    requires forall i :: back <= i < |image| ==> image[i] == ClearImage(sha, boot)[i]
    requires back > 0 ==> image[back - 1] != ClearImage(sha, boot)[back - 1]
    ensures back <= front <==> RewriteFragment(sha, image, expected)
  {
    if back <= front {
      assert RewriteOf(sha, image, expected, boot, front);
    }
    forall other, k: nat ensures RewriteOf(sha, image, expected, other, k) ==> back <= front {
      if RewriteOf(sha, image, expected, other, k) {
        SameRewrite(sha, image, expected, boot, other, k);
        CutBetween(image, expected, ClearImage(sha, boot), front, back, k);
      }
    }
  }

  /** A cut lies after the last byte that is not the previous image's and before the first that is not the new one's. */
  lemma CutBetween(image: seq<Byte>, expected: seq<Byte>, previous: seq<Byte>, front: nat, back: nat, k: nat)
    requires |image| <= |expected| && |image| <= |previous| && k <= |image| && front <= |image| && back <= |image|
    requires forall i :: 0 <= i < |image| ==> image[i] == if i < k then expected[i] else previous[i]
    requires front < |image| ==> image[front] != expected[front]
    requires back > 0 ==> image[back - 1] != previous[back - 1]
    ensures back <= front
  {}

  /** Only the boot that the payload names can explain the image. */
  lemma SameRewrite(sha: Digest, image: seq<Byte>, expected: seq<Byte>, boot: string, other: string, k: nat)
    requires IsBootId(boot) && RewriteOf(sha, image, expected, other, k)
    requires image[PAYLOAD_OFFSET..CLEAR_END] == Encode(ClearText(boot))
    ensures RewriteOf(sha, image, expected, boot, k)
  {
    RewritePayload(sha, image, expected, other, k);
    ClearIsTemplate(boot);
    AsciiDecodes(ClearText(boot));
    SameImage(sha, boot, other);
  }

  lemma SameImage(sha: Digest, a: string, b: string)
    requires IsBootId(a) && IsBootId(b) && ClearText(a) == ClearText(b)
    ensures ClearImage(sha, a) == ClearImage(sha, b)
  {}

  /** _is_safe_restart_rewrite_fragment accepts exactly those. */
  method IsSafeRewriteFragment(sha: Digest, image: seq<Byte>, expected: seq<Byte>) returns (safe: bool)
    requires |expected| == FILE_SIZE
    ensures safe <==> RewriteFragment(sha, image, expected)
  {
    if |image| < CLEAR_END || |image| > FILE_SIZE { return false; }
    var encoded := image[PAYLOAD_OFFSET..CLEAR_END];
    if !IsAsciiBytes(encoded) {
      NotRewrite(sha, image, expected);
      return false;
    }
    var payload := AsciiText(encoded);
    if !ClearPayload(payload) {
      NotRewrite(sha, image, expected);
      return false;
    }
    ghost var boot := ClearIsText(payload);
    ClearTextIsClear(boot);
    AsciiEncodes(encoded);
    InitialTailIsZero(sha, payload);
    var previous := InitialImage(sha, payload);
    var front := AgreeFront(image, expected, |image|);
    var back := AgreeBack(image, previous, |image|);
    AgreementsMeet(sha, image, expected, boot, front, back);
    return back <= front;
  }
}
