/** initialize_journal_layout: which files an initialization may write over. */
module Layout {
  import opened Text
  import opened Utf8
  import opened Frames
  import opened DualFile
  import opened Fragments

  // ---- the restart file of an earlier boot, cut short ----

  predicate AllZero(b: seq<Byte>) { forall i :: 0 <= i < |b| ==> b[i] == 0 }

  /** image[:FRAME_SIZE].ljust(FRAME_SIZE, 0). */
  function FirstFrame(image: seq<Byte>): (half: seq<Byte>)
    ensures |half| == FRAME_SIZE
  {
    if |image| >= FRAME_SIZE then image[..FRAME_SIZE] else image + Zeros(FRAME_SIZE - |image|)
  }

  /** _is_safe_restart_initial_fragment. */
  predicate SafeRestartInitial(sha: Digest, image: seq<Byte>) {
    var header := Header(CLEAR_BYTES, 1);
    if |image| > FILE_SIZE then false
    else if |image| <= 32 then image == header[..|image|]
    else if image[..32] != header then false
    else if |image| <= PAYLOAD_OFFSET then true
    else if !TemplatePrefix(image[PAYLOAD_OFFSET..if |image| < CLEAR_END then |image| else CLEAR_END]) then false
    else if |image| < CLEAR_END then true
    else
      var frame := DecodeFrame(sha, FirstFrame(image));
      frame.Ok? && frame.value.sequence == 1 && ClearPayload(frame.value.payload)
      && (|image| <= FRAME_SIZE || AllZero(image[FRAME_SIZE..]))
  }

  /** The length without trailing zeros. */
  function Stripped(image: seq<Byte>, n: nat): (m: nat)
    requires n <= |image|
    ensures m <= n && (forall i :: m <= i < n ==> image[i] == 0) && (m > 0 ==> image[m - 1] != 0)
  {
    if n == 0 then 0 else if image[n - 1] != 0 then n else Stripped(image, n - 1)
  }

  /** _is_safe_initial_path_fragment. */
  ghost predicate SafePath(sha: Digest, isRestart: bool, image: seq<Byte>, expected: seq<Byte>) {
    || InitialFragment(image, expected)
    || (isRestart
        && !(|image| == FILE_SIZE && !AllZero(image[FRAME_SIZE..]))
        && var length := if |image| == FILE_SIZE then Stripped(image, |image|) else |image|;
           if |image| == FILE_SIZE && length == 0 then false
           else if |image| == FILE_SIZE && length < CLEAR_END then SafeRestartInitial(sha, image[..length])
           else SafeRestartInitial(sha, image) || RewriteFragment(sha, image, expected))
  }

  /** Nothing that took a commit is ever accepted as an initial fragment, for restart or any other file. */
  lemma CommittedNeverSafe(sha: Digest, isRestart: bool, image: seq<Byte>, payload: string)
    requires PayloadFits(payload) && EverCommitted(image)
    ensures !SafePath(sha, isRestart, image, InitialImage(sha, payload))
  {
    CommittedIsNoFragment(sha, image, payload);
    assert !AllZero(image[FRAME_SIZE..]) by { assert image[FRAME_SIZE..][0] == image[FRAME_SIZE]; }
  }

  // ---- images of an all-clear restart file ----

  lemma ClearFrameParts(sha: Digest, boot: string)
    requires IsBootId(boot)
    ensures FrameFits(Frame(1, ClearText(boot)))
    ensures var half := FrameBytes(sha, Frame(1, ClearText(boot)));
      && half[..32] == Header(CLEAR_BYTES, 1)
      && half[PAYLOAD_OFFSET..CLEAR_END] == Encode(ClearText(boot))
      && half[CLEAR_END..] == Zeros(FRAME_SIZE - CLEAR_END)
  {
    ClearTextIsClear(boot);
    ClearIsTemplate(boot);
    FrameParts(sha, Frame(1, ClearText(boot)));
  }

  lemma ClearImageIs(sha: Digest, boot: string)
    requires IsBootId(boot) && FrameFits(Frame(1, ClearText(boot)))
    ensures ClearImage(sha, boot) == FrameBytes(sha, Frame(1, ClearText(boot))) + Zeros(FRAME_SIZE)
  {}

  lemma ClearImageParts(sha: Digest, boot: string)
    requires IsBootId(boot)
    ensures FrameFits(Frame(1, ClearText(boot)))
    ensures var image := ClearImage(sha, boot);
      && image[..32] == Header(CLEAR_BYTES, 1)
      && image[PAYLOAD_OFFSET..CLEAR_END] == Encode(ClearText(boot))
      && image[..FRAME_SIZE] == FrameBytes(sha, Frame(1, ClearText(boot)))
      && forall i :: CLEAR_END <= i < FILE_SIZE ==> image[i] == 0
  {
    ClearFrameParts(sha, boot);
    ClearImageIs(sha, boot);
    FrontParts(FrameBytes(sha, Frame(1, ClearText(boot))), ClearImage(sha, boot));
  }

  lemma FrontParts(half: seq<Byte>, image: seq<Byte>)
    requires |half| == FRAME_SIZE && image == half + Zeros(FRAME_SIZE)
    requires half[CLEAR_END..] == Zeros(FRAME_SIZE - CLEAR_END)
    ensures image[..32] == half[..32] && image[PAYLOAD_OFFSET..CLEAR_END] == half[PAYLOAD_OFFSET..CLEAR_END]
    ensures image[..FRAME_SIZE] == half && forall i :: CLEAR_END <= i < FILE_SIZE ==> image[i] == 0
  {
    forall i | CLEAR_END <= i < FILE_SIZE ensures image[i] == 0 {
      if i < FRAME_SIZE { assert half[CLEAR_END..][i - CLEAR_END] == 0; }
    }
  }

  // ---- a restart file half rewritten for a new boot ----

  /** What the new boot's interrupted writes make of what the old boot's left: a fragment of a
      mixture of their images. */
  ghost predicate MixedFragment(sha: Digest, image: seq<Byte>, a: string, b: string) {
    IsBootId(a) && IsBootId(b) && exists k :: MixedUpTo(image, ClearImage(sha, a), ClearImage(sha, b), k)
  }

  ghost predicate MixedUpTo(image: seq<Byte>, x: seq<Byte>, y: seq<Byte>, k: nat) {
    |x| == |y| && k <= |y| && InitialFragment(image, Overwritten(x, y, k))
  }

  /** The mixture, as far as its acceptance depends on it. */
  predicate MixtureShape(x: seq<Byte>, y: seq<Byte>, k: nat) {
    && |x| == FILE_SIZE && |y| == FILE_SIZE && k <= FILE_SIZE
    && x[..32] == Header(CLEAR_BYTES, 1) && y[..32] == Header(CLEAR_BYTES, 1)
    && TemplatePrefix(x[PAYLOAD_OFFSET..CLEAR_END]) && TemplatePrefix(y[PAYLOAD_OFFSET..CLEAR_END])
    && (forall i :: CLEAR_END <= i < FILE_SIZE ==> x[i] == 0 && y[i] == 0)
  }

  lemma MixtureHasShape(sha: Digest, a: string, b: string, k: nat)
    requires IsBootId(a) && IsBootId(b) && k <= FILE_SIZE
    ensures MixtureShape(ClearImage(sha, a), ClearImage(sha, b), k)
  {
    ClearImageParts(sha, a);
    ClearImageParts(sha, b);
    ClearIsTemplate(a);
    ClearIsTemplate(b);
  }

  /** Each byte of a mixed payload is a byte of one payload or of the other. */
  lemma MixedTemplate(x: seq<Byte>, y: seq<Byte>, k: nat)
    requires MixtureShape(x, y, k)
    ensures TemplatePrefix(Overwritten(x, y, k)[PAYLOAD_OFFSET..CLEAR_END])
  {
    var mixed := Overwritten(x, y, k)[PAYLOAD_OFFSET..CLEAR_END];
    forall i | 0 <= i < |mixed| ensures TemplateAt(i, mixed[i]) {
      var at := PAYLOAD_OFFSET + i;
      assert mixed[i] == Overwritten(x, y, k)[at] == if at < k then y[at] else x[at];
      assert y[at] == y[PAYLOAD_OFFSET..CLEAR_END][i] && x[at] == x[PAYLOAD_OFFSET..CLEAR_END][i];
    }
  }

  lemma MixedHeader(x: seq<Byte>, y: seq<Byte>, k: nat, i: nat)
    requires MixtureShape(x, y, k) && i < 32
    ensures Overwritten(x, y, k)[i] == Header(CLEAR_BYTES, 1)[i]
  {
    assert x[..32][i] == x[i] && y[..32][i] == y[i];
  }

  /** A prefix that stops inside the payload passes as an initial restart file of some boot. */
  lemma ShortStartIsSafe(sha: Digest, x: seq<Byte>, y: seq<Byte>, k: nat, image: seq<Byte>)
    requires MixtureShape(x, y, k) && Starts(image, Overwritten(x, y, k)) && |image| < CLEAR_END
    ensures SafeRestartInitial(sha, image)
  {
    var whole, header := Overwritten(x, y, k), Header(CLEAR_BYTES, 1);
    forall i | 0 <= i < 32 ensures whole[i] == header[i] { MixedHeader(x, y, k, i); }
    if |image| <= 32 {
      assert image == header[..|image|];
    } else {
      assert image[..32] == header;
      if |image| > PAYLOAD_OFFSET {
        MixedTemplate(x, y, k);
        StartTemplate(image, whole);
      }
    }
  }

  lemma StartTemplate(image: seq<Byte>, whole: seq<Byte>)
    requires |whole| == FILE_SIZE && Starts(image, whole) && PAYLOAD_OFFSET < |image| < CLEAR_END
    requires TemplatePrefix(whole[PAYLOAD_OFFSET..CLEAR_END])
    ensures TemplatePrefix(image[PAYLOAD_OFFSET..|image|])
  {
    forall i | 0 <= i < |image| - PAYLOAD_OFFSET ensures TemplateAt(i, image[PAYLOAD_OFFSET..|image|][i]) {
      assert image[PAYLOAD_OFFSET..|image|][i] == whole[PAYLOAD_OFFSET..CLEAR_END][i];
    }
  }

  /** Past the cut the mixture is the image of the boot its payload names. */
  lemma MixedRest(x: seq<Byte>, y: seq<Byte>, z: seq<Byte>, k: nat)
    requires MixtureShape(x, y, k) && PAYLOAD_OFFSET < k && |z| == FILE_SIZE
    requires z[PAYLOAD_OFFSET..CLEAR_END] == Overwritten(x, y, k)[PAYLOAD_OFFSET..CLEAR_END]
    requires forall i :: CLEAR_END <= i < FILE_SIZE ==> z[i] == 0
    ensures forall i :: k <= i < FILE_SIZE ==> Overwritten(x, y, k)[i] == z[i]
  {
    SameRest(Overwritten(x, y, k), z, k);
  }

  lemma SameRest(image: seq<Byte>, z: seq<Byte>, k: nat)
    requires |image| == FILE_SIZE && |z| == FILE_SIZE && PAYLOAD_OFFSET < k
    requires image[PAYLOAD_OFFSET..CLEAR_END] == z[PAYLOAD_OFFSET..CLEAR_END]
    requires forall i :: k <= i < FILE_SIZE && CLEAR_END <= i ==> image[i] == z[i]
    ensures forall i :: k <= i < FILE_SIZE ==> image[i] == z[i]
  {
    forall i | k <= i < CLEAR_END ensures image[i] == z[i] {
      assert image[PAYLOAD_OFFSET..CLEAR_END][i - PAYLOAD_OFFSET] == image[i];
    }
  }

  lemma EqualTexts(a: string, b: string)
    requires IsBootId(a) && IsBootId(b) && Encode(ClearText(a)) == Encode(ClearText(b))
    ensures ClearText(a) == ClearText(b)
  {
    DecodeEncode(ClearText(a));
    DecodeEncode(ClearText(b));
  }

  /** The payload of a mixture names some boot, and past the cut the mixture is that boot's image. */
  lemma MixedBoot(sha: Digest, a: string, b: string, k: nat) returns (boot: string)
    requires IsBootId(a) && IsBootId(b) && k <= FILE_SIZE
    ensures IsBootId(boot)
    ensures var mixed := Overwritten(ClearImage(sha, a), ClearImage(sha, b), k);
      && mixed[PAYLOAD_OFFSET..CLEAR_END] == Encode(ClearText(boot))
      && forall i :: k <= i < FILE_SIZE ==> mixed[i] == ClearImage(sha, boot)[i]
  {
    var x, y := ClearImage(sha, a), ClearImage(sha, b);
    MixtureHasShape(sha, a, b, k);
    MixedTemplate(x, y, k);
    boot := TemplateIsClear(Overwritten(x, y, k)[PAYLOAD_OFFSET..CLEAR_END]);
    if k <= PAYLOAD_OFFSET {
      ClearImageParts(sha, a);
      assert Overwritten(x, y, k)[PAYLOAD_OFFSET..CLEAR_END] == x[PAYLOAD_OFFSET..CLEAR_END];
      EqualTexts(a, boot);
      boot := a;
    } else {
      ClearImageParts(sha, boot);
      MixedRest(x, y, ClearImage(sha, boot), k);
    }
  }

  /** A longer prefix passes as an interrupted rewrite. */
  lemma LongStartIsSafe(sha: Digest, a: string, b: string, k: nat, image: seq<Byte>)
    requires IsBootId(a) && IsBootId(b) && k <= FILE_SIZE
    requires Starts(image, Overwritten(ClearImage(sha, a), ClearImage(sha, b), k)) && |image| >= CLEAR_END
    ensures RewriteFragment(sha, image, ClearImage(sha, b))
  {
    var boot := MixedBoot(sha, a, b, k);
    ExplainedBy(sha, image, ClearImage(sha, a), ClearImage(sha, b), boot, k);
  }

  lemma ExplainedBy(sha: Digest, image: seq<Byte>, x: seq<Byte>, y: seq<Byte>, boot: string, k: nat)
    requires |x| == FILE_SIZE && |y| == FILE_SIZE && k <= FILE_SIZE && IsBootId(boot)
    requires Starts(image, Overwritten(x, y, k)) && |image| >= CLEAR_END
    requires Overwritten(x, y, k)[PAYLOAD_OFFSET..CLEAR_END] == Encode(ClearText(boot))
    requires forall i :: k <= i < FILE_SIZE ==> Overwritten(x, y, k)[i] == ClearImage(sha, boot)[i]
    ensures RewriteFragment(sha, image, y)
  {
    assert image[PAYLOAD_OFFSET..CLEAR_END] == Overwritten(x, y, k)[PAYLOAD_OFFSET..CLEAR_END];
    assert RewriteOf(sha, image, y, boot, if k < |image| then k else |image|);
  }

  /** A fragment at full size is the whole mixture, or its non-zero part stops inside the payload. */
  lemma FullShape(image: seq<Byte>, x: seq<Byte>, y: seq<Byte>, k: nat)
    requires MixtureShape(x, y, k) && |image| == FILE_SIZE && InitialFragment(image, Overwritten(x, y, k))
    ensures AllZero(image[FRAME_SIZE..]) && Stripped(image, FILE_SIZE) > 0
    ensures var length := Stripped(image, FILE_SIZE);
      Starts(if length < CLEAR_END then image[..length] else image, Overwritten(x, y, k))
  {
    MixedHeader(x, y, k, 0);
    HeaderStarts(CLEAR_BYTES, 1);
    FullFragment(image, Overwritten(x, y, k));
  }

  lemma FullFragment(image: seq<Byte>, whole: seq<Byte>)
    requires |whole| == FILE_SIZE && |image| == FILE_SIZE && InitialFragment(image, whole)
    requires whole[0] != 0 && forall i :: CLEAR_END <= i < FILE_SIZE ==> whole[i] == 0
    ensures AllZero(image[FRAME_SIZE..]) && Stripped(image, FILE_SIZE) > 0
    ensures var length := Stripped(image, FILE_SIZE);
            Starts(if length < CLEAR_END then image[..length] else image, whole)
  {
    if Starts(image, whole) {
      assert image[0] == whole[0];
    } else {
      var c: nat :| ZeroTailed(image, whole, c);
      TailedFragment(image, whole, c);
    }
  }

  lemma TailedFragment(image: seq<Byte>, whole: seq<Byte>, c: nat)
    requires |whole| == FILE_SIZE && ZeroTailed(image, whole, c)
    requires whole[0] != 0 && forall i :: CLEAR_END <= i < FILE_SIZE ==> whole[i] == 0
    ensures AllZero(image[FRAME_SIZE..]) && Stripped(image, FILE_SIZE) > 0
    ensures var length := Stripped(image, FILE_SIZE);
            Starts(if length < CLEAR_END then image[..length] else image, whole)
  {
    var length := Stripped(image, FILE_SIZE);
    assert image[0] != 0;
    var last := if length == 0 then 0 else image[length - 1];
    assert length <= c;
    if CLEAR_END <= length { assert image == whole; }
  }

  /** After any number of interrupted writes for two boots, the restart file is accepted. */
  lemma MixedFragmentIsSafe(sha: Digest, image: seq<Byte>, a: string, b: string)
    requires MixedFragment(sha, image, a, b)
    ensures SafePath(sha, true, image, ClearImage(sha, b))
  {
    var k :| MixedUpTo(image, ClearImage(sha, a), ClearImage(sha, b), k);
    var x, y := ClearImage(sha, a), ClearImage(sha, b);
    MixtureHasShape(sha, a, b, k);
    if |image| < FILE_SIZE {
      if |image| < CLEAR_END { ShortStartIsSafe(sha, x, y, k, image); } else { LongStartIsSafe(sha, a, b, k, image); }
    } else {
      FullShape(image, x, y, k);
      var length := Stripped(image, FILE_SIZE);
      if length < CLEAR_END { ShortStartIsSafe(sha, x, y, k, image[..length]); } else {
        LongStartIsSafe(sha, a, b, k, image);
      }
    }
  }

  lemma OverwrittenTwice(x: seq<Byte>, y: seq<Byte>, j: nat, k: nat)
    requires |x| == |y| && j <= |y| && k <= |y|
    ensures Overwritten(Overwritten(x, y, j), y, k) == Overwritten(x, y, if j < k then k else j)
  {}

  lemma OverwrittenSame(x: seq<Byte>, y: seq<Byte>, k: nat)
    requires k <= |y|
    ensures Overwritten(x, y, 0) == x && Overwritten(y, y, k) == y
  {}

  /** What the old boot leaves is a mixed fragment for whatever boot comes next. */
  lemma FragmentIsMixed(sha: Digest, image: seq<Byte>, a: string, b: string)
    requires IsBootId(a) && IsBootId(b) && InitialFragment(image, ClearImage(sha, a))
    ensures MixedFragment(sha, image, a, b)
  {
    OverwrittenSame(ClearImage(sha, a), ClearImage(sha, b), 0);
    assert MixedUpTo(image, ClearImage(sha, a), ClearImage(sha, b), 0);
  }

  lemma MixedAloneIsFragment(sha: Digest, image: seq<Byte>, a: string)
    requires MixedFragment(sha, image, a, a)
    ensures InitialFragment(image, ClearImage(sha, a))
  {
    var k :| MixedUpTo(image, ClearImage(sha, a), ClearImage(sha, a), k);
    OverwrittenSame(ClearImage(sha, a), ClearImage(sha, a), k);
  }

  /** A full-size file of zeros, which an initial write leaves when only its size reached storage,
      is refused whatever it should have held. */
  lemma ZeroFileRefused(sha: Digest, isRestart: bool, payload: string)
    requires PayloadFits(payload)
    ensures !SafePath(sha, isRestart, Zeros(FILE_SIZE), InitialImage(sha, payload))
  {
    MagicStarts(sha, Frame(1, payload));
    ZerosStrip(Zeros(FILE_SIZE), FILE_SIZE);
    ZerosAreNoFragment(InitialImage(sha, payload));
  }

  lemma ZerosAreNoFragment(expected: seq<Byte>)
    requires |expected| == FILE_SIZE && expected[0] != 0
    ensures !InitialFragment(Zeros(FILE_SIZE), expected)
  {
    assert Zeros(FILE_SIZE)[0] == 0;
  }

  lemma {:induction false} ZerosStrip(image: seq<Byte>, n: nat)
    requires n <= |image| && AllZero(image)
    ensures Stripped(image, n) == 0
  {
    if n > 0 { ZerosStrip(image, n - 1); }
  }
}
