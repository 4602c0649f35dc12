/** One journal file: two frames, of which the newer valid one is authoritative. A commit writes
    the other frame, so a write that stops anywhere leaves the old payload or the new one. */
module DualFile {
  import opened Results
  import opened Text
  import opened Utf8
  import opened Frames

  datatype Selection = Selection(index: nat, frame: Frame)

  function Half(image: seq<Byte>, index: nat): (half: seq<Byte>)
    requires |image| == FILE_SIZE && index < 2
    ensures |half| == FRAME_SIZE
  {
    if index == 0 then image[..FRAME_SIZE] else image[FRAME_SIZE..]
  }

  /** select_journal_frame. */
  function Select(sha: Digest, image: seq<Byte>): Result<Selection, FrameError> {
    if |image| != FILE_SIZE then Err(BadSize)
    else
      var a, b := DecodeFrame(sha, Half(image, 0)), DecodeFrame(sha, Half(image, 1));
      if a.Err? && b.Err? then Err(NoFrame)
      else if a.Ok? && b.Ok? && a.value.sequence == b.value.sequence
          && Half(image, 0) != Half(image, 1) then Err(Conflict)
      else
        var selected :=
          if b.Err? then Selection(0, a.value)
          else if a.Err? then Selection(1, b.value)
          else if b.value.sequence > a.value.sequence then Selection(1, b.value) else Selection(0, a.value);
        if selected.frame.sequence == SEQUENCE_MAX then Err(Exhausted) else Ok(selected)
  }

  /** initial_journal_image. */
  function InitialImage(sha: Digest, payload: string): seq<Byte>
    requires PayloadFits(payload)
  {
    FrameBytes(sha, Frame(1, payload)) + Zeros(FRAME_SIZE)
  }

  /** The first cut bytes of after, over before. */
  function Torn(before: seq<Byte>, after: seq<Byte>, cut: nat): (torn: seq<Byte>)
    requires |before| == |after| && cut <= |after|
    ensures |torn| == |after|
  {
    after[..cut] + before[cut..]
  }

  function Replaced(image: seq<Byte>, index: nat, half: seq<Byte>): (r: seq<Byte>)
    requires |image| == FILE_SIZE && index < 2 && |half| == FRAME_SIZE
    ensures |r| == FILE_SIZE
    ensures Half(r, index) == half && Half(r, 1 - index) == Half(image, 1 - index)
  {
    if index == 0 then half + image[FRAME_SIZE..] else image[..FRAME_SIZE] + half
  }

  /** The frame a commit of this payload would write. */
  function NextFrame(sha: Digest, image: seq<Byte>, payload: string): Frame
    requires Select(sha, image).Ok?
  {
    Frame(Select(sha, image).value.frame.sequence + 1, payload)
  }

  /** The file after the write of a commit's frame has put cut bytes on storage. */
  function TornCommit(sha: Digest, image: seq<Byte>, payload: string, cut: nat): seq<Byte>
    requires Select(sha, image).Ok? && FrameFits(NextFrame(sha, image, payload)) && cut <= FRAME_SIZE
  {
    var index := 1 - Select(sha, image).value.index;
    Replaced(image, index, Torn(Half(image, index), FrameBytes(sha, NextFrame(sha, image, payload)), cut))
  }

  /** Two inputs with one digest. */
  ghost predicate Collision(sha: Digest, x: seq<Byte>, y: seq<Byte>) { x != y && Hash(sha, x) == Hash(sha, y) }

  /** A mixture of two frames whose digest field happens to be the digest of the mixture. */
  ghost predicate SelfCertifies(sha: Digest, mixed: seq<Byte>) {
    |mixed| == FRAME_SIZE && LengthField(mixed) <= PAYLOAD_MAX && mixed[32..PAYLOAD_OFFSET] == Hash(sha, Covered(mixed))
  }

  /** The hash accidents that would make a torn frame look whole: a cut inside the header or the
      digest leaving a mixture that certifies itself, or a cut inside the payload leaving a
      mixture that collides with the frame being written. */
  ghost predicate TornByAccident(sha: Digest, before: seq<Byte>, after: seq<Byte>, cut: nat)
    requires |before| == FRAME_SIZE && |after| == FRAME_SIZE && cut <= FRAME_SIZE
  {
    var mixed := Torn(before, after, cut);
    mixed != before && mixed != after
    && if cut < PAYLOAD_OFFSET then SelfCertifies(sha, mixed)
       else LengthField(mixed) <= PAYLOAD_MAX && Collision(sha, Covered(mixed), Covered(after))
  }

  // ---- a torn frame is the old one, the new one, or invalid ----

  lemma MixedCovered(before: seq<Byte>, after: seq<Byte>, cut: nat)
    requires |before| == FRAME_SIZE && |after| == FRAME_SIZE && PAYLOAD_OFFSET <= cut <= FRAME_SIZE
    ensures var mixed := Torn(before, after, cut);
      LengthField(mixed) == LengthField(after) && mixed[..32] == after[..32]
      && mixed[32..PAYLOAD_OFFSET] == after[32..PAYLOAD_OFFSET]
  {
    assert Torn(before, after, cut)[12..16] == after[12..16];
  }

  /** Two frames that cover the same bytes, agree in the digest and end in zeros are equal. */
  lemma SameCovered(a: seq<Byte>, b: seq<Byte>)
    requires |a| == FRAME_SIZE && |b| == FRAME_SIZE && LengthField(a) == LengthField(b)
    requires Covered(a) == Covered(b) && a[32..PAYLOAD_OFFSET] == b[32..PAYLOAD_OFFSET]
    requires a[PayloadEnd(a)..] == b[PayloadEnd(b)..]
    ensures a == b
  {
    var end := PayloadEnd(a);
    assert a[..32] == Covered(a)[..32] && b[..32] == Covered(b)[..32];
    assert a[PAYLOAD_OFFSET..end] == Covered(a)[32..] && b[PAYLOAD_OFFSET..end] == Covered(b)[32..];
    FourParts(a, 32, PAYLOAD_OFFSET, end);
    FourParts(b, 32, PAYLOAD_OFFSET, end);
  }

  /** A torn frame is the old content, the new frame, or no frame. */
  lemma MixedFrame(sha: Digest, before: seq<Byte>, f: Frame, cut: nat)
    requires FrameFits(f) && |before| == FRAME_SIZE && cut <= FRAME_SIZE
    requires !TornByAccident(sha, before, FrameBytes(sha, f), cut)
    ensures var mixed := Torn(before, FrameBytes(sha, f), cut);
      mixed == before || mixed == FrameBytes(sha, f) || !FrameSound(sha, mixed)
  {
    var after := FrameBytes(sha, f);
    var mixed := Torn(before, after, cut);
    if FrameSound(sha, mixed) {
      assert FrameRule(sha, mixed, 3) && FrameRule(sha, mixed, 5) && FrameRule(sha, mixed, 6);
      if cut >= PAYLOAD_OFFSET {
        FrameParts(sha, f);
        MixedCovered(before, after, cut);
        if Covered(mixed) == Covered(after) { SameCovered(mixed, after); }
      }
    }
  }

  // ---- selection ----

  /** What selection means: of the valid halves the newer one that is not exhausted, and of two
      identical halves the first. */
  lemma SelectMeans(sha: Digest, image: seq<Byte>, s: Selection)
    requires |image| == FILE_SIZE
    ensures Select(sha, image) == Ok(s) <==>
      && s.index < 2 && s.frame.sequence < SEQUENCE_MAX && DecodeFrame(sha, Half(image, s.index)) == Ok(s.frame)
      && var other := DecodeFrame(sha, Half(image, 1 - s.index));
         other.Ok? ==> other.value.sequence < s.frame.sequence || (s.index == 0 && Half(image, 0) == Half(image, 1))
  {
    if Select(sha, image) == Ok(s) { SelectedHalf(sha, image); }
  }

  lemma SelectedHalf(sha: Digest, image: seq<Byte>)
    requires Select(sha, image).Ok?
    ensures var s := Select(sha, image).value;
      && s.index < 2 && 1 <= s.frame.sequence < SEQUENCE_MAX
      && DecodeFrame(sha, Half(image, s.index)) == Ok(s.frame)
      && var other := DecodeFrame(sha, Half(image, 1 - s.index));
         other.Ok? ==> other.value.sequence < s.frame.sequence || Half(image, 0) == Half(image, 1)
  {
    DecodedFits(sha, Half(image, Select(sha, image).value.index));
  }

  lemma DecodedFits(sha: Digest, half: seq<Byte>)
    requires DecodeFrame(sha, half).Ok?
    ensures FrameFits(DecodeFrame(sha, half).value)
  {
    DecodedParts(sha, half);
  }

  lemma SameHalves(image: seq<Byte>, index: nat)
    requires |image| == FILE_SIZE && index < 2
    ensures Replaced(image, index, Half(image, index)) == image
  {}

  /** Selection after the inactive half was replaced by nothing new, by rubbish, or by the next frame. */
  lemma SelectReplaced(sha: Digest, image: seq<Byte>, half: seq<Byte>, payload: string)
    requires Select(sha, image).Ok? && |half| == FRAME_SIZE
    ensures var s := Select(sha, image).value;
      && s.index < 2
      && var next := Select(sha, Replaced(image, 1 - s.index, half));
         && (half == Half(image, 1 - s.index) || DecodeFrame(sha, half).Err? ==> next == Ok(s))
         && (DecodeFrame(sha, half) == Ok(NextFrame(sha, image, payload)) ==>
               next == if s.frame.sequence + 1 < SEQUENCE_MAX then Ok(Selection(1 - s.index,
                   NextFrame(sha, image, payload)))
                       else Err(Exhausted))
  {
    var s := Select(sha, image).value;
    SelectedHalf(sha, image);
    SameHalves(image, 1 - s.index);
  }

  /** No cut of this commit is mistaken for a frame by one of the named hash accidents. */
  ghost predicate NoAccident(sha: Digest, image: seq<Byte>, payload: string, cut: nat)
    requires Select(sha, image).Ok? && FrameFits(NextFrame(sha, image, payload)) && cut <= FRAME_SIZE
  {
    !TornByAccident(sha, Half(image, 1 - Select(sha, image).value.index),
                    FrameBytes(sha, NextFrame(sha, image, payload)), cut)
  }

  lemma NextFrameFits(sha: Digest, image: seq<Byte>, payload: string)
    requires Select(sha, image).Ok? && PayloadFits(payload)
    ensures FrameFits(NextFrame(sha, image, payload))
  {
    SelectedHalf(sha, image);
  }

  /** A commit interrupted after any number of bytes leaves the old selection or exactly the new
      one, barring the named hash accidents; a complete commit selects the new one. */
  lemma TornCommitIsAtomic(sha: Digest, image: seq<Byte>, payload: string, cut: nat)
    requires Select(sha, image).Ok? && FrameFits(NextFrame(sha, image, payload)) && cut <= FRAME_SIZE
    requires Select(sha, image).value.frame.sequence + 1 < SEQUENCE_MAX
    requires NoAccident(sha, image, payload, cut)
    ensures var s, torn := Select(sha, image).value, TornCommit(sha, image, payload, cut);
      || (Select(sha, torn) == Ok(s) && cut < FRAME_SIZE)
      || Select(sha, torn) == Ok(Selection(1 - s.index, NextFrame(sha, image, payload)))
  {
    var index, next := 1 - Select(sha, image).value.index, NextFrame(sha, image, payload);
    var mixed := Torn(Half(image, index), FrameBytes(sha, next), cut);
    MixedFrame(sha, Half(image, index), next, cut);
    DecodeEncodedFrame(sha, next);
    SelectReplaced(sha, image, mixed, payload);
    if cut == FRAME_SIZE { assert mixed == FrameBytes(sha, next); }
  }

  lemma ZerosAreNoFrame(sha: Digest)
    ensures DecodeFrame(sha, Zeros(FRAME_SIZE)).Err?
  {
    assert Zeros(FRAME_SIZE)[..8][0] == 0;
    assert !FrameRule(sha, Zeros(FRAME_SIZE), 0);
  }

  lemma InitialHalves(sha: Digest, payload: string)
    requires PayloadFits(payload)
    ensures Half(InitialImage(sha, payload), 0) == FrameBytes(sha, Frame(1, payload))
    ensures Half(InitialImage(sha, payload), 1) == Zeros(FRAME_SIZE)
  {}

  /** An initialized file selects its initial frame. */
  lemma InitialSelects(sha: Digest, payload: string)
    requires PayloadFits(payload)
    ensures Select(sha, InitialImage(sha, payload)) == Ok(Selection(0, Frame(1, payload)))
  {
    InitialHalves(sha, payload);
    DecodeEncodedFrame(sha, Frame(1, payload));
    ZerosAreNoFrame(sha);
  }

  // ---- the file itself ----

  /** A journal file on storage. Writing may stop, with the process, after any byte. */
  class JournalFile {
    const image: array<Byte>

    ghost predicate Valid() { image.Length == FILE_SIZE }

    /** _initialize_journal_file_unlocked. */
    constructor (sha: Digest, payload: string)
      requires PayloadFits(payload)
      ensures Valid() && fresh(image)
      ensures image[..] == InitialImage(sha, payload)
    {
      var bytes := InitialImage(sha, payload);
      image := new Byte[FILE_SIZE](i requires 0 <= i < FILE_SIZE => bytes[i]);
    }

    /** pwrite of a frame at an offset, of which the first survives bytes reach the file. */
    method Write(bytes: seq<Byte>, offset: nat, survives: nat) returns (written: nat)
      requires Valid() && offset + |bytes| <= FILE_SIZE
      modifies image
      ensures written == if survives < |bytes| then survives else |bytes|
      ensures image[..] == old(image[..offset]) + bytes[..written] + old(image[offset + written..])
    {
      var count := if survives < |bytes| then survives else |bytes|;
      written := 0;
      while written < count
        invariant 0 <= written <= count
        invariant forall i :: 0 <= i < FILE_SIZE ==>
          image[i] == if offset <= i < offset + written then bytes[i - offset] else old(image[i])
      {
        image[offset + written] := bytes[written];
        written := written + 1;
      }
    }

    /** _commit_journal_file_unlocked: write the inactive frame, read back, and require that it
        became authoritative. */
    method Commit(sha: Digest, payload: string, survives: nat) returns (r: Result<Selection, FrameError>)
      requires Valid()
      modifies image
      ensures image[..] == CommittedImage(sha, old(image[..]), payload, survives)
      ensures r == CommitResult(sha, old(image[..]), payload, survives)
    {
      ghost var before := image[..];
      var active := Select(sha, image[..]);
      if active.Err? { return Err(active.error); }
      var next := NextFrame(sha, image[..], payload);
      var encoded := EncodeFrame(sha, next);
      if encoded.Err? { return Err(encoded.error); }
      SelectedHalf(sha, before);
      var index := 1 - active.value.index;
      var written := Write(encoded.value, index * FRAME_SIZE, survives);
      CommitLeaves(sha, before, payload, survives, written);
      if written != |encoded.value| { return Err(ShortWrite); }
      CompleteCommitSelects(sha, before, payload);
      r := Select(sha, image[..]);
      if r.Ok? && r.value != Selection(index, next) { return Err(Conflict); }
    }
  }

  lemma CommitLeaves(sha: Digest, image: seq<Byte>, payload: string, survives: nat, written: nat)
    requires Select(sha, image).Ok? && FrameFits(NextFrame(sha, image, payload))
    requires written == if survives < FRAME_SIZE then survives else FRAME_SIZE
    ensures var index := 1 - Select(sha, image).value.index;
      && 0 <= index < 2 && |image| == FILE_SIZE
      && image[..index * FRAME_SIZE] + FrameBytes(sha, NextFrame(sha, image, payload))[..written]
         + image[index * FRAME_SIZE + written..] == CommittedImage(sha, image, payload, survives)
      && (written == FRAME_SIZE ==>
            CommittedImage(sha, image, payload, survives) == TornCommit(sha, image, payload, FRAME_SIZE))
  {
    SelectedHalf(sha, image);
    WrittenIsTorn(image, 1 - Select(sha, image).value.index, FrameBytes(sha, NextFrame(sha, image, payload)), written);
  }

  lemma WrittenIsTorn(image: seq<Byte>, index: nat, bytes: seq<Byte>, written: nat)
    requires |image| == FILE_SIZE && index < 2 && |bytes| == FRAME_SIZE && written <= FRAME_SIZE
    ensures image[..index * FRAME_SIZE] + bytes[..written] + image[index * FRAME_SIZE + written..]
         == Replaced(image, index, Torn(Half(image, index), bytes, written))
  {}

  /** The image a commit leaves when its write stops after survives bytes. */
  function CommittedImage(sha: Digest, image: seq<Byte>, payload: string, survives: nat): seq<Byte> {
    if Select(sha, image).Err? || !FrameFits(NextFrame(sha, image, payload)) then image
    else TornCommit(sha, image, payload, if survives < FRAME_SIZE then survives else FRAME_SIZE)
  }

  /** What the commit reports: an incomplete write is indeterminate, a complete one is what a read selects. */
  function CommitResult(sha: Digest, image: seq<Byte>, payload: string, survives: nat): Result<Selection, FrameError> {
    if Select(sha, image).Err? then Err(Select(sha, image).error)
    else
      var encoded := EncodeFrame(sha, NextFrame(sha, image, payload));
      if encoded.Err? then Err(encoded.error)
      else if survives < FRAME_SIZE then Err(ShortWrite)
      else Select(sha, TornCommit(sha, image, payload, FRAME_SIZE))
  }

  lemma CompleteCommitSelects(sha: Digest, image: seq<Byte>, payload: string)
    requires Select(sha, image).Ok? && FrameFits(NextFrame(sha, image, payload))
    ensures Select(sha, TornCommit(sha, image, payload, FRAME_SIZE))
         == if NextFrame(sha, image, payload).sequence < SEQUENCE_MAX
            then Ok(Selection(1 - Select(sha, image).value.index, NextFrame(sha, image, payload)))
            else Err(Exhausted)
  {
    var index, next := 1 - Select(sha, image).value.index, NextFrame(sha, image, payload);
    assert Torn(Half(image, index), FrameBytes(sha, next), FRAME_SIZE) == FrameBytes(sha, next);
    DecodeEncodedFrame(sha, next);
    SelectReplaced(sha, image, FrameBytes(sha, next), payload);
  }

  /** A successful commit leaves the file one sequence further with exactly its payload; an
      unsuccessful one leaves it as it was or, when the write had already reached storage, there
      too, so that the next read or commit goes on from either. */
  lemma CommitIsAtomic(sha: Digest, image: seq<Byte>, payload: string, survives: nat)
    requires Select(sha, image).Ok? && FrameFits(NextFrame(sha, image, payload))
    requires NextFrame(sha, image, payload).sequence < SEQUENCE_MAX
    requires survives < FRAME_SIZE ==> NoAccident(sha, image, payload, survives)
    ensures var after, next := Select(sha, CommittedImage(sha, image, payload, survives)),
                               Selection(1 - Select(sha, image).value.index, NextFrame(sha, image, payload));
      && (after == Select(sha, image) || after == Ok(next))
      && (CommitResult(sha, image, payload, survives).Ok? <==> survives >= FRAME_SIZE)
      && (survives >= FRAME_SIZE ==> after == Ok(next) && CommitResult(sha, image, payload, survives) == Ok(next))
  {
    if survives < FRAME_SIZE {
      TornCommitIsAtomic(sha, image, payload, survives);
    } else {
      CompleteCommitSelects(sha, image, payload);
    }
  }
}
