/** initialize_journal_layout, killed at any byte of any of its writes and run again: the cursor is
    committed last, nothing that took a commit is written over, and no interruption strands the layout. */
module Initialization {
  import opened Results
  import opened Text
  import opened Utf8
  import opened Frames
  import opened DualFile
  import opened Codecs
  import opened Fragments
  import opened Layout

  /** The data files in the source's order: active, restart, handoff, terminal-00 to terminal-31. */
  const DATA_COUNT := 35
  const RESTART := 1

  datatype Files = Files(data: seq<Option<seq<Byte>>>, cursor: Option<seq<Byte>>)

  /** _initial_journal_payloads and initial_journal_image, by file. */
  function Expected(sha: Digest, boot: string, i: nat): (image: seq<Byte>)
    requires IsBootId(boot)
    ensures |image| == FILE_SIZE
  {
    InitialTailIsZero(sha, "");
    if i == RESTART then ClearImage(sha, boot) else InitialImage(sha, "")
  }

  function ExpectedCursor(sha: Digest): (image: seq<Byte>)
    ensures |image| == FILE_SIZE
  {
    CursorFits();
    InitialTailIsZero(sha, CursorText(0));
    InitialImage(sha, CursorText(0))
  }

  lemma CursorFits()
    ensures PayloadFits(CursorText(0))
  {
    CursorRoundTrip(0);
  }

  /** What storage holds of a write that the process did not survive: its first bytes over what was
      there, which storage may first have extended to the full size. */
  datatype Tear = Unopened | Torn(cut: nat, extended: bool)

  predicate ValidTear(t: Tear) { t.Torn? ==> t.cut <= FILE_SIZE }

  /** An extension of an empty file is not on storage without the first byte of the write. */
  predicate TearOf(before: Option<seq<Byte>>, t: Tear) {
    t.Torn? && t.extended && t.cut == 0 ==> before.Some? && before.value != []
  }

  function Remains(before: Option<seq<Byte>>, expected: seq<Byte>, t: Tear): Option<seq<Byte>>
    requires ValidTear(t) && |expected| == FILE_SIZE
  {
    if t.Unopened? then before
    else
      var held := if before.Some? then before.value else [];
      var base := if t.extended && |held| < FILE_SIZE then held + Zeros(FILE_SIZE - |held|) else held;
      Some(Overwritten(base, expected, t.cut))
  }

  /** _is_safe_initial_path_fragment, as the loops of the source run it. */
  method IsSafePath(sha: Digest, isRestart: bool, image: seq<Byte>, expected: seq<Byte>) returns (safe: bool)
    requires |expected| == FILE_SIZE
    ensures safe <==> SafePath(sha, isRestart, image, expected)
  {
    var initial := IsSafeInitialFragment(image, expected);
    if initial { return true; }
    if !isRestart { return false; }
    if |image| == FILE_SIZE {
      if !AllZero(image[FRAME_SIZE..]) { return false; }
      var length := Stripped(image, |image|);
      if length == 0 { return false; }
      if length < CLEAR_END { return SafeRestartInitial(sha, image[..length]); }
    }
    if SafeRestartInitial(sha, image) { return true; }
    safe := IsSafeRewriteFragment(sha, image, expected);
  }

  // ---- what an initialization finds and leaves ----

  ghost predicate CursorPresent(sha: Digest, cursor: Option<seq<Byte>>) {
    cursor.Some? && (cursor.value == ExpectedCursor(sha)
                     || (!InitialFragment(cursor.value, ExpectedCursor(sha)) && Select(sha, cursor.value).Ok?))
  }

  predicate Readable(sha: Digest, file: Option<seq<Byte>>) { file.Some? && Select(sha, file.value).Ok? }

  predicate ReadableFrom(sha: Digest, data: seq<Option<seq<Byte>>>, i: nat)
    decreases |data| - i
  {
    i < |data| ==> Readable(sha, data[i]) && ReadableFrom(sha, data, i + 1)
  }

  predicate AllReadable(sha: Digest, f: Files) { ReadableFrom(sha, f.data, 0) && Readable(sha, f.cursor) }

  ghost predicate SafeFile(sha: Digest, boot: string, i: nat, file: Option<seq<Byte>>)
    requires IsBootId(boot)
  {
    file.Some? ==> SafePath(sha, i == RESTART, file.value, Expected(sha, boot, i))
  }

  ghost predicate SafeFrom(sha: Digest, boot: string, data: seq<Option<seq<Byte>>>, i: nat)
    requires IsBootId(boot)
    decreases |data| - i
  {
    i < |data| ==> SafeFile(sha, boot, i, data[i]) && SafeFrom(sha, boot, data, i + 1)
  }

  ghost predicate CursorFragment(sha: Digest, cursor: Option<seq<Byte>>) {
    cursor.Some? ==> InitialFragment(cursor.value, ExpectedCursor(sha))
  }

  ghost predicate Recoverable(sha: Digest, boot: string, f: Files)
    requires IsBootId(boot)
  {
    CursorFragment(sha, f.cursor) && SafeFrom(sha, boot, f.data, 0)
  }

  lemma {:induction false} ReadableEach(sha: Digest, data: seq<Option<seq<Byte>>>, i: nat)
    requires forall m :: i <= m < |data| ==> Readable(sha, data[m])
    ensures ReadableFrom(sha, data, i)
    decreases |data| - i
  {
    if i < |data| { ReadableEach(sha, data, i + 1); }
  }

  lemma {:induction false} SafeEach(sha: Digest, boot: string, data: seq<Option<seq<Byte>>>, i: nat)
    requires IsBootId(boot) && forall m :: i <= m < |data| ==> SafeFile(sha, boot, m, data[m])
    ensures SafeFrom(sha, boot, data, i)
    decreases |data| - i
  {
    if i < |data| { SafeEach(sha, boot, data, i + 1); }
  }

  lemma {:induction false} SafeAt(sha: Digest, boot: string, data: seq<Option<seq<Byte>>>, i: nat, m: nat)
    requires IsBootId(boot) && SafeFrom(sha, boot, data, i) && i <= m < |data|
    ensures SafeFile(sha, boot, m, data[m])
    decreases |data| - i
  {
    if i < m { SafeAt(sha, boot, data, i + 1, m); }
  }

  /** The files before position j are as a completed initialization leaves them, those after it untouched. */
  ghost predicate WrittenUpTo(sha: Digest, boot: string, f: Files, g: Files, j: nat)
    requires IsBootId(boot)
  {
    && |f.data| == |g.data| == DATA_COUNT && j <= DATA_COUNT
    && (forall i :: 0 <= i < j ==> g.data[i] == Some(Expected(sha, boot, i)))
    && forall i :: j < i < DATA_COUNT ==> g.data[i] == f.data[i]
  }

  /** Killed in the write of data file j, or of the cursor once every data file is complete. */
  ghost predicate StoppedAt(sha: Digest, boot: string, f: Files, g: Files, j: nat, t: Tear)
    requires IsBootId(boot) && ValidTear(t)
  {
    && WrittenUpTo(sha, boot, f, g, j)
    && if j < DATA_COUNT then g.cursor == f.cursor && g.data[j] == Remains(f.data[j], Expected(sha, boot, j), t)
       else g.cursor == Remains(f.cursor, ExpectedCursor(sha), t)
  }

  /** The file that write goes to. */
  function Hit(f: Files, j: nat): Option<seq<Byte>>
    requires |f.data| == DATA_COUNT
  {
    if j < DATA_COUNT then f.data[j] else f.cursor
  }

  ghost predicate DataStopped(sha: Digest, boot: string, f: Files, g: Files, t: Tear)
    requires IsBootId(boot) && ValidTear(t)
  {
    exists j: nat :: j < DATA_COUNT && StoppedAt(sha, boot, f, g, j, t)
  }

  ghost predicate Stopped(sha: Digest, boot: string, f: Files, g: Files, t: Tear)
    requires IsBootId(boot) && ValidTear(t)
  {
    exists j: nat :: StoppedAt(sha, boot, f, g, j, t)
  }

  ghost predicate DataInitial(sha: Digest, boot: string, data: seq<Option<seq<Byte>>>)
    requires IsBootId(boot)
  {
    |data| == DATA_COUNT && forall i :: 0 <= i < DATA_COUNT ==> data[i] == Some(Expected(sha, boot, i))
  }

  ghost predicate Finished(sha: Digest, boot: string, g: Files)
    requires IsBootId(boot)
  {
    DataInitial(sha, boot, g.data) && g.cursor == Some(ExpectedCursor(sha))
  }

  lemma ExpectedSelects(sha: Digest, boot: string, i: nat)
    requires IsBootId(boot)
    ensures Select(sha, Expected(sha, boot, i)) ==
            Ok(Selection(0, Frame(1, if i == RESTART then ClearText(boot) else "")))
  {
    if i == RESTART {
      ClearTextIsClear(boot);
      InitialSelects(sha, ClearText(boot));
    } else {
      InitialSelects(sha, "");
    }
  }

  lemma CursorSelects(sha: Digest)
    ensures Select(sha, ExpectedCursor(sha)).Ok?
  {
    CursorFits();
    InitialSelects(sha, CursorText(0));
  }

  lemma CursorStopped(sha: Digest, boot: string, f: Files, g: Files, t: Tear)
    requires IsBootId(boot) && ValidTear(t) && |f.data| == DATA_COUNT && DataInitial(sha, boot, g.data)
    requires g.cursor == Remains(f.cursor, ExpectedCursor(sha), t)
    ensures Stopped(sha, boot, f, g, t)
  {
    assert StoppedAt(sha, boot, f, g, DATA_COUNT, t);
  }

  // ---- the initialization itself ----

  /** initialize_journal_layout returns, raises, or is killed inside a write. */
  datatype Outcome = Completed | Refused | Killed

  datatype Found = Present | Absent | Unrecoverable

  class LayoutFiles {
    var data: seq<Option<seq<Byte>>>
    var cursor: Option<seq<Byte>>
    /** How many writes reach storage whole before the process is killed, and what remains of the next. */
    var power: nat
    const tear: Tear

    ghost predicate Valid()
      reads this
    {
      |data| == DATA_COUNT && ValidTear(tear)
    }

    function Contents(): Files
      reads this
    {
      Files(data, cursor)
    }

    /** A directory, and how long the process will live. */
    constructor (contents: Files, power: nat, tear: Tear)
      requires |contents.data| == DATA_COUNT && ValidTear(tear)
      ensures Valid() && Contents() == contents && this.power == power && this.tear == tear
    {
      data, cursor := contents.data, contents.cursor;
      this.power, this.tear := power, tear;
    }

    /** _create_journal_path_unlocked and _rewrite_initial_journal_path_unlocked. */
    method Write(before: Option<seq<Byte>>, expected: seq<Byte>) returns (durable: bool, after: Option<seq<Byte>>)
      requires Valid() && |expected| == FILE_SIZE
      modifies this`power
      ensures durable == (old(power) > 0) && power == if durable then old(power) - 1 else 0
      ensures after == if durable then Some(expected) else Remains(before, expected, tear)
    {
      if power == 0 { return false, Remains(before, expected, tear); }
      power := power - 1;
      return true, Some(expected);
    }

    /** The validation of a layout whose cursor is present. */
    method Validate(sha: Digest) returns (good: bool)
      requires Valid()
      ensures good <==> AllReadable(sha, Contents())
    {
      var i := 0;
      while i < DATA_COUNT
        invariant 0 <= i <= DATA_COUNT && ReadableFrom(sha, data, 0) == ReadableFrom(sha, data, i)
      {
        if !Readable(sha, data[i]) { return false; }
        i := i + 1;
      }
      return Readable(sha, cursor);
    }

    /** The check of every image, before anything is written. */
    method Check(sha: Digest, boot: string) returns (good: bool)
      requires Valid() && IsBootId(boot)
      ensures good <==> SafeFrom(sha, boot, data, 0)
    {
      var i := 0;
      while i < DATA_COUNT
        invariant 0 <= i <= DATA_COUNT && (SafeFrom(sha, boot, data, 0) <==> SafeFrom(sha, boot, data, i))
      {
        if data[i].Some? {
          var safe := IsSafePath(sha, i == RESTART, data[i].value, Expected(sha, boot, i));
          if !safe { return false; }
        }
        i := i + 1;
      }
      return true;
    }

    /** Create or rewrite every data file that is not already initial. */
    method WriteData(sha: Digest, boot: string) returns (durable: bool)
      requires Valid() && IsBootId(boot)
      modifies this
      ensures Valid() && cursor == old(cursor)
      ensures old(power) >= DATA_COUNT ==> durable && power >= old(power) - DATA_COUNT
      ensures durable ==> DataInitial(sha, boot, data)
      ensures !durable ==> DataStopped(sha, boot, old(Contents()), Contents(), tear)
    {
      ghost var before := Contents();
      var i := 0;
      while i < DATA_COUNT
        invariant 0 <= i <= DATA_COUNT && Valid() && cursor == old(cursor) && power >= old(power) - i
        invariant forall m :: 0 <= m < i ==> data[m] == Some(Expected(sha, boot, m))
        invariant forall m :: i <= m < DATA_COUNT ==> data[m] == before.data[m]
      {
        if data[i] != Some(Expected(sha, boot, i)) {
          var whole, after := Write(data[i], Expected(sha, boot, i));
          data := data[i := after];
          if !whole {
            assert StoppedAt(sha, boot, before, Contents(), i, tear);
            return false;
          }
        }
        i := i + 1;
      }
      return true;
    }

    /** _validate_initial_journal_path_unlocked over the data files. */
    method CheckInitial(sha: Digest, boot: string) returns (good: bool)
      requires Valid() && IsBootId(boot)
      ensures DataInitial(sha, boot, data) ==> good
    {
      var i := 0;
      while i < DATA_COUNT
        invariant 0 <= i <= DATA_COUNT
      {
        ExpectedSelects(sha, boot, i);
        if data[i].None?
           || Select(sha, data[i].value) != Ok(Selection(0, Frame(1, if i == RESTART then ClearText(boot) else ""))) {
          return false;
        }
        i := i + 1;
      }
      return true;
    }

    method WriteCursor(expected: seq<Byte>) returns (durable: bool)
      requires Valid() && |expected| == FILE_SIZE
      modifies this
      ensures Valid() && data == old(data) && durable == (old(power) > 0)
      ensures cursor == if durable then Some(expected) else Remains(old(cursor), expected, tear)
    {
      durable, cursor := Write(cursor, expected);
    }

    /** What the cursor says of the layout. */
    method FindCursor(sha: Digest) returns (found: Found)
      requires Valid()
      ensures found == Present <==> CursorPresent(sha, cursor)
      ensures found == Absent ==> CursorFragment(sha, cursor)
      ensures found == Unrecoverable ==> !CursorFragment(sha, cursor)
    {
      if cursor == Some(ExpectedCursor(sha)) { return Present; }
      if cursor.None? { return Absent; }
      var fragment := IsSafeInitialFragment(cursor.value, ExpectedCursor(sha));
      if fragment { return Absent; }
      return if Select(sha, cursor.value).Ok? then Present else Unrecoverable;
    }

    /** The rest of an initialization that found no cursor: check everything, write the data files,
        read them back, and only then write the cursor. */
    method Complete(sha: Digest, boot: string) returns (outcome: Outcome)
      requires Valid() && IsBootId(boot)
      modifies this
      ensures Valid()
      ensures outcome == Refused <==> !SafeFrom(sha, boot, old(data), 0)
      ensures outcome == Refused ==> Contents() == old(Contents())
      ensures outcome == Completed ==> Finished(sha, boot, Contents())
      ensures old(power) > DATA_COUNT ==> outcome != Killed
      ensures outcome == Killed ==> Stopped(sha, boot, old(Contents()), Contents(), tear)
    {
      ghost var before := Contents();
      var good := Check(sha, boot);
      if !good { return Refused; }
      var durable := WriteData(sha, boot);
      if !durable { return Killed; }
      good := CheckInitial(sha, boot);
      if !good { return Refused; }
      durable := WriteCursor(ExpectedCursor(sha));
      if !durable {
        CursorStopped(sha, boot, before, Contents(), tear);
        return Killed;
      }
      return Completed;
    }

    /** initialize_journal_layout. */
    method Initialize(sha: Digest, boot: string) returns (outcome: Outcome)
      requires Valid() && IsBootId(boot)
      modifies this
      ensures Valid()
      ensures CursorPresent(sha, old(cursor)) ==>
        Contents() == old(Contents()) && outcome == if AllReadable(sha, Contents()) then Completed else Refused
      ensures !CursorPresent(sha, old(cursor)) ==> (outcome == Refused <==> !Recoverable(sha, boot, old(Contents())))
      ensures outcome == Refused ==> Contents() == old(Contents())
      ensures !CursorPresent(sha, old(cursor)) && outcome == Completed ==> Finished(sha, boot, Contents())
      ensures outcome == Killed ==> Stopped(sha, boot, old(Contents()), Contents(), tear)
      ensures old(power) > DATA_COUNT ==> outcome != Killed
    {
      var found := FindCursor(sha);
      match found {
        case Present =>
          var good := Validate(sha);
          outcome := if good then Completed else Refused;
        case Unrecoverable => outcome := Refused;
        case Absent => outcome := Complete(sha, boot);
      }
    }
  }

  // ---- nothing that took a commit is written over ----

  ghost predicate Untouched(f: Files, g: Files) {
    && |f.data| == |g.data|
    && (f.cursor.Some? && EverCommitted(f.cursor.value) ==> g.cursor == f.cursor)
    && forall i :: 0 <= i < |f.data| && f.data[i].Some? && EverCommitted(f.data[i].value) ==> g.data[i] == f.data[i]
  }

  lemma RecoverableNeverCommitted(sha: Digest, boot: string, f: Files)
    requires IsBootId(boot) && Recoverable(sha, boot, f)
    ensures f.cursor.Some? ==> !EverCommitted(f.cursor.value)
    ensures forall i :: 0 <= i < |f.data| && f.data[i].Some? ==> !EverCommitted(f.data[i].value)
  {
    CursorFits();
    if f.cursor.Some? && EverCommitted(f.cursor.value) { CommittedIsNoFragment(sha, f.cursor.value, CursorText(0)); }
    forall i | 0 <= i < |f.data| && f.data[i].Some? ensures !EverCommitted(f.data[i].value) {
      SafeAt(sha, boot, f.data, 0, i);
      CommittedFileNotSafe(sha, boot, i, f.data[i].value);
    }
  }

  lemma CommittedFileNotSafe(sha: Digest, boot: string, i: nat, image: seq<Byte>)
    requires IsBootId(boot) && SafePath(sha, i == RESTART, image, Expected(sha, boot, i))
    ensures !EverCommitted(image)
  {
    ClearTextIsClear(boot);
    if EverCommitted(image) {
      CommittedNeverSafe(sha, i == RESTART, image, if i == RESTART then ClearText(boot) else "");
    }
  }

  /** Once any file took a commit, an initialization that is not refused leaves all such files alone. */
  method InitializeAfterCommits(layout: LayoutFiles, sha: Digest, boot: string) returns (outcome: Outcome)
    requires layout.Valid() && IsBootId(boot)
    modifies layout
    ensures layout.Valid() && Untouched(old(layout.Contents()), layout.Contents())
  {
    ghost var before := layout.Contents();
    outcome := layout.Initialize(sha, boot);
    if !CursorPresent(sha, before.cursor) && Recoverable(sha, boot, before) {
      RecoverableNeverCommitted(sha, boot, before);
    }
  }

  // ---- no interruption strands the layout ----

  ghost predicate FragmentFile(sha: Digest, a: string, b: string, i: nat, file: Option<seq<Byte>>)
    requires IsBootId(a) && IsBootId(b)
  {
    file.Some? ==> if i == RESTART then MixedFragment(sha, file.value, a, b)
        else InitialFragment(file.value, Expected(sha, b, i))
  }

  ghost predicate InitialFile(sha: Digest, a: string, b: string, i: nat, file: Option<seq<Byte>>)
    requires IsBootId(a) && IsBootId(b)
  {
    file == Some(Expected(sha, a, i)) || file == Some(Expected(sha, b, i))
  }

  /** A layout that interrupted initializations on boot a, and then on boot b, can have left. */
  ghost predicate LayoutSound(sha: Digest, a: string, b: string, f: Files)
    requires IsBootId(a) && IsBootId(b)
  {
    && |f.data| == DATA_COUNT
    && CursorFragment(sha, f.cursor)
    && (forall i :: 0 <= i < DATA_COUNT ==> FragmentFile(sha, a, b, i, f.data[i]))
    && (f.cursor == Some(ExpectedCursor(sha)) ==> forall i :: 0 <= i < DATA_COUNT ==>
        InitialFile(sha, a, b, i, f.data[i]))
  }

  /** Such a layout is never refused. */
  lemma SoundIsAccepted(sha: Digest, a: string, b: string, f: Files)
    requires IsBootId(a) && IsBootId(b) && LayoutSound(sha, a, b, f)
    ensures CursorPresent(sha, f.cursor) ==> AllReadable(sha, f)
    ensures !CursorPresent(sha, f.cursor) ==> Recoverable(sha, b, f)
  {
    CursorSelects(sha);
    if CursorPresent(sha, f.cursor) {
      forall i | 0 <= i < DATA_COUNT ensures Readable(sha, f.data[i]) {
        assert InitialFile(sha, a, b, i, f.data[i]);
        ExpectedSelects(sha, a, i);
        ExpectedSelects(sha, b, i);
      }
      ReadableEach(sha, f.data, 0);
    } else {
      forall i | 0 <= i < DATA_COUNT ensures SafeFile(sha, b, i, f.data[i]) {
        assert FragmentFile(sha, a, b, i, f.data[i]);
        if i == RESTART && f.data[i].Some? { MixedFragmentIsSafe(sha, f.data[i].value, a, b); }
      }
      SafeEach(sha, b, f.data, 0);
    }
  }

  /** A torn write leaves a fragment of a fragment. */
  lemma RemainsFragment(before: Option<seq<Byte>>, whole: seq<Byte>, expected: seq<Byte>, t: Tear)
    requires |whole| == FILE_SIZE && |expected| == FILE_SIZE && ValidTear(t) && TearOf(before, t) && t.Torn?
    requires before.Some? ==> InitialFragment(before.value, whole)
    ensures InitialFragment(Remains(before, expected, t).value, Overwritten(whole, expected, t.cut))
      || InitialFragment(Remains(before, expected, t).value, expected)
  {
    var held := if before.Some? then before.value else [];
    assert Starts([], whole);
    if held == [] && t.extended {
      assert ZeroTailed(Remains(before, expected, t).value, expected, t.cut);
    } else {
      if t.extended && |held| < FILE_SIZE { ExtendedFragment(held, whole); }
      OverwrittenOver(if t.extended && |held| < FILE_SIZE then held + Zeros(FILE_SIZE - |held|)
                      else held, whole, expected, t.cut);
    }
  }

  lemma RemainsInitial(before: Option<seq<Byte>>, expected: seq<Byte>, t: Tear)
    requires |expected| == FILE_SIZE && ValidTear(t) && TearOf(before, t)
             && (before.Some? ==> InitialFragment(before.value, expected))
    ensures var after := Remains(before, expected, t); after.Some? ==> InitialFragment(after.value, expected)
  {
    if t.Torn? {
      RemainsFragment(before, expected, expected, t);
      OverwrittenSame(expected, expected, t.cut);
    }
  }

  lemma RemainsMixed(sha: Digest, a: string, b: string, before: Option<seq<Byte>>, t: Tear)
    requires IsBootId(a) && IsBootId(b) && ValidTear(t) && TearOf(before, t)
    requires before.Some? ==> MixedFragment(sha, before.value, a, b)
    ensures var after := Remains(before, ClearImage(sha, b), t); after.Some? ==> MixedFragment(sha, after.value, a, b)
  {
    var x, y := ClearImage(sha, a), ClearImage(sha, b);
    if t.Torn? {
      if before.Some? {
        var j :| MixedUpTo(before.value, x, y, j);
        RemainsUpTo(before, x, y, j, t);
      } else {
        OverwrittenSame(x, y, 0);
        RemainsFragment(before, y, y, t);
        OverwrittenSame(y, y, t.cut);
        WholeIsMixed(Remains(before, y, t).value, x, y);
      }
    }
  }

  lemma WholeIsMixed(image: seq<Byte>, x: seq<Byte>, y: seq<Byte>)
    requires |x| == |y| && InitialFragment(image, y)
    ensures MixedUpTo(image, x, y, |y|)
  {
    assert Overwritten(x, y, |y|) == y;
  }

  lemma RemainsUpTo(before: Option<seq<Byte>>, x: seq<Byte>, y: seq<Byte>, j: nat, t: Tear)
    requires |x| == FILE_SIZE && |y| == FILE_SIZE && ValidTear(t) && TearOf(before, t) && t.Torn?
    requires before.Some? && MixedUpTo(before.value, x, y, j)
    ensures exists k :: MixedUpTo(Remains(before, y, t).value, x, y, k)
  {
    var after := Remains(before, y, t).value;
    RemainsFragment(before, Overwritten(x, y, j), y, t);
    if InitialFragment(after, y) {
      WholeIsMixed(after, x, y);
    } else {
      OverwrittenTwice(x, y, j, t.cut);
      assert MixedUpTo(after, x, y, if j < t.cut then t.cut else j);
    }
  }

  lemma ExpectedIsFragment(sha: Digest, a: string, b: string, i: nat)
    requires IsBootId(a) && IsBootId(b)
    ensures FragmentFile(sha, a, b, i, Some(Expected(sha, b, i)))
  {
    assert Starts(Expected(sha, b, i), Expected(sha, b, i));
    if i == RESTART { WholeIsMixed(ClearImage(sha, b), ClearImage(sha, a), ClearImage(sha, b)); }
  }

  lemma RemainsFile(sha: Digest, a: string, b: string, i: nat, before: Option<seq<Byte>>, t: Tear)
    requires IsBootId(a) && IsBootId(b) && ValidTear(t) && TearOf(before, t) && FragmentFile(sha, a, b, i, before)
    ensures FragmentFile(sha, a, b, i, Remains(before, Expected(sha, b, i), t))
  {
    if i == RESTART {
      RemainsMixed(sha, a, b, before, t);
    } else {
      RemainsInitial(before, Expected(sha, b, i), t);
    }
  }

  /** An interrupted initialization keeps the layout sound; in particular the cursor is complete
      only when every data file is. */
  lemma StoppedKeepsSound(sha: Digest, a: string, b: string, f: Files, g: Files, j: nat, t: Tear)
    requires IsBootId(a) && IsBootId(b) && ValidTear(t) && LayoutSound(sha, a, b, f) && !CursorPresent(sha, f.cursor)
    requires StoppedAt(sha, b, f, g, j, t) && TearOf(Hit(f, j), t)
    ensures LayoutSound(sha, a, b, g)
  {
    forall i | 0 <= i < DATA_COUNT ensures FragmentFile(sha, a, b, i, g.data[i]) {
      assert FragmentFile(sha, a, b, i, f.data[i]);
      if i < j { ExpectedIsFragment(sha, a, b, i); }
      if i == j { RemainsFile(sha, a, b, i, f.data[i], t); }
    }
    if j == DATA_COUNT {
      RemainsInitial(f.cursor, ExpectedCursor(sha), t);
      forall i | 0 <= i < DATA_COUNT ensures InitialFile(sha, a, b, i, g.data[i]) {}
    }
  }

  /** What one boot leaves is sound for whatever boot comes next. */
  lemma SoundForNextBoot(sha: Digest, a: string, b: string, f: Files)
    requires IsBootId(a) && IsBootId(b) && LayoutSound(sha, a, a, f)
    ensures LayoutSound(sha, a, b, f)
  {
    forall i | 0 <= i < DATA_COUNT ensures FragmentFile(sha, a, b, i, f.data[i]) {
      assert FragmentFile(sha, a, a, i, f.data[i]);
      if i == RESTART && f.data[i].Some? {
        MixedAloneIsFragment(sha, f.data[i].value, a);
        FragmentIsMixed(sha, f.data[i].value, a, b);
      }
    }
    if f.cursor == Some(ExpectedCursor(sha)) {
      forall i | 0 <= i < DATA_COUNT ensures InitialFile(sha, a, b, i, f.data[i]) {
        assert InitialFile(sha, a, a, i, f.data[i]);
      }
    }
  }

  // ---- any number of interruptions, over two boots ----

  datatype Attempt = Attempt(position: nat, tear: Tear, after: Files)

  /** Initializations on one boot, each killed before it committed the cursor. */
  ghost predicate Attempts(sha: Digest, boot: string, f: Files, attempts: seq<Attempt>)
    requires IsBootId(boot)
    decreases |attempts|
  {
    attempts == []
    || (ValidTear(attempts[0].tear) && !CursorPresent(sha, f.cursor)
        && StoppedAt(sha, boot, f, attempts[0].after, attempts[0].position, attempts[0].tear)
        && TearOf(Hit(f, attempts[0].position), attempts[0].tear)
        && Attempts(sha, boot, attempts[0].after, attempts[1..]))
  }

  function Last(f: Files, attempts: seq<Attempt>): Files {
    if attempts == [] then f else attempts[|attempts| - 1].after
  }

  lemma {:induction false} AttemptsKeepSound(sha: Digest, a: string, b: string, f: Files, attempts: seq<Attempt>)
    requires IsBootId(a) && IsBootId(b) && LayoutSound(sha, a, b, f) && Attempts(sha, b, f, attempts)
    ensures LayoutSound(sha, a, b, Last(f, attempts))
    decreases |attempts|
  {
    if attempts != [] {
      StoppedKeepsSound(sha, a, b, f, attempts[0].after, attempts[0].position, attempts[0].tear);
      AttemptsKeepSound(sha, a, b, attempts[0].after, attempts[1..]);
    }
  }

  /** From an empty directory, after any number of initializations killed on one boot and then any
      number killed on another, the next one is not refused: it finds the layout complete, or may
      go on to complete it. */
  lemma EveryInterruptionRecovers(sha: Digest, a: string, b: string, first: seq<Attempt>, second: seq<Attempt>)
    requires IsBootId(a) && IsBootId(b)
    requires Attempts(sha, a, EmptyDirectory(), first) && Attempts(sha, b, Last(EmptyDirectory(), first), second)
    ensures var f := Last(Last(EmptyDirectory(), first), second);
      LayoutSound(sha, a, b, f) && (if CursorPresent(sha, f.cursor) then AllReadable(sha, f)
                                    else Recoverable(sha, b, f))
  {
    var f := EmptyDirectory();
    AttemptsKeepSound(sha, a, a, f, first);
    SoundForNextBoot(sha, a, b, Last(f, first));
    AttemptsKeepSound(sha, a, b, Last(f, first), second);
    SoundIsAccepted(sha, a, b, Last(Last(f, first), second));
  }

  function EmptyDirectory(): Files { Files(seq(DATA_COUNT, _ => None), None) }
}
