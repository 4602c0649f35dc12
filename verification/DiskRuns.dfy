/** Runs on storage: calls that write frames byte by byte, are killed inside any write, and go on from
    whatever the files then hold. */
module DiskRuns {
  import opened Results
  import opened Text
  import opened Utf8
  import opened Frames
  import opened DualFile
  import opened Records
  import opened Validator
  import opened Codecs
  import opened Operations
  import opened Runs
  import opened Invariant
  import opened Acceptance
  import opened Safety
  import opened Budget
  import opened Storage
  import Initialization

  /** A call that writes so many frames whole, and so many bytes of the next before it is killed; or a reboot. */
  datatype DiskEvent = Uses(call: Call, whole: nat, survives: nat) | Reboots(boot: string)

  /** The journal as the run made it, and the files. */
  datatype State = State(world: World, disk: Disk)

  /** The files carry this store, in frames of this digest; kept folded. */
  ghost predicate Holds(sha: Digest, d: Disk, st: Store) {
    forall read :: read == FrameReader(sha) ==> Represents(read, d, st)
  }

  lemma HoldsMeans(sha: Digest, d: Disk, st: Store)
    ensures Holds(sha, d, st) <==> Represents(FrameReader(sha), d, st)
  {}

  // ---- writes ----

  /** One dual-frame commit, of which so many bytes reach the file. */
  function DiskWith(sha: Digest, d: Disk, c: Commit, survives: nat): (r: Disk)
    requires |d.terminals| == TERMINAL_COUNT
    ensures |r.terminals| == TERMINAL_COUNT
  {
    if CommitEncodable(c) then WithFile(d, c, CommittedImage(sha, FileOf(d, c), CommitPayload(c), survives)) else d
  }

  /** The first n commits of a call, each written whole. */
  function WriteFirst(sha: Digest, d: Disk, cs: seq<Commit>, n: nat): (r: Disk)
    requires |d.terminals| == TERMINAL_COUNT && n <= |cs|
    ensures |r.terminals| == TERMINAL_COUNT
  {
    if n == 0 then d else DiskWith(sha, WriteFirst(sha, d, cs, n - 1), cs[n - 1], FRAME_SIZE)
  }

  /** And the next one torn. */
  function WriteTorn(sha: Digest, d: Disk, cs: seq<Commit>, n: nat, survives: nat): (r: Disk)
    requires |d.terminals| == TERMINAL_COUNT && n <= |cs|
    ensures |r.terminals| == TERMINAL_COUNT
  {
    var written := WriteFirst(sha, d, cs, n);
    if n < |cs| then DiskWith(sha, written, cs[n], survives) else written
  }

  /** The named digest accidents do not happen in the torn write. */
  ghost predicate TearIsClean(sha: Digest, d: Disk, cs: seq<Commit>, n: nat, survives: nat)
    requires |d.terminals| == TERMINAL_COUNT && n <= |cs|
  {
    n < |cs| && CommitEncodable(cs[n]) ==>
      WriteIsClean(sha, FileOf(WriteFirst(sha, d, cs, n), cs[n]), CommitPayload(cs[n]), survives)
  }

  predicate RoomAt(w: World, cs: seq<Commit>, i: nat)
    requires i < |cs|
  {
    var st := CommittedAll(w, cs[..i]).store;
    CommitEncodable(cs[i]) && Sized(st) && SequenceOf(st, cs[i]) + 1 < SEQUENCE_MAX
  }

  lemma SequenceCarried(sha: Digest, d: Disk, st: Store, c: Commit)
    requires Holds(sha, d, st) && CommitEncodable(c) && |d.terminals| == TERMINAL_COUNT
             && |st.sequences.terminals| == TERMINAL_COUNT
    ensures Select(sha, FileOf(d, c)).Ok? ==> Select(sha, FileOf(d, c)).value.frame.sequence == SequenceOf(st, c)
  {
    HoldsMeans(sha, d, st);
    var payload := FileCarries(FrameReader(sha), d, st, c);
    ReaderSelects(sha, FileOf(d, c));
  }

  /** One write, torn or whole, leaves files that carry the store before or after the commit. */
  lemma WriteRepresents(sha: Digest, d: Disk, st: Store, c: Commit, survives: nat)
    requires |d.terminals| == TERMINAL_COUNT && Sized(st) && Holds(sha, d, st)
    requires CommitEncodable(c) && SequenceOf(st, c) + 1 < SEQUENCE_MAX
    requires WriteIsClean(sha, FileOf(d, c), CommitPayload(c), survives)
    ensures var after := DiskWith(sha, d, c, survives);
      && (Holds(sha, after, st) || Holds(sha, after, Apply(st, c)))
      && (survives >= FRAME_SIZE ==> Holds(sha, after, Apply(st, c)))
  {
    PayloadsFit(c);
    SequenceCarried(sha, d, st, c);
    DualFrameWriteIsAtomic(sha, FileOf(d, c), CommitPayload(c), survives);
    HoldsMeans(sha, d, st);
    HoldsMeans(sha, DiskWith(sha, d, c, survives), st);
    HoldsMeans(sha, DiskWith(sha, d, c, survives), Apply(st, c));
    CommitOnDisk(FrameReader(sha), d, st, c, CommittedImage(sha, FileOf(d, c), CommitPayload(c), survives),
                 survives >= FRAME_SIZE);
  }

  lemma {:induction false} FirstRepresents(sha: Digest, w: World, d: Disk, cs: seq<Commit>, n: nat)
    requires |d.terminals| == TERMINAL_COUNT && Holds(sha, d, w.store) && n <= |cs| && forall i :: 0 <= i < |cs| ==>
             RoomAt(w, cs, i)
    ensures Holds(sha, WriteFirst(sha, d, cs, n), CommittedAll(w, cs[..n]).store)
    decreases n
  {
    if n == 0 {
      assert cs[..0] == [];
    } else {
      FirstRepresents(sha, w, d, cs, n - 1);
      CommittedSnoc(w, cs, n - 1);
      assert RoomAt(w, cs, n - 1);
      WriteRepresents(sha, WriteFirst(sha, d, cs, n - 1), CommittedAll(w, cs[..n - 1]).store, cs[n - 1], FRAME_SIZE);
    }
  }

  lemma TornRepresents(sha: Digest, w: World, d: Disk, cs: seq<Commit>, n: nat, survives: nat)
    requires |d.terminals| == TERMINAL_COUNT && Holds(sha, d, w.store) && n < |cs| && forall i :: 0 <= i < |cs| ==>
             RoomAt(w, cs, i)
    requires TearIsClean(sha, d, cs, n, survives)
    ensures var after := WriteTorn(sha, d, cs, n, survives);
      && (Holds(sha, after, CommittedAll(w, cs[..n]).store) || Holds(sha, after, CommittedAll(w, cs[..n + 1]).store))
      && (survives >= FRAME_SIZE ==> Holds(sha, after, CommittedAll(w, cs[..n + 1]).store))
  {
    FirstRepresents(sha, w, d, cs, n);
    CommittedSnoc(w, cs, n);
    assert RoomAt(w, cs, n);
    WriteRepresents(sha, WriteFirst(sha, d, cs, n), CommittedAll(w, cs[..n]).store, cs[n], survives);
  }

  // ---- events ----

  ghost function DiskAfter(sha: Digest, s: State, e: DiskEvent): (d: Disk)
    requires |s.disk.terminals| == TERMINAL_COUNT
    ensures |d.terminals| == TERMINAL_COUNT
  {
    match e
    case Uses(call, whole, survives) =>
      var cs := CommitsOf(s.world, call);
      WriteTorn(sha, s.disk, cs, Min(whole, |cs|), survives)
    case Reboots(_) => s.disk
  }

  /** How many commits the files then carry: the torn one counts when they no longer carry the store before it. */
  ghost function Survived(sha: Digest, w: World, d: Disk, cs: seq<Commit>, n: nat, survives: nat): (k: nat)
    requires |d.terminals| == TERMINAL_COUNT && n <= |cs|
    ensures k <= |cs|
  {
    if n < |cs| && !Holds(sha, WriteTorn(sha, d, cs, n, survives), CommittedAll(w, cs[..n]).store) then n + 1 else n
  }

  /** The event of a run that this one amounts to. */
  ghost function Amount(sha: Digest, s: State, e: DiskEvent): Event
    requires |s.disk.terminals| == TERMINAL_COUNT
  {
    match e
    case Uses(call, whole, survives) =>
      var cs := CommitsOf(s.world, call);
      CallEvent(call, Survived(sha, s.world, s.disk, cs, Min(whole, |cs|), survives))
    case Reboots(boot) => RebootEvent(boot)
  }

  ghost function After(sha: Digest, s: State, e: DiskEvent): (t: State)
    requires |s.disk.terminals| == TERMINAL_COUNT
    ensures |t.disk.terminals| == TERMINAL_COUNT
  {
    State(Next(s.world, Amount(sha, s, e)), DiskAfter(sha, s, e))
  }

  /** The restart file, whose budget does not span boots, can take the call's commits. */
  predicate RestartRoom(w: World, call: Call) {
    var cs := CommitsOf(w, call);
    forall i :: 0 <= i < |cs| && cs[i].CommitRestart? ==>
      CommittedAll(w, cs[..i]).store.sequences.restart + 1 < SEQUENCE_MAX
  }

  /** What the environment promises about one event. */
  ghost predicate Promised(sha: Digest, s: State, e: DiskEvent)
    requires |s.disk.terminals| == TERMINAL_COUNT
  {
    Admissible(s.world, Amount(sha, s, e))
    && (e.Uses? ==>
          var cs := CommitsOf(s.world, e.call);
          RestartRoom(s.world, e.call) && TearIsClean(sha, s.disk, cs, Min(e.whole, |cs|), e.survives))
  }

  /** What every run keeps: the journal's invariant, its budget, and files that carry it. */
  ghost predicate Kept(w: World) {
    Consistent(w) && Decoded(w.store.journal) && IsBootId(w.boot) && Sized(w.store) && Headroom(w.store)
  }

  ghost predicate Carried(sha: Digest, s: State) {
    |s.disk.terminals| == TERMINAL_COUNT && Kept(s.world) && Holds(sha, s.disk, s.world.store)
  }

  lemma PrefixKept(w: World, call: Call, k: nat)
    requires Kept(w) && k <= |CommitsOf(w, call)|
    ensures var v := CommittedAll(w, CommitsOf(w, call)[..k]); Sized(v.store) && Headroom(v.store)
  {
    EventHeadroom(w, CallEvent(call, k));
  }

  lemma CallHasRoom(w: World, call: Call, i: nat)
    requires Kept(w) && RestartRoom(w, call) && i < |CommitsOf(w, call)|
    ensures RoomAt(w, CommitsOf(w, call), i)
  {
    var cs := CommitsOf(w, call);
    CommitsEncodable(w, call, cs[i]);
    PrefixKept(w, call, i);
    PrefixKept(w, call, i + 1);
    CommittedSnoc(w, cs, i);
    if !cs[i].CommitRestart? { RoomBefore(CommittedAll(w, cs[..i]).store, cs[i]); }
  }

  lemma EventKept(w: World, e: Event)
    requires Kept(w) && Admissible(w, e)
    ensures Kept(Next(w, e))
  {
    EventKeeps(w, e);
    EventDecoded(w, e);
    EventHeadroom(w, e);
    if e.CallEvent? { PrefixBoot(w, CommitsOf(w, e.call)[..Min(e.survived, |CommitsOf(w, e.call)|)]); }
  }

  lemma WritesCarried(sha: Digest, w: World, d: Disk, cs: seq<Commit>, n: nat, survives: nat)
    requires |d.terminals| == TERMINAL_COUNT && Holds(sha, d, w.store) && n <= |cs|
    requires (forall i :: 0 <= i < |cs| ==> RoomAt(w, cs, i)) && TearIsClean(sha, d, cs, n, survives)
    ensures Holds(sha, WriteTorn(sha, d, cs, n, survives),
                  CommittedAll(w, cs[..Survived(sha, w, d, cs, n, survives)]).store)
  {
    if n < |cs| { TornRepresents(sha, w, d, cs, n, survives); } else { FirstRepresents(sha, w, d, cs, n); }
  }

  lemma CallCarried(sha: Digest, s: State, call: Call, n: nat, survives: nat)
    requires Carried(sha, s) && RestartRoom(s.world, call) && n <= |CommitsOf(s.world, call)|
    requires TearIsClean(sha, s.disk, CommitsOf(s.world, call), n, survives)
    ensures var cs := CommitsOf(s.world, call);
      Holds(sha, WriteTorn(sha, s.disk, cs, n, survives),
            CommittedAll(s.world, cs[..Survived(sha, s.world, s.disk, cs, n, survives)]).store)
  {
    var cs := CommitsOf(s.world, call);
    forall i | 0 <= i < |cs| ensures RoomAt(s.world, cs, i) { CallHasRoom(s.world, call, i); }
    WritesCarried(sha, s.world, s.disk, cs, n, survives);
  }

  lemma NextOfCall(w: World, call: Call, k: nat)
    requires k <= |CommitsOf(w, call)|
    ensures Next(w, CallEvent(call, k)) == CommittedAll(w, CommitsOf(w, call)[..k])
  {}

  /** Every event, whichever byte its last write stops at, leaves files that carry what it amounts to. */
  lemma EventCarried(sha: Digest, s: State, e: DiskEvent)
    requires Carried(sha, s) && Promised(sha, s, e)
    ensures Carried(sha, After(sha, s, e))
  {
    EventKept(s.world, Amount(sha, s, e));
    match e {
      case Uses(call, whole, survives) =>
        CallCarried(sha, s, call, Min(whole, |CommitsOf(s.world, call)|), survives);
        NextOfCall(s.world, call, Amount(sha, s, e).survived);
      case Reboots(_) =>
    }
  }

  // ---- the first files ----

  /** What a completed initialization leaves. */
  function InitialDisk(sha: Digest, boot: string): (d: Disk)
    requires IsBootId(boot)
    ensures |d.terminals| == TERMINAL_COUNT
  {
    InitialPayloads(boot);
    FirstDisk(InitialImage(sha, ""), InitialImage(sha, RestartText(ClearRestart(boot))),
              InitialImage(sha, CursorText(0)))
  }

  function FirstDisk(empty: seq<Byte>, restart: seq<Byte>, cursor: seq<Byte>): (d: Disk)
    ensures |d.terminals| == TERMINAL_COUNT
  {
    Disk(empty, restart, empty, cursor, seq(TERMINAL_COUNT, _ => empty))
  }

  lemma ClearEncodable(boot: string)
    requires IsBootId(boot)
    ensures RestartEncodable(ClearRestart(boot))
  {
    forall field | 0 <= field < 2 ensures RestartFieldSound(ClearRestart(boot), field) {}
  }

  lemma InitialCarries(sha: Digest, payload: string)
    requires PayloadFits(payload)
    ensures Carries(FrameReader(sha), InitialImage(sha, payload), 1, payload)
  {
    InitialSelects(sha, payload);
    ReaderSelects(sha, InitialImage(sha, payload));
  }

  lemma InitialPayloads(boot: string)
    requires IsBootId(boot)
    ensures RestartEncodable(ClearRestart(boot)) && PayloadFits(RestartText(ClearRestart(boot)))
    ensures PayloadFits("") && PayloadFits(CursorText(0)) && HandoffText(None) == "" && OperationPayload(None) == ""
  {
    PayloadsFit(CommitActive(None));
    ClearEncodable(boot);
    PayloadsFit(CommitRestart(ClearRestart(boot)));
    PayloadsFit(CommitCursor(0));
  }

  /** Files that all carry their first payload represent the first store. */
  lemma FirstFiles(read: Reader, boot: string, empty: seq<Byte>, restart: seq<Byte>, cursor: seq<Byte>)
    requires IsBootId(boot) && Carries(read, empty, 1, "") && Carries(read, cursor, 1, CursorText(0))
    requires Carries(read, restart, 1, RestartText(ClearRestart(boot)))
    ensures Represents(read, FirstDisk(empty, restart, cursor), InitialStore(boot))
  {
    InitialPayloads(boot);
    var d, st := FirstDisk(empty, restart, cursor), InitialStore(boot);
    forall s: nat | s < TERMINAL_COUNT ensures CarriesTerminal(read, d, st, s) {
      assert st.journal.terminals[s] == None && st.sequences.terminals[s] == 1 && d.terminals[s] == empty;
    }
  }

  lemma InitialRepresents(sha: Digest, boot: string)
    requires IsBootId(boot)
    ensures Holds(sha, InitialDisk(sha, boot), InitialStore(boot))
  {
    InitialPayloads(boot);
    InitialCarries(sha, "");
    InitialCarries(sha, RestartText(ClearRestart(boot)));
    InitialCarries(sha, CursorText(0));
    FirstFiles(FrameReader(sha), boot, InitialImage(sha, ""), InitialImage(sha, RestartText(ClearRestart(boot))),
               InitialImage(sha, CursorText(0)));
    HoldsMeans(sha, InitialDisk(sha, boot), InitialStore(boot));
  }

  lemma InitialKept(boot: string)
    requires IsBootId(boot)
    ensures Kept(InitialWorld(boot))
  {
    EveryRunConsistent(boot, []);
    RunDecoded(InitialWorld(boot), []);
  }

  /** The files in the order of the initialization. */
  function FileAt(d: Disk, i: nat): seq<Byte>
    requires |d.terminals| == TERMINAL_COUNT && i < 35
  {
    if i == 0 then d.active else if i == 1 then d.restart else if i == 2 then d.handoff else d.terminals[i - 3]
  }

  lemma FirstDiskAt(empty: seq<Byte>, restart: seq<Byte>, cursor: seq<Byte>, i: nat)
    requires i < 35
    ensures FileAt(FirstDisk(empty, restart, cursor), i) == if i == 1 then restart else empty
  {}

  /** These are the files that initialize_journal_layout completes. */
  lemma InitializedFiles(sha: Digest, boot: string, g: Initialization.Files, i: nat)
    requires IsBootId(boot) && Initialization.Finished(sha, boot, g) && i < 35
    ensures g.data[i] == Some(FileAt(InitialDisk(sha, boot), i)) && g.cursor == Some(InitialDisk(sha, boot).cursor)
  {
    InitialPayloads(boot);
    FirstDiskAt(InitialImage(sha, ""), InitialImage(sha, RestartText(ClearRestart(boot))),
                InitialImage(sha, CursorText(0)), i);
    assert g.data[i] == Some(Initialization.Expected(sha, boot, i));
  }

  // ---- runs ----

  ghost function DiskRun(sha: Digest, s: State, events: seq<DiskEvent>): (t: State)
    requires |s.disk.terminals| == TERMINAL_COUNT
    ensures |t.disk.terminals| == TERMINAL_COUNT
    decreases |events|
  {
    if events == [] then s else DiskRun(sha, After(sha, s, events[0]), events[1..])
  }

  ghost predicate AllPromised(sha: Digest, s: State, events: seq<DiskEvent>)
    requires |s.disk.terminals| == TERMINAL_COUNT
    decreases |events|
  {
    events == [] || (Promised(sha, s, events[0]) && AllPromised(sha, After(sha, s, events[0]), events[1..]))
  }

  /** The run of calls and crashes between commits that a run on storage amounts to. */
  ghost function Amounts(sha: Digest, s: State, events: seq<DiskEvent>): seq<Event>
    requires |s.disk.terminals| == TERMINAL_COUNT
    decreases |events|
  {
    if events == [] then [] else [Amount(sha, s, events[0])] + Amounts(sha, After(sha, s, events[0]), events[1..])
  }

  lemma {:induction false} RunCarried(sha: Digest, s: State, events: seq<DiskEvent>)
    requires Carried(sha, s) && AllPromised(sha, s, events)
    ensures Carried(sha, DiskRun(sha, s, events))
    decreases |events|
  {
    if events != [] {
      EventCarried(sha, s, events[0]);
      RunCarried(sha, After(sha, s, events[0]), events[1..]);
    }
  }

  lemma {:induction false} RunAmounts(sha: Digest, s: State, events: seq<DiskEvent>)
    requires |s.disk.terminals| == TERMINAL_COUNT && AllPromised(sha, s, events)
    ensures AdmissibleRun(s.world, Amounts(sha, s, events))
    ensures DiskRun(sha, s, events).world == Run(s.world, Amounts(sha, s, events))
    decreases |events|
  {
    if events != [] {
      var rest := Amounts(sha, After(sha, s, events[0]), events[1..]);
      RunAmounts(sha, After(sha, s, events[0]), events[1..]);
      assert ([Amount(sha, s, events[0])] + rest)[1..] == rest;
    }
  }

  function Initialized(sha: Digest, boot: string): (s: State)
    requires IsBootId(boot)
    ensures |s.disk.terminals| == TERMINAL_COUNT
  {
    State(InitialWorld(boot), InitialDisk(sha, boot))
  }

  /** From initialized files, over any calls each killed inside any write at any byte and going on from
      what the files then hold, and any reboots: the files load, as the journal of a run in which
      each torn commit either happened or did not. */
  lemma EveryDiskRunLoads(sha: Digest, boot: string, events: seq<DiskEvent>)
    requires IsBootId(boot) && AllPromised(sha, Initialized(sha, boot), events)
    ensures var s, calls := DiskRun(sha, Initialized(sha, boot), events), Amounts(sha, Initialized(sha, boot), events);
      && Load(FrameReader(sha), s.disk) == Some(s.world.store.journal)
      && AdmissibleRun(InitialWorld(boot), calls) && s.world == Run(InitialWorld(boot), calls)
  {
    var s := Initialized(sha, boot);
    InitialRepresents(sha, boot);
    InitialKept(boot);
    RunCarried(sha, s, events);
    RunAmounts(sha, s, events);
    EveryRunLoads(boot, Amounts(sha, s, events));
    HoldsMeans(sha, DiskRun(sha, s, events).disk, DiskRun(sha, s, events).world.store);
    RepresentedLoads(FrameReader(sha), DiskRun(sha, s, events).disk, DiskRun(sha, s, events).world.store);
  }

  lemma HeldLoads(sha: Digest, d: Disk, w: World)
    requires Kept(w) && Holds(sha, d, w.store)
    ensures Load(FrameReader(sha), d) == Some(w.store.journal)
  {
    ConsistentAccepted(w);
    HoldsMeans(sha, d, w.store);
    RepresentedLoads(FrameReader(sha), d, w.store);
  }

  lemma TearLoads(sha: Digest, s: State, call: Call, n: nat, survives: nat)
    requires Carried(sha, s) && Promised(sha, s, Uses(call, n, survives)) && n < |CommitsOf(s.world, call)|
    ensures var cs := CommitsOf(s.world, call);
      var loaded := Load(FrameReader(sha), WriteTorn(sha, s.disk, cs, n, survives));
      || loaded == Some(CommittedAll(s.world, cs[..n + 1]).store.journal)
      || (loaded == Some(CommittedAll(s.world, cs[..n]).store.journal) && survives < FRAME_SIZE)
  {
    var cs, after := CommitsOf(s.world, call), WriteTorn(sha, s.disk, CommitsOf(s.world, call), n, survives);
    forall i | 0 <= i < |cs| ensures RoomAt(s.world, cs, i) { CallHasRoom(s.world, call, i); }
    TornRepresents(sha, s.world, s.disk, cs, n, survives);
    var k := if Holds(sha, after, CommittedAll(s.world, cs[..n + 1]).store) then n + 1 else n;
    NextOfCall(s.world, call, k);
    EventKept(s.world, CallEvent(call, k));
    HeldLoads(sha, after, CommittedAll(s.world, cs[..k]));
  }

  /** After any such run, wherever the write of a further commit stops, the files load, as the journal
      before or after that commit, and after it when the whole frame was written. */
  lemma EveryTornWriteLoads(sha: Digest, boot: string, events: seq<DiskEvent>, call: Call, n: nat, survives: nat)
    requires IsBootId(boot) && AllPromised(sha, Initialized(sha, boot), events)
    requires var s := DiskRun(sha, Initialized(sha, boot), events);
      Promised(sha, s, Uses(call, n, survives)) && n < |CommitsOf(s.world, call)|
    ensures var s := DiskRun(sha, Initialized(sha, boot), events);
      var cs := CommitsOf(s.world, call);
      var loaded := Load(FrameReader(sha), WriteTorn(sha, s.disk, cs, n, survives));
      || loaded == Some(CommittedAll(s.world, cs[..n + 1]).store.journal)
      || (loaded == Some(CommittedAll(s.world, cs[..n]).store.journal) && survives < FRAME_SIZE)
  {
    InitialRepresents(sha, boot);
    InitialKept(boot);
    RunCarried(sha, Initialized(sha, boot), events);
    TearLoads(sha, DiskRun(sha, Initialized(sha, boot), events), call, n, survives);
  }
}
