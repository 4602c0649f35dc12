/** The whole journal on storage: 36 dual-frame files. A crash inside the write of any commit of
    any run leaves files that load as the journal before or after that commit. */
module Storage {
  import opened Results
  import opened Text
  import opened Utf8
  import opened Frames
  import opened DualFile
  import opened Records
  import opened Validator
  import opened Codecs
  import opened Operations
  import opened Runs
  import opened Safety
  import opened Budget

  datatype Disk = Disk(active: seq<Byte>, restart: seq<Byte>, handoff: seq<Byte>, cursor: seq<Byte>,
                       terminals: seq<seq<Byte>>)

  // ---- payloads ----

  /** An empty payload, or one operation record. */
  function OperationPayload(op: Option<Operation>): string
    requires op.Some? ==> op.value.slot < TERMINAL_COUNT
  { if op.Some? then OperationText(op.value) else "" }

  function DecodePayload(payload: string): Option<Option<Operation>> {
    if payload == "" then Some(None)
    else match DecodeOperation(payload) case None => None case Some(op) => Some(Some(op))
  }

  lemma OperationPayloadRoundTrip(op: Option<Operation>)
    requires op.Some? ==> OperationEncodable(op.value)
    ensures DecodePayload(OperationPayload(op)) == Some(op) && PayloadFits(OperationPayload(op))
  {
    if op.Some? { OperationRoundTrip(op.value); }
  }

  /** The payload a commit writes, and the file it writes it to. */
  function CommitPayload(c: Commit): string
    requires CommitEncodable(c)
  {
    match c
    case CommitActive(a) => OperationPayload(a)
    case CommitRestart(r) => RestartText(r)
    case CommitTerminal(_, op) => OperationPayload(Some(op))
    case CommitCursor(n) => CursorText(n)
    case CommitHandoff(h) => HandoffText(h)
  }

  function FileOf(d: Disk, c: Commit): seq<Byte>
    requires |d.terminals| == TERMINAL_COUNT && (c.CommitTerminal? ==> c.slot < TERMINAL_COUNT)
  {
    match c
    case CommitActive(_) => d.active
    case CommitRestart(_) => d.restart
    case CommitTerminal(slot, _) => d.terminals[slot]
    case CommitCursor(_) => d.cursor
    case CommitHandoff(_) => d.handoff
  }

  function WithFile(d: Disk, c: Commit, image: seq<Byte>): Disk
    requires |d.terminals| == TERMINAL_COUNT && (c.CommitTerminal? ==> c.slot < TERMINAL_COUNT)
  {
    match c
    case CommitActive(_) => d.(active := image)
    case CommitRestart(_) => d.(restart := image)
    case CommitTerminal(slot, _) => d.(terminals := d.terminals[slot := image])
    case CommitCursor(_) => d.(cursor := image)
    case CommitHandoff(_) => d.(handoff := image)
  }


  // ---- loading ----

  /** How a file is read: its authoritative frame, or None. */
  type Reader = seq<Byte> -> Option<Frame>

  function FrameReader(sha: Digest): Reader {
    image => SelectedFrame(Select(sha, image))
  }

  function SelectedFrame(s: Result<Selection, FrameError>): Option<Frame> {
    if s.Ok? then Some(s.value.frame) else None
  }

  function FrameIn(read: Reader, image: seq<Byte>): Option<Frame> { read(image) }

  function Payload(read: Reader, image: seq<Byte>): Option<string> {
    match FrameIn(read, image) case None => None case Some(f) => Some(f.payload)
  }

  function LoadOperation(read: Reader, image: seq<Byte>): Option<Option<Operation>> {
    match Payload(read, image) case None => None case Some(p) => DecodePayload(p)
  }

  function LoadRestart(read: Reader, image: seq<Byte>): Option<Restart> {
    match Payload(read, image) case None => None case Some(p) => DecodeRestart(p)
  }

  function LoadHandoff(read: Reader, image: seq<Byte>): Option<Option<Handoff>> {
    match Payload(read, image) case None => None case Some(p) => DecodeHandoff(p)
  }

  function LoadCursor(read: Reader, image: seq<Byte>): Option<nat> {
    match Payload(read, image) case None => None case Some(p) => DecodeCursor(p)
  }

  function LoadTerminals(read: Reader, images: seq<seq<Byte>>): Option<seq<Option<Operation>>> {
    if images == [] then Some([])
    else
      var first, rest := LoadOperation(read, images[0]), LoadTerminals(read, images[1..]);
      if first.None? || rest.None? then None else Some([first.value] + rest.value)
  }

  /** load_journal_state: select every frame, decode every record, validate the whole. */
  function Load(read: Reader, d: Disk): Option<Journal> {
    var a, r, h := LoadOperation(read, d.active), LoadRestart(read, d.restart), LoadHandoff(read, d.handoff);
    var c, t := LoadCursor(read, d.cursor), LoadTerminals(read, d.terminals);
    if a.None? || r.None? || h.None? || c.None? || t.None? then None
    else
      var j := Journal(c.value, r.value, a.value, h.value, t.value);
      if Accepted(j) then Some(j) else None
  }

  // ---- representation ----

  /** The file's authoritative frame. */
  predicate Carries(read: Reader, image: seq<Byte>, sequence: nat, payload: string) {
    FrameIn(read, image) == Some(Frame(sequence, payload))
  }

  predicate CarriesOperation(read: Reader, image: seq<Byte>, sequence: nat, op: Option<Operation>) {
    (op.Some? ==> OperationEncodable(op.value)) && Carries(read, image, sequence, OperationPayload(op))
  }

  predicate CarriesTerminal(read: Reader, d: Disk, st: Store, s: nat) {
    && s < |d.terminals| && s < |st.journal.terminals| && s < |st.sequences.terminals|
    && CarriesOperation(read, d.terminals[s], st.sequences.terminals[s], st.journal.terminals[s])
  }

  predicate CarriesRestart(read: Reader, image: seq<Byte>, sequence: nat, r: Restart) {
    RestartEncodable(r) && Carries(read, image, sequence, RestartText(r))
  }

  predicate CarriesHandoff(read: Reader, image: seq<Byte>, sequence: nat, h: Option<Handoff>) {
    (h.Some? ==> HandoffEncodable(h.value)) && Carries(read, image, sequence, HandoffText(h))
  }

  predicate CarriesCursor(read: Reader, image: seq<Byte>, sequence: nat, n: nat) {
    n < TERMINAL_COUNT && Carries(read, image, sequence, CursorText(n))
  }

  /** The control files carry this store's control records. */
  predicate RepresentsControl(read: Reader, d: Disk, st: Store) {
    && CarriesOperation(read, d.active, st.sequences.active, st.journal.active)
    && CarriesRestart(read, d.restart, st.sequences.restart, st.journal.restart)
    && CarriesHandoff(read, d.handoff, st.sequences.handoff, st.journal.handoff)
    && CarriesCursor(read, d.cursor, st.sequences.cursor, st.journal.cursor)
  }

  /** The disk carries exactly this store. */
  predicate Represents(read: Reader, d: Disk, st: Store) {
    && |d.terminals| == TERMINAL_COUNT && |st.journal.terminals| == TERMINAL_COUNT
       && |st.sequences.terminals| == TERMINAL_COUNT
    && RepresentsControl(read, d, st)
    && forall s :: 0 <= s < TERMINAL_COUNT ==> CarriesTerminal(read, d, st, s)
  }

  lemma OperationLoads(read: Reader, image: seq<Byte>, sequence: nat, op: Option<Operation>)
    requires CarriesOperation(read, image, sequence, op)
    ensures LoadOperation(read, image) == Some(op)
  {
    OperationPayloadRoundTrip(op);
  }

  lemma {:induction false} TerminalsLoad(read: Reader, images: seq<seq<Byte>>, sequences: seq<nat>,
                                         ops: seq<Option<Operation>>)
    requires |images| == |sequences| == |ops|
    requires forall s :: 0 <= s < |ops| ==> CarriesOperation(read, images[s], sequences[s], ops[s])
    ensures LoadTerminals(read, images) == Some(ops)
    decreases |images|
  {
    if images != [] {
      OperationLoads(read, images[0], sequences[0], ops[0]);
      TerminalsLoad(read, images[1..], sequences[1..], ops[1..]);
      assert ops == [ops[0]] + ops[1..];
    }
  }

  lemma ControlLoads(read: Reader, d: Disk, st: Store)
    requires RepresentsControl(read, d, st)
    ensures LoadOperation(read, d.active) == Some(st.journal.active)
    ensures LoadRestart(read, d.restart) == Some(st.journal.restart)
    ensures LoadHandoff(read, d.handoff) == Some(st.journal.handoff)
    ensures LoadCursor(read, d.cursor) == Some(st.journal.cursor)
  {
    OperationLoads(read, d.active, st.sequences.active, st.journal.active);
    RestartRoundTrip(st.journal.restart);
    HandoffRoundTrip(st.journal.handoff);
    CursorRoundTrip(st.journal.cursor);
  }

  /** A disk that carries an accepted journal loads as it. */
  lemma RepresentedLoads(read: Reader, d: Disk, st: Store)
    requires Represents(read, d, st) && Accepted(st.journal)
    ensures Load(read, d) == Some(st.journal)
  {
    ControlLoads(read, d, st);
    forall s | 0 <= s < TERMINAL_COUNT
      ensures CarriesOperation(read, d.terminals[s], st.sequences.terminals[s], st.journal.terminals[s])
    {
      assert CarriesTerminal(read, d, st, s);
    }
    TerminalsLoad(read, d.terminals, st.sequences.terminals, st.journal.terminals);
  }

  // ---- commits ----

  lemma PayloadsFit(c: Commit)
    requires CommitEncodable(c)
    ensures PayloadFits(CommitPayload(c))
  {
    match c {
      case CommitActive(a) => OperationPayloadRoundTrip(a);
      case CommitRestart(r) => RestartRoundTrip(r);
      case CommitTerminal(_, op) => OperationPayloadRoundTrip(Some(op));
      case CommitCursor(n) => CursorRoundTrip(n);
      case CommitHandoff(h) => HandoffRoundTrip(h);
    }
  }

  function SequenceOf(st: Store, c: Commit): nat
    requires |st.sequences.terminals| == TERMINAL_COUNT && (c.CommitTerminal? ==> c.slot < TERMINAL_COUNT)
  {
    match c
    case CommitActive(_) => st.sequences.active
    case CommitRestart(_) => st.sequences.restart
    case CommitTerminal(slot, _) => st.sequences.terminals[slot]
    case CommitCursor(_) => st.sequences.cursor
    case CommitHandoff(_) => st.sequences.handoff
  }

  /** The named hash accidents do not happen in this write. */
  ghost predicate WriteIsClean(sha: Digest, image: seq<Byte>, payload: string, survives: nat) {
    forall cut: nat :: cut == survives && cut < FRAME_SIZE && Select(sha, image).Ok?
        && FrameFits(NextFrame(sha, image, payload))
      ==> NoAccident(sha, image, payload, cut)
  }

  /** One file, one commit: the old frame or the new one, and the new one when nothing is lost. */
  lemma FileCommit(sha: Digest, image: seq<Byte>, payload: string, survives: nat)
    requires Select(sha, image).Ok? && PayloadFits(payload) && WriteIsClean(sha, image, payload, survives)
    requires Select(sha, image).value.frame.sequence + 1 < SEQUENCE_MAX
    ensures var was, now := Select(sha, image), Select(sha, CommittedImage(sha, image, payload, survives));
      && (now == was || (now.Ok? && now.value.frame == NextFrame(sha, image, payload)))
      && (survives >= FRAME_SIZE ==> now.Ok? && now.value.frame == NextFrame(sha, image, payload))
  {
    NextFrameFits(sha, image, payload);
    CommitIsAtomic(sha, image, payload, survives);
  }

  lemma ActiveCommitted(read: Reader, d: Disk, st: Store, op: Option<Operation>, image: seq<Byte>)
    requires RepresentsControl(read, d, st) && CarriesOperation(read, image, st.sequences.active + 1, op)
    ensures RepresentsControl(read, d.(active := image), Apply(st, CommitActive(op)))
  {}

  lemma RestartCommitted(read: Reader, d: Disk, st: Store, r: Restart, image: seq<Byte>)
    requires RepresentsControl(read, d, st) && CarriesRestart(read, image, st.sequences.restart + 1, r)
    ensures RepresentsControl(read, d.(restart := image), Apply(st, CommitRestart(r)))
  {}

  lemma HandoffCommitted(read: Reader, d: Disk, st: Store, h: Option<Handoff>, image: seq<Byte>)
    requires RepresentsControl(read, d, st) && CarriesHandoff(read, image, st.sequences.handoff + 1, h)
    ensures RepresentsControl(read, d.(handoff := image), Apply(st, CommitHandoff(h)))
  {}

  lemma CursorCommitted(read: Reader, d: Disk, st: Store, n: nat, image: seq<Byte>)
    requires RepresentsControl(read, d, st) && CarriesCursor(read, image, st.sequences.cursor + 1, n)
    ensures RepresentsControl(read, d.(cursor := image), Apply(st, CommitCursor(n)))
  {}

  lemma SlotCommitted(read: Reader, d: Disk, st: Store, slot: nat, op: Operation, image: seq<Byte>, s: nat)
    requires |d.terminals| == |st.journal.terminals| == |st.sequences.terminals| == TERMINAL_COUNT
    requires slot < TERMINAL_COUNT && s < TERMINAL_COUNT && CarriesTerminal(read, d, st, s)
    requires CarriesOperation(read, image, st.sequences.terminals[slot] + 1, Some(op))
    ensures CarriesTerminal(read, d.(terminals := d.terminals[slot := image]), Apply(st, CommitTerminal(slot, op)), s)
  {}

  lemma TerminalCommitted(read: Reader, d: Disk, st: Store, slot: nat, op: Operation, image: seq<Byte>)
    requires Represents(read, d, st) && slot < TERMINAL_COUNT
    requires CarriesOperation(read, image, st.sequences.terminals[slot] + 1, Some(op))
    ensures Represents(read, d.(terminals := d.terminals[slot := image]), Apply(st, CommitTerminal(slot, op)))
  {
    var d', st' := d.(terminals := d.terminals[slot := image]), Apply(st, CommitTerminal(slot, op));
    forall s: nat | s < TERMINAL_COUNT
      ensures CarriesTerminal(read, d', st', s)
    {
      SlotCommitted(read, d, st, slot, op, image, s);
    }
  }

  /** Control commits leave the terminal slots alone. */
  lemma SlotsUntouched(read: Reader, d: Disk, st: Store, c: Commit, image: seq<Byte>)
    requires Represents(read, d, st) && CommitEncodable(c) && !c.CommitTerminal?
    requires RepresentsControl(read, WithFile(d, c, image), Apply(st, c))
    ensures Represents(read, WithFile(d, c, image), Apply(st, c))
  {
    forall s: nat | s < TERMINAL_COUNT
      ensures CarriesTerminal(read, WithFile(d, c, image), Apply(st, c), s)
    {
      assert CarriesTerminal(read, d, st, s);
    }
  }

  /** Replacing one file by one that carries the commit's payload represents the store after it. */
  lemma CommittedRepresents(read: Reader, d: Disk, st: Store, c: Commit, image: seq<Byte>)
    requires Represents(read, d, st) && CommitEncodable(c)
    requires Carries(read, image, SequenceOf(st, c) + 1, CommitPayload(c))
    ensures Represents(read, WithFile(d, c, image), Apply(st, c))
  {
    match c {
      case CommitActive(a) => ActiveCommitted(read, d, st, a, image);
      case CommitRestart(r) => RestartCommitted(read, d, st, r, image);
      case CommitTerminal(slot, op) => TerminalCommitted(read, d, st, slot, op, image);
      case CommitCursor(n) => CursorCommitted(read, d, st, n, image);
      case CommitHandoff(h) => HandoffCommitted(read, d, st, h, image);
    }
    if !c.CommitTerminal? { SlotsUntouched(read, d, st, c, image); }
  }

  lemma UnchangedRepresents(read: Reader, d: Disk, st: Store, c: Commit, image: seq<Byte>, payload: string)
    requires Represents(read, d, st) && CommitEncodable(c)
    requires Carries(read, FileOf(d, c), SequenceOf(st, c), payload) && Carries(read, image, SequenceOf(st, c), payload)
    ensures Represents(read, WithFile(d, c, image), st)
  {
    forall s: nat | s < TERMINAL_COUNT
      ensures CarriesTerminal(read, WithFile(d, c, image), st, s)
    {
      assert CarriesTerminal(read, d, st, s);
    }
  }

  lemma FileCarries(read: Reader, d: Disk, st: Store, c: Commit) returns (payload: string)
    requires Represents(read, d, st) && CommitEncodable(c)
    ensures Carries(read, FileOf(d, c), SequenceOf(st, c), payload)
  {
    if c.CommitTerminal? { assert CarriesTerminal(read, d, st, c.slot); }
    payload := FrameIn(read, FileOf(d, c)).value.payload;
  }

  /** A file that carries the old payload or the commit's makes the disk carry the store before or after it. */
  lemma ReplacedOnDisk(read: Reader, d: Disk, st: Store, c: Commit, image: seq<Byte>, before: string)
    requires Represents(read, d, st) && CommitEncodable(c) && Carries(read, FileOf(d, c), SequenceOf(st, c), before)
    requires Carries(read, image, SequenceOf(st, c), before)
             || Carries(read, image, SequenceOf(st, c) + 1, CommitPayload(c))
    ensures Represents(read, WithFile(d, c, image), st) || Represents(read, WithFile(d, c, image), Apply(st, c))
    ensures Carries(read, image, SequenceOf(st, c) + 1, CommitPayload(c)) ==>
            Represents(read, WithFile(d, c, image), Apply(st, c))
  {
    if Carries(read, image, SequenceOf(st, c) + 1, CommitPayload(c)) {
      CommittedRepresents(read, d, st, c, image);
    } else {
      UnchangedRepresents(read, d, st, c, image, before);
    }
  }

  /** The write of a commit, seen through a reader: the file keeps its frame or takes the commit's. */
  predicate AtomicWrite(read: Reader, before: seq<Byte>, after: seq<Byte>, payload: string, complete: bool) {
    FrameIn(read, before).Some? ==>
      var next := Some(Frame(FrameIn(read, before).value.sequence + 1, payload));
      (FrameIn(read, after) == FrameIn(read, before) || FrameIn(read, after) == next)
          && (complete ==> FrameIn(read, after) == next)
  }

  /** A commit interrupted anywhere leaves a disk that carries the store before or after it. */
  lemma CommitOnDisk(read: Reader, d: Disk, st: Store, c: Commit, image: seq<Byte>, complete: bool)
    requires Represents(read, d, st) && CommitEncodable(c)
    requires AtomicWrite(read, FileOf(d, c), image, CommitPayload(c), complete)
    ensures Represents(read, WithFile(d, c, image), st) || Represents(read, WithFile(d, c, image), Apply(st, c))
    ensures complete ==> Represents(read, WithFile(d, c, image), Apply(st, c))
  {
    var before := FileCarries(read, d, st, c);
    ReplacedOnDisk(read, d, st, c, image, before);
  }

  // ---- runs on disk ----

  /** The world after a run and the first k commits of a further call. */
  function Interrupted(boot: string, events: seq<Event>, call: Call, k: nat): World
    requires k <= |CommitsOf(Run(InitialWorld(boot), events), call)|
  {
    CommittedAll(Run(InitialWorld(boot), events), CommitsOf(Run(InitialWorld(boot), events), call)[..k])
  }

  lemma InterruptedCommit(boot: string, events: seq<Event>, call: Call, k: nat)
    requires IsBootId(boot) && AdmissibleRun(InitialWorld(boot), events)
    requires k < |CommitsOf(Run(InitialWorld(boot), events), call)|
    ensures var c := CommitsOf(Run(InitialWorld(boot), events), call)[k];
      CommitEncodable(c)
      && Interrupted(boot, events, call, k + 1).store == Apply(Interrupted(boot, events, call, k).store, c)
  {
    var w := Run(InitialWorld(boot), events);
    RunDecoded(InitialWorld(boot), events);
    RunBoot(InitialWorld(boot), events);
    CommitsEncodable(w, call, CommitsOf(w, call)[k]);
    CommittedSnoc(w, CommitsOf(w, call), k);
  }

  lemma RoomBefore(st: Store, c: Commit)
    requires Sized(st) && CommitEncodable(c) && !c.CommitRestart? && Headroom(Apply(st, c))
    ensures SequenceOf(st, c) + 1 < SEQUENCE_MAX
  {
    if c.CommitTerminal? { assert Apply(st, c).sequences.terminals[c.slot] == st.sequences.terminals[c.slot] + 1; }
  }

  lemma InterruptedHeadroom(boot: string, events: seq<Event>, call: Call, k: nat)
    requires k <= |CommitsOf(Run(InitialWorld(boot), events), call)|
    ensures Headroom(Interrupted(boot, events, call, k).store) && Sized(Interrupted(boot, events, call, k).store)
  {
    EveryRunKeepsHeadroom(InitialWorld(boot), events);
    EventHeadroom(Run(InitialWorld(boot), events), CallEvent(call, k));
  }

  /** Admission headroom leaves room for the commit. */
  lemma SequenceHasRoom(boot: string, events: seq<Event>, call: Call, k: nat)
    requires IsBootId(boot) && AdmissibleRun(InitialWorld(boot), events)
    requires k < |CommitsOf(Run(InitialWorld(boot), events), call)|
    ensures var c := CommitsOf(Run(InitialWorld(boot), events), call)[k];
      CommitEncodable(c) && Sized(Interrupted(boot, events, call, k).store)
      && (!c.CommitRestart? ==> SequenceOf(Interrupted(boot, events, call, k).store, c) + 1 < SEQUENCE_MAX)
  {
    var c := CommitsOf(Run(InitialWorld(boot), events), call)[k];
    InterruptedHeadroom(boot, events, call, k);
    InterruptedHeadroom(boot, events, call, k + 1);
    InterruptedCommit(boot, events, call, k);
    if !c.CommitRestart? { RoomBefore(Interrupted(boot, events, call, k).store, c); }
  }

  lemma SelectionsRead(read: Reader, image: seq<Byte>, after: seq<Byte>, was: Result<Selection, FrameError>,
                       now: Result<Selection, FrameError>, payload: string, complete: bool)
    requires FrameIn(read, image) == SelectedFrame(was) && FrameIn(read, after) == SelectedFrame(now)
    requires was.Ok? ==>
      var next := Frame(was.value.frame.sequence + 1, payload);
      && (now == was || (now.Ok? && now.value.frame == next))
      && (complete ==> now.Ok? && now.value.frame == next)
    ensures AtomicWrite(read, image, after, payload, complete)
  {}

  lemma ReaderSelects(sha: Digest, image: seq<Byte>)
    ensures FrameIn(FrameReader(sha), image) == SelectedFrame(Select(sha, image))
  {}

  /** The dual-frame commit is such an atomic write, whichever byte it stops at: with room for one
      more sequence (SequenceHasRoom) and barring the named hash accidents. */
  lemma DualFrameWriteIsAtomic(sha: Digest, image: seq<Byte>, payload: string, survives: nat)
    requires PayloadFits(payload) && WriteIsClean(sha, image, payload, survives)
    requires Select(sha, image).Ok? ==> Select(sha, image).value.frame.sequence + 1 < SEQUENCE_MAX
    ensures AtomicWrite(FrameReader(sha), image, CommittedImage(sha, image, payload, survives), payload,
                        survives >= FRAME_SIZE)
  {
    var after := CommittedImage(sha, image, payload, survives);
    if Select(sha, image).Ok? { FileCommit(sha, image, payload, survives); }
    ReaderSelects(sha, image);
    ReaderSelects(sha, after);
    SelectionsRead(FrameReader(sha), image, after, Select(sha, image), Select(sha, after), payload,
                   survives >= FRAME_SIZE);
  }
}
