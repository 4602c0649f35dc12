/** What one locked call does to the journal: the commits it makes, in order.
    Every call starts by loading, that is by validating, the journal. */
module Operations {
  import opened Results
  import opened Lifecycle
  import opened Text
  import opened Records
  import opened Validator

  /** Current frame sequence of each journal file. */
  datatype Sequences = Sequences(active: nat, restart: nat, handoff: nat, cursor: nat, terminals: seq<nat>)

  datatype Store = Store(journal: Journal, sequences: Sequences)

  /** One durable frame commit. */
  datatype Commit =
    | CommitActive(active: Option<Operation>)
    | CommitRestart(restart: Restart)
    | CommitTerminal(slot: nat, operation: Operation)
    | CommitCursor(cursor: nat)
    | CommitHandoff(handoff: Option<Handoff>)

  datatype Refusal =
    | Malformed          // JournalRecordError: a record or the whole state fails validation
    | Blocked | NoHeadroom | NoSlot | NoIdentity | BootBoundary
    | StaleObservation | IdentityChanged | BadTransition | BadBoundary | Weakened | NothingDurable
    | NotTerminal | NeedsRecovery | Unavailable

  function Apply(st: Store, c: Commit): Store {
    var j, q := st.journal, st.sequences;
    match c
    case CommitActive(a) => Store(j.(active := a), q.(active := q.active + 1))
    case CommitRestart(r) => Store(j.(restart := r), q.(restart := q.restart + 1))
    case CommitTerminal(slot, op) =>
      if slot < |j.terminals| && slot < |q.terminals| then
        Store(j.(terminals := j.terminals[slot := Some(op)]),
              q.(terminals := q.terminals[slot := q.terminals[slot] + 1]))
      else st
    case CommitCursor(n) => Store(j.(cursor := n), q.(cursor := q.cursor + 1))
    case CommitHandoff(h) => Store(j.(handoff := h), q.(handoff := q.handoff + 1))
  }

  function ApplyAll(st: Store, cs: seq<Commit>): Store
    decreases cs
  {
    if cs == [] then st else ApplyAll(Apply(st, cs[0]), cs[1..])
  }

  /** initialize_journal_layout's payloads, at sequence one. */
  function InitialStore(bootId: string): Store {
    Store(Journal(0, ClearRestart(bootId), None, None, seq(TERMINAL_COUNT, _ => None)),
          Sequences(1, 1, 1, 1, seq(TERMINAL_COUNT, _ => 1)))
  }

  // ---- begin ----

  datatype Request = Request(action: Action, startedAt: string, detail: string,
                             transactionPath: Option<string>, generation: Option<string>, bootId: Option<string>)

  /** JOURNAL_CONTROL_ADMISSION_COMMITS. */
  predicate ControlHeadroom(q: Sequences) {
    && q.active < SEQUENCE_MAX - 12
    && q.restart < SEQUENCE_MAX - 3
    && q.handoff < SEQUENCE_MAX - 2
    && q.cursor < SEQUENCE_MAX - 1
  }

  predicate SlotHeadroom(q: Sequences, slot: nat) { slot < |q.terminals| && q.terminals[slot] < SEQUENCE_MAX - 1 }

  /** The first slot from the cursor on that can still be rewritten. */
  function ReusableSlot(st: Store, offset: nat): (slot: Option<nat>)
    requires offset <= TERMINAL_COUNT
    ensures slot.Some? ==> slot.value < TERMINAL_COUNT && SlotHeadroom(st.sequences, slot.value)
    decreases TERMINAL_COUNT - offset
  {
    if offset == TERMINAL_COUNT then None
    else
      var slot := (st.journal.cursor + offset) % TERMINAL_COUNT;
      if SlotHeadroom(st.sequences, slot) then Some(slot) else ReusableSlot(st, offset + 1)
  }

  /** Identities a new operation must avoid. */
  function RetainedIds(j: Journal): set<string> {
    (set op | op in Retained(j) :: op.id)
    + (if j.active.Some? then {j.active.value.id} else {})
    + (if j.restart.lastApplied.Some? then {j.restart.lastApplied.value} else {})
  }

  /** generate_journal_operation_id over the random draws (at most four). */
  function FreshId(draws: seq<string>, taken: set<string>): Option<string> {
    if draws == [] then None
    else if draws[0] !in taken then Some(draws[0])
    else FreshId(draws[1..], taken)
  }

  function PendingOperation(r: Request, id: string, slot: nat): Operation {
    var kind := KindOf(r.action);
    Operation(id, r.action, r.startedAt, None, kind, Pending, None, r.detail, r.generation, r.transactionPath,
              if kind == Update then Some(NoSystem) else None,
              if kind == Update then Some(NoSession) else None,
              if kind == Update then Some(false) else None,
              if kind == Refresh then None else r.bootId,
              None, slot)
  }

  function Begin(st: Store, r: Request, draws: seq<string>): Result<Operation, Refusal> {
    var j := st.journal;
    if !Accepted(j) then Err(Malformed)
    else if j.active.Some? || j.handoff.Some? then Err(Blocked)
    else if !ControlHeadroom(st.sequences) then Err(NoHeadroom)
    else
      var slot := ReusableSlot(st, 0);
      if slot.None? then Err(NoSlot)
      else
        var id := FreshId(draws, RetainedIds(j));
        if id.None? then Err(NoIdentity)
        else
          var op := PendingOperation(r, id.value, slot.value);
          if !OperationEncodable(op) then Err(Malformed)
          else if !IsNative(op.kind) && r.bootId != Some(j.restart.bootId) then Err(BootBoundary)
          else Ok(op)
  }

  // ---- advance ----

  predicate SameIdentity(a: Operation, b: Operation) {
    && a.id == b.id && a.action == b.action && a.startedAt == b.startedAt && a.kind == b.kind
    && a.generation == b.generation && a.transactionPath == b.transactionPath
    && a.bootId == b.bootId && a.slot == b.slot
  }

  predicate SameContribution(a: Operation, b: Operation) {
    a.system == b.system && a.session == b.session && a.application == b.application
  }

  predicate Weakens(a: Operation, b: Operation) {
    || SystemStrength(SystemOf(b)) < SystemStrength(SystemOf(a))
    || SessionStrength(SessionOf(b)) < SessionStrength(SessionOf(a))
    || (ApplicationOf(a) && !ApplicationOf(b))
  }

  predicate LegalTransition(a: Operation, b: Operation) {
    !IsTerminal(a.state) && (b.state == a.state || b.state in Transitions(a.state))
  }

  predicate BoundaryOk(a: Operation, b: Operation, recoveryBoot: Option<string>) {
    recoveryBoot.Some? ==>
      Text.IsBootId(recoveryBoot.value) && a.kind == Update && IsTerminal(b.state)
  }

  /** A recovery may replace, not only strengthen, the restart contribution. */
  predicate RecoveryReplacement(a: Operation, b: Operation, recoveryBoot: Option<string>) {
    recoveryBoot.Some? &&
    if recoveryBoot == a.bootId then
      b.system == Some(UnknownSystem) && b.session == a.session && b.application == a.application
    else
      b.system == Some(NoSystem) && b.session == Some(NoSession) && b.application == Some(false)
  }

  /** The journal with its active record replaced, as advance prospectively validates it. */
  function WithActive(j: Journal, op: Operation): Journal { j.(active := Some(op)) }

  /** advance_journal_operation: None when nothing needs committing. */
  function Advance(j: Journal, expected: Operation, following: Operation, recoveryBoot: Option<string>)
    : Result<Option<Operation>, Refusal>
  {
    if !OperationEncodable(expected) || !OperationEncodable(following) || !Accepted(j) then Err(Malformed)
    else if j.active != Some(expected) then Err(StaleObservation)
    else if following == expected then Ok(None)
    else if !SameIdentity(expected, following) then Err(IdentityChanged)
    else if !LegalTransition(expected, following) then Err(BadTransition)
    else if !BoundaryOk(expected, following, recoveryBoot) then Err(BadBoundary)
    else if expected.kind == Update && !RecoveryReplacement(expected, following, recoveryBoot)
            && Weakens(expected, following) then Err(Weakened)
    else if following.state == expected.state && SameContribution(expected, following) then Err(NothingDurable)
    else if !Accepted(WithActive(j, following)) then Err(Malformed)
    else Ok(Some(following))
  }

  // ---- prune ----

  /** Restart work satisfied by a session that started after its cutoff. */
  function SatisfySession(r: Restart, sessionStarted: Option<nat>): Restart {
    match sessionStarted
    case None => r
    case Some(started) =>
      var s := if started > r.sessionCutoff then r.(session := NoSession, sessionCutoff := 0) else r;
      if started > r.applicationCutoff then s.(application := false, applicationCutoff := 0) else s
  }

  function Pruned(r: Restart, bootId: string, sessionStarted: Option<nat>): Restart {
    if r.bootId != bootId then ClearRestart(bootId) else SatisfySession(r, sessionStarted)
  }

  predicate EvidenceEncodable(bootId: Option<string>, sessionStarted: Option<nat>) {
    && bootId.Some? && IsBootId(bootId.value)
    && (sessionStarted.Some? ==> IsUint64(sessionStarted.value))
  }

  function PruneCommits(r: Restart, bootId: string, sessionStarted: Option<nat>): seq<Commit> {
    var pruned := Pruned(r, bootId, sessionStarted);
    if pruned == r then [] else [CommitRestart(pruned)]
  }

  function Prune(j: Journal, bootId: Option<string>, sessionStarted: Option<nat>): Result<seq<Commit>, Refusal> {
    if !EvidenceEncodable(bootId, sessionStarted) || !Accepted(j) then Err(Malformed)
    else Ok(PruneCommits(j.restart, bootId.value, sessionStarted))
  }

  // ---- complete ----

  /** The restart record after the operation's contribution joins it. */
  function Contributed(r: Restart, op: Operation, sessionStarted: Option<nat>): Restart {
    SatisfySession(
      r.(lastApplied := Some(op.id),
         system := StrongerSystem(r.system, SystemOf(op)),
         session := StrongerSession(r.session, SessionOf(op)),
         sessionCutoff := if SessionOf(op) != NoSession then Mono(op) else r.sessionCutoff,
         application := r.application || ApplicationOf(op),
         applicationCutoff := if ApplicationOf(op) then Mono(op) else r.applicationCutoff),
      sessionStarted)
  }

  function ContributionCommits(r: Restart, op: Operation, bootId: string, sessionStarted: Option<nat>): seq<Commit> {
    if op.bootId == Some(bootId) && r.lastApplied != Some(op.id)
    then [CommitRestart(Contributed(r, op, sessionStarted))] else []
  }

  function RestartCommits(r: Restart, op: Operation, bootId: string, sessionStarted: Option<nat>): seq<Commit> {
    PruneCommits(r, bootId, sessionStarted)
    + ContributionCommits(Pruned(r, bootId, sessionStarted), op, bootId, sessionStarted)
  }

  function HandoffCommits(handoff: Option<Handoff>, op: Operation): seq<Commit> {
    var h := Some(Handoff(op.id, op.slot));
    if handoff == h then [CommitActive(None)] else [CommitHandoff(h), CommitActive(None)]
  }

  function CursorCommits(cursor: nat, handoff: Option<Handoff>, op: Operation): seq<Commit> {
    var next := (op.slot + 1) % TERMINAL_COUNT;
    if cursor == next then HandoffCommits(handoff, op) else [CommitCursor(next)] + HandoffCommits(handoff, op)
  }

  function RingCommits(j: Journal, op: Operation): seq<Commit> {
    var rest := CursorCommits(j.cursor, j.handoff, op);
    if Holds(j, op.slot, op) then rest else [CommitTerminal(op.slot, op)] + rest
  }

  /** Only updates contribute to the restart record. */
  function RestartPart(r: Restart, op: Operation, bootId: Option<string>, sessionStarted: Option<nat>): seq<Commit> {
    if op.kind == Update && bootId.Some? then RestartCommits(r, op, bootId.value, sessionStarted) else []
  }

  /** The commits that finish the active terminal record, if there is one. */
  function CompleteCommits(j: Journal, bootId: Option<string>, sessionStarted: Option<nat>): seq<Commit> {
    if j.active.None? then []
    else RestartPart(j.restart, j.active.value, bootId, sessionStarted) + RingCommits(j, j.active.value)
  }

  /** complete_journal_terminal, as the commits an uninterrupted call makes. */
  function Complete(j: Journal, bootId: Option<string>, sessionStarted: Option<nat>): Result<seq<Commit>, Refusal> {
    if !Accepted(j) then Err(Malformed)
    else if j.active.None? then Ok([])
    else if !IsTerminal(j.active.value.state) then Err(NotTerminal)
    else if j.active.value.kind == Update && !EvidenceEncodable(bootId, sessionStarted) then Err(Malformed)
    else Ok(CompleteCommits(j, bootId, sessionStarted))
  }

  // ---- acknowledge ----

  /** The retained terminal with this identity; identities are unique in an accepted journal. */
  function FindRetained(j: Journal, id: string, from: nat): (found: Option<Operation>)
    ensures found.Some? ==> found.value in Retained(j) && found.value.id == id
    ensures found.None? ==> forall s :: from <= s < |j.terminals| && Filled(j, s) ==> j.terminals[s].value.id != id
    decreases |j.terminals| - from
  {
    if from >= |j.terminals| then None
    else if Filled(j, from) && j.terminals[from].value.id == id then j.terminals[from]
    else FindRetained(j, id, from + 1)
  }

  /** retained_journal_operation. */
  function RetainedOperation(j: Journal, id: string): Result<Operation, Refusal> {
    if !IsOperationId(id) || !Accepted(j) then Err(Malformed)
    else if j.active.Some? then Err(NeedsRecovery)
    else match FindRetained(j, id, 0)
      case None => Err(Unavailable)
      case Some(op) => Ok(op)
  }

  /** acknowledge_journal_handoff. */
  function Acknowledge(j: Journal, id: string): Result<seq<Commit>, Refusal> {
    match RetainedOperation(j, id)
    case Err(e) => Err(e)
    case Ok(op) =>
      if j.handoff != Some(Handoff(id, op.slot)) then Err(Unavailable) else Ok([CommitHandoff(None)])
  }
}
