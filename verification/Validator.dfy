/** decode_journal_state: the cross-record rules every load of the journal applies
    to its 36 decoded payloads. Each predicate is one rejection of the source,
    negated; all of them raise the same JournalRecordError. */
module Validator {
  import opened Results
  import opened Lifecycle
  import opened Records

  datatype Journal = Journal(
    cursor: nat,
    restart: Restart,
    active: Option<Operation>,
    handoff: Option<Handoff>,
    terminals: seq<Option<Operation>>)

  /** What the individual record decoders guarantee. */
  predicate Decoded(j: Journal) {
    && j.cursor < TERMINAL_COUNT
    && RestartEncodable(j.restart)
    && (j.active.Some? ==> OperationEncodable(j.active.value))
    && (j.handoff.Some? ==> HandoffEncodable(j.handoff.value))
    && |j.terminals| == TERMINAL_COUNT
    && forall s :: 0 <= s < |j.terminals| ==> SlotDecoded(j, s)
  }

  predicate SlotDecoded(j: Journal, slot: nat) {
    slot < |j.terminals| && j.terminals[slot].Some? ==> OperationEncodable(j.terminals[slot].value)
  }

  predicate Filled(j: Journal, slot: int) {
    0 <= slot < |j.terminals| && j.terminals[slot].Some?
  }

  predicate Holds(j: Journal, slot: int, op: Operation) {
    0 <= slot < |j.terminals| && j.terminals[slot] == Some(op)
  }

  function FilledSlots(j: Journal): set<int> {
    set slot | 0 <= slot < |j.terminals| && Filled(j, slot)
  }

  /** ring_may_have_evicted. */
  predicate RingFull(j: Journal) {
    forall slot :: 0 <= slot < |j.terminals| ==> Filled(j, slot)
  }

  function Retained(j: Journal): set<Operation> {
    set slot | 0 <= slot < |j.terminals| && Filled(j, slot) :: j.terminals[slot].value
  }

  /** applied_updates before the active record joins it. */
  function RetainedUpdates(j: Journal): set<Operation> {
    set op | op in Retained(j) && IsUpdateOf(op, j.restart.bootId)
  }

  predicate ActiveApplied(j: Journal) {
    j.active.Some? && j.restart.lastApplied == Some(j.active.value.id)
    && IsUpdateOf(j.active.value, j.restart.bootId)
  }

  /** applied_updates as the restart rules see it. */
  function Applied(j: Journal): set<Operation> {
    RetainedUpdates(j) + if ActiveApplied(j) then {j.active.value} else {}
  }

  /** matching_updates. */
  function Matching(j: Journal): set<Operation> {
    set op | op in Applied(j) && j.restart.lastApplied == Some(op.id)
  }

  function Mono(op: Operation): nat { if op.terminalMonotonic.Some? then op.terminalMonotonic.value else 0 }

  function SystemOf(op: Operation): SystemRestart { if op.system.Some? then op.system.value else NoSystem }

  function SessionOf(op: Operation): SessionRestart { if op.session.Some? then op.session.value else NoSession }

  predicate ApplicationOf(op: Operation) { op.application.Some? && op.application.value }

  predicate SlotsSound(j: Journal) {
    && (forall s :: 0 <= s < |j.terminals| && Filled(j, s) ==>
          IsTerminal(j.terminals[s].value.state) && j.terminals[s].value.slot == s)
    && (forall s, t :: 0 <= s < t < |j.terminals| && Filled(j, s) && Filled(j, t) ==>
          j.terminals[s].value.id != j.terminals[t].value.id)
  }

  predicate CursorFresh(j: Journal) {
    j.active.None? && j.handoff.None? ==>
      forall f :: f in FilledSlots(j) && FilledSlots(j) == {f} ==> j.cursor == (f + 1) % TERMINAL_COUNT
  }

  predicate HandoffSound(j: Journal) {
    j.handoff.Some? ==>
      var h := j.handoff.value;
      && Filled(j, h.slot)
      && var op := j.terminals[h.slot].value;
         && op.id == h.operationId
         && j.cursor == (h.slot + 1) % TERMINAL_COUNT
         && (IsUpdateOf(op, j.restart.bootId) ==> j.restart.lastApplied == Some(op.id))
         && (op.kind == Update && !IsUpdateOf(op, j.restart.bootId) ==> AllClear(j.restart))
         && (j.active.Some? ==> IsTerminal(j.active.value.state) && j.active.value == op)
  }

  predicate TerminalActiveApplied(j: Journal) {
    j.active.Some? && IsTerminal(j.active.value.state) && Holds(j, j.active.value.slot, j.active.value)
    && IsUpdateOf(j.active.value, j.restart.bootId)
    ==> j.restart.lastApplied == Some(j.active.value.id)
  }

  predicate ActiveIdSound(j: Journal) {
    j.active.Some? && (exists op :: op in Retained(j) && op.id == j.active.value.id)
    ==> IsTerminal(j.active.value.state) && Holds(j, j.active.value.slot, j.active.value)
  }

  predicate OldBootActiveClear(j: Journal) {
    j.active.Some? && j.active.value.kind == Update && !IsUpdateOf(j.active.value, j.restart.bootId)
    ==> AllClear(j.restart)
  }

  /** Records whose timestamp is on the restart record's boot clock. */
  predicate OnBootClock(j: Journal, op: Operation) {
    op.kind == Refresh || IsUpdateOf(op, j.restart.bootId)
  }

  predicate ActiveNotStale(j: Journal) {
    j.active.Some? && OnBootClock(j, j.active.value) && IsTerminal(j.active.value.state) ==>
      forall op :: op in RetainedUpdates(j) && op != j.active.value ==> Mono(op) <= Mono(j.active.value)
  }

  predicate HandoffNotSuperseded(j: Journal) {
    j.handoff.Some? && Filled(j, j.handoff.value.slot) ==>
      var h := j.terminals[j.handoff.value.slot].value;
      OnBootClock(j, h) ==>
        forall op :: op in RetainedUpdates(j) && op.id != h.id ==> Mono(op) <= Mono(h)
  }

  predicate RestartIdentitySound(j: Journal) {
    match j.restart.lastApplied
    case None =>
      AllClear(j.restart) && RetainedUpdates(j) == {}
    case Some(id) =>
      && (forall op :: op in Retained(j) && op.id == id ==> IsUpdateOf(op, j.restart.bootId) && IsTerminal(op.state))
      && (j.active.Some? && j.active.value.id == id ==>
            IsUpdateOf(j.active.value, j.restart.bootId) && IsTerminal(j.active.value.state))
      && (Matching(j) != {} || RingFull(j))
      && (Applied(j) != {} ==> Matching(j) != {})
      && (forall m, op :: m in Matching(j) && op in Applied(j) ==> Mono(op) <= Mono(m))
  }

  predicate SystemBucketSound(j: Journal) {
    && (forall op :: op in Applied(j) ==> SystemStrength(SystemOf(op)) <= SystemStrength(j.restart.system))
    && (RingFull(j) || j.restart.system == NoSystem
        || exists op :: op in Applied(j) && SystemOf(op) == j.restart.system)
  }

  function SessionContributors(j: Journal): set<Operation> {
    set op | op in Applied(j) && SessionOf(op) != NoSession
  }

  /** The retained contributors account for the session bucket. */
  predicate SessionDerivable(j: Journal) {
    var r, contributors := j.restart, SessionContributors(j);
    && (exists op :: op in contributors && SessionOf(op) == r.session)
    && (exists op :: op in contributors && Mono(op) == r.sessionCutoff)
    && (forall op :: op in contributors && Mono(op) == r.sessionCutoff
                     ==> SessionStrength(SessionOf(op)) <= SessionStrength(r.session))
  }

  predicate SessionSound(j: Journal) {
    var r := j.restart;
    if r.session == NoSession then r.sessionCutoff == 0
    else
      && r.sessionCutoff != 0
      && (forall op :: op in Matching(j) ==> r.sessionCutoff <= Mono(op))
      && (forall op :: op in SessionContributors(j) ==> Mono(op) <= r.sessionCutoff)
      && (forall op :: op in Matching(j) ==> SessionStrength(SessionOf(op)) <= SessionStrength(r.session))
      && (RingFull(j) || SessionDerivable(j))
  }

  function ApplicationContributors(j: Journal): set<Operation> {
    set op | op in Applied(j) && ApplicationOf(op)
  }

  predicate ApplicationSound(j: Journal) {
    var r := j.restart;
    if !r.application then r.applicationCutoff == 0
    else
      && r.applicationCutoff != 0
      && (forall op :: op in Matching(j) ==> r.applicationCutoff <= Mono(op))
      && (forall op :: op in ApplicationContributors(j) ==> Mono(op) <= r.applicationCutoff)
      && (RingFull(j) || exists op :: op in ApplicationContributors(j) && Mono(op) == r.applicationCutoff)
  }

  /** The rules on the restart record. */
  predicate RestartSound(j: Journal) {
    && RestartIdentitySound(j)
    && SystemBucketSound(j)
    && SessionSound(j)
    && ApplicationSound(j)
  }

  predicate CrossRule(j: Journal, rule: nat) {
    match rule
    case 0 => SlotsSound(j)
    case 1 => CursorFresh(j)
    case 2 => HandoffSound(j)
    case 3 => TerminalActiveApplied(j)
    case 4 => ActiveIdSound(j)
    case 5 => OldBootActiveClear(j)
    case 6 => ActiveNotStale(j)
    case 7 => HandoffNotSuperseded(j)
    case 8 => RestartSound(j)
    case _ => true
  }

  /** The rules across records; breaking any of them is one error. */
  predicate CrossChecked(j: Journal) {
    forall rule :: 0 <= rule < 9 ==> CrossRule(j, rule)
  }

  lemma CrossRules(j: Journal)
    requires CrossChecked(j)
    ensures SlotsSound(j) && CursorFresh(j) && HandoffSound(j) && TerminalActiveApplied(j) && ActiveIdSound(j)
    ensures OldBootActiveClear(j) && ActiveNotStale(j) && HandoffNotSuperseded(j) && RestartSound(j)
  {
    assert CrossRule(j, 0) && CrossRule(j, 1) && CrossRule(j, 2) && CrossRule(j, 3) && CrossRule(j, 4);
    assert CrossRule(j, 5) && CrossRule(j, 6) && CrossRule(j, 7) && CrossRule(j, 8);
  }

  /** decode_journal_state raises no error. */
  predicate Accepted(j: Journal) {
    Decoded(j) && CrossChecked(j)
  }
}
