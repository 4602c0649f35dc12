/** What pruning and completing leave in the restart record, bucket by bucket. */
module Buckets {
  import opened Results
  import opened Lifecycle
  import opened Records
  import opened Validator
  import opened Operations
  import opened Resumption

  /** A session that started after a cutoff has done what was asked for before it. */
  predicate Satisfied(started: Option<nat>, cutoff: nat) { started.Some? && started.value > cutoff }

  /** A prune clears another boot's record; within the boot a bucket survives exactly when no session
      started after its cutoff. */
  predicate Pruning(r: Restart, boot: string, started: Option<nat>, after: Restart) {
    && after.bootId == boot
    && if r.bootId != boot then AllClear(after)
       else
         && after.lastApplied == r.lastApplied && after.system == r.system
         && (if Satisfied(started, r.sessionCutoff) then after.session == NoSession && after.sessionCutoff == 0
             else after.session == r.session && after.sessionCutoff == r.sessionCutoff)
         && (if Satisfied(started, r.applicationCutoff) then !after.application && after.applicationCutoff == 0
             else after.application == r.application && after.applicationCutoff == r.applicationCutoff)
  }

  /** The system bucket only grows: to the stronger of its requirement and the update's. */
  predicate SystemJoins(r: Restart, op: Operation, after: Restart) {
    && SystemStrength(r.system) <= SystemStrength(after.system)
    && SystemStrength(SystemOf(op)) <= SystemStrength(after.system)
    && after.system in {r.system, SystemOf(op)}
  }

  /** The session bucket counts from the newest update that asked for it. A session since then clears it;
      otherwise it is as strong as the update asks and, if no session came between, as what it held. */
  predicate SessionJoins(r: Restart, op: Operation, started: Option<nat>, after: Restart) {
    var cutoff := if SessionOf(op) != NoSession then Mono(op) else r.sessionCutoff;
    var held := if Satisfied(started, r.sessionCutoff) then NoSession else r.session;
    if Satisfied(started, cutoff) then after.session == NoSession && after.sessionCutoff == 0
    else
      && SessionStrength(held) <= SessionStrength(after.session)
      && SessionStrength(SessionOf(op)) <= SessionStrength(after.session)
      && after.session in {held, SessionOf(op)} && after.sessionCutoff == cutoff
  }

  predicate ApplicationJoins(r: Restart, op: Operation, started: Option<nat>, after: Restart) {
    var cutoff := if ApplicationOf(op) then Mono(op) else r.applicationCutoff;
    var held := r.application && !Satisfied(started, r.applicationCutoff);
    if Satisfied(started, cutoff) then !after.application && after.applicationCutoff == 0
    else (after.application <==> held || ApplicationOf(op)) && after.applicationCutoff == cutoff
  }

  predicate Joining(r: Restart, op: Operation, started: Option<nat>, after: Restart) {
    && after.bootId == r.bootId && after.lastApplied == Some(op.id)
    && SystemJoins(r, op, after) && SessionJoins(r, op, started, after) && ApplicationJoins(r, op, started, after)
  }

  /** Completing an operation: an update of the boot that the record does not name yet joins it, any other
      update only prunes, and operations of other kinds leave it alone. */
  predicate Completing(r: Restart, op: Operation, boot: Option<string>, started: Option<nat>, after: Restart) {
    if op.kind != Update || boot.None? then after == r
    else if op.bootId != boot || (r.bootId == boot.value && r.lastApplied == Some(op.id))
      then Pruning(r, boot.value, started, after)
    else Joining(if r.bootId == boot.value then r else ClearRestart(boot.value), op, started, after)
  }

  lemma PrunedIs(r: Restart, boot: string, started: Option<nat>)
    ensures Pruning(r, boot, started, Pruned(r, boot, started))
  {}

  lemma JoinedIs(r: Restart, op: Operation, boot: string, started: Option<nat>)
    ensures var base := if r.bootId == boot then r else ClearRestart(boot);
      Joining(base, op, started, Contributed(Pruned(r, boot, started), op, started))
  {}

  lemma FinalIs(r: Restart, op: Operation, boot: Option<string>, started: Option<nat>)
    ensures Completing(r, op, boot, started, FinalRestart(r, op, boot, started))
  {
    if boot.Some? {
      PrunedIs(r, boot.value, started);
      JoinedIs(r, op, boot.value, started);
    }
  }

  /** The whole journal after a completion: the update in the restart record, the record in its slot, the
      cursor behind it, the handoff naming it, and nothing active. */
  predicate Leaves(before: Journal, op: Operation, boot: Option<string>, started: Option<nat>, after: Journal) {
    && Completing(before.restart, op, boot, started, after.restart)
    && op.slot < |before.terminals| && after.terminals == before.terminals[op.slot := Some(op)]
    && after.cursor == (op.slot + 1) % TERMINAL_COUNT
    && after.handoff == Some(Handoff(op.id, op.slot)) && after.active.None?
  }

  /** What a completion that is not interrupted leaves in every record of the journal. */
  lemma CompletionLeaves(st: Store, boot: Option<string>, started: Option<nat>)
    requires Slotted(st) && st.journal.active.Some?
    ensures Leaves(st.journal, st.journal.active.value, boot, started,
                   ApplyAll(st, CompleteCommits(st.journal, boot, started)).journal)
  {
    CompletionEffect(st, boot, started);
    FinalIs(st.journal.restart, st.journal.active.value, boot, started);
  }
}
