/** What whoever loads a journal can rely on, slot by slot: the rules of decode_journal_state from the
    side of their reader. */
module Guarantees {
  import opened Results
  import opened Lifecycle
  import opened Records
  import opened Validator

  /** A slot that holds an update of the restart record's boot. */
  predicate BootUpdate(j: Journal, s: int) {
    Filled(j, s) && j.terminals[s].value.kind == Update && j.terminals[s].value.bootId == Some(j.restart.bootId)
  }

  /** The active record is the update that the restart record names. */
  predicate ActiveNamed(j: Journal) {
    && j.active.Some? && j.restart.lastApplied == Some(j.active.value.id)
    && j.active.value.kind == Update && j.active.value.bootId == Some(j.restart.bootId)
  }

  /** Some update of the boot, retained or just applied, satisfies this. */
  ghost predicate Someone(j: Journal, p: Operation -> bool) {
    (exists s :: BootUpdate(j, s) && p(j.terminals[s].value)) || (ActiveNamed(j) && p(j.active.value))
  }

  /** All of them do. */
  ghost predicate Everyone(j: Journal, p: Operation -> bool) {
    (forall s :: BootUpdate(j, s) ==> p(j.terminals[s].value)) && (ActiveNamed(j) ==> p(j.active.value))
  }

  lemma AppliedBySlot(j: Journal, op: Operation)
    ensures op in RetainedUpdates(j) <==> exists s :: BootUpdate(j, s) && j.terminals[s].value == op
    ensures op in Applied(j) <==> op in RetainedUpdates(j) || (ActiveNamed(j) && j.active.value == op)
  {
    if s :| BootUpdate(j, s) && j.terminals[s].value == op { assert op in Retained(j); }
    if op in RetainedUpdates(j) {
      var s :| 0 <= s < |j.terminals| && Filled(j, s) && j.terminals[s].value == op;
      assert BootUpdate(j, s);
    }
  }

  lemma AppliedIs(j: Journal, p: Operation -> bool)
    ensures Someone(j, p) <==> exists op :: op in Applied(j) && p(op)
    ensures Everyone(j, p) <==> forall op :: op in Applied(j) ==> p(op)
  {
    forall s | BootUpdate(j, s) ensures j.terminals[s].value in Applied(j) { AppliedBySlot(j, j.terminals[s].value); }
    if ActiveNamed(j) { AppliedBySlot(j, j.active.value); }
    forall op | op in Applied(j)
      ensures (ActiveNamed(j) && j.active.value == op) || exists s :: BootUpdate(j, s) && j.terminals[s].value == op
    {
      AppliedBySlot(j, op);
    }
  }

  /** Every slot holds a concluded record of its own, and no two records are the same operation. */
  lemma Slots(j: Journal, s: int, t: int)
    requires Accepted(j) && Filled(j, s) && Filled(j, t) && s != t
    ensures IsTerminal(j.terminals[s].value.state) && j.terminals[s].value.slot == s
    ensures j.terminals[s].value.id != j.terminals[t].value.id
  {
    CrossRules(j);
  }

  /** The first record ever retained stands right before the cursor. */
  lemma FirstSlot(j: Journal, s: int)
    requires Accepted(j) && j.active.None? && j.handoff.None? && Filled(j, s) && forall t :: Filled(j, t) ==> t == s
    ensures j.cursor == (s + 1) % TERMINAL_COUNT && IsTerminal(j.terminals[s].value.state)
  {
    CrossRules(j);
    assert s in FilledSlots(j);
    assert FilledSlots(j) == {s};
  }

  /** A handoff names the record right before the cursor, which is the active one if there is one, and the
      update that the restart record names last if it is of that boot. */
  lemma HandedOver(j: Journal)
    requires Accepted(j) && j.handoff.Some?
    ensures var h := j.handoff.value;
      && Filled(j, h.slot) && j.terminals[h.slot].value.id == h.operationId
      && j.cursor == (h.slot + 1) % TERMINAL_COUNT && (j.active.Some? ==> j.active == j.terminals[h.slot])
      && (BootUpdate(j, h.slot) ==> j.restart.lastApplied == Some(h.operationId))
      && (j.terminals[h.slot].value.kind == Update && !BootUpdate(j, h.slot) ==> AllClear(j.restart))
      && (BootUpdate(j, h.slot) || j.terminals[h.slot].value.kind == Refresh ==>
            forall s :: BootUpdate(j, s) ==> Mono(j.terminals[s].value) <= Mono(j.terminals[h.slot].value))
  {
    CrossRules(j);
    forall s | BootUpdate(j, s) ensures j.terminals[s].value in RetainedUpdates(j) {
      AppliedBySlot(j, j.terminals[s].value);
    }
  }

  /** The active record is retained only as the concluded record of its own slot, which is applied if it is
      an update of the boot; an update of another boot is active only while no restart work is held; and a
      result on the boot's clock is no older than the boot's retained updates. */
  lemma Active(j: Journal, s: int)
    requires Accepted(j) && j.active.Some?
    ensures var op := j.active.value;
      && (Filled(j, s) && j.terminals[s].value.id == op.id ==> s == op.slot && j.terminals[s] == Some(op))
      && (Filled(j, s) && j.terminals[s] == Some(op) && BootUpdate(j, s) ==> j.restart.lastApplied == Some(op.id))
      && (op.kind == Update && op.bootId != Some(j.restart.bootId) ==> AllClear(j.restart))
      && (IsTerminal(op.state) && BootUpdate(j, s) && (op.kind == Refresh || op.bootId == Some(j.restart.bootId)) ==>
            Mono(j.terminals[s].value) <= Mono(op))
  {
    CrossRules(j);
    var op := j.active.value;
    if Filled(j, s) {
      assert j.terminals[s].value in Retained(j);
      if j.terminals[s].value.id == op.id && s != op.slot { Slots(j, s, op.slot); }
      if BootUpdate(j, s) { AppliedBySlot(j, j.terminals[s].value); }
    }
  }

  /** Without a last update the restart record is clear and no update of the boot is retained. */
  lemma NeverApplied(j: Journal, s: int)
    requires Accepted(j) && j.restart.lastApplied.None?
    ensures AllClear(j.restart) && !BootUpdate(j, s)
  {
    CrossRules(j);
    if BootUpdate(j, s) { AppliedBySlot(j, j.terminals[s].value); }
  }

  /** The last update is the newest of the boot's that are on record, and is missing only once the ring has
      wrapped and holds none of them. */
  lemma LastApplied(j: Journal, id: string)
    requires Accepted(j) && j.restart.lastApplied == Some(id)
    ensures Someone(j, (op: Operation) => true) ==> Someone(j, (op: Operation) => op.id == id)
    ensures !Someone(j, (op: Operation) => op.id == id) ==> RingFull(j)
    ensures forall s :: Filled(j, s) && j.terminals[s].value.id == id ==>
      BootUpdate(j, s) && Everyone(j, (op: Operation) => Mono(op) <= Mono(j.terminals[s].value))
    ensures j.active.Some? && j.active.value.id == id ==>
      ActiveNamed(j) && IsTerminal(j.active.value.state)
          && Everyone(j, (op: Operation) => Mono(op) <= Mono(j.active.value))
  {
    CrossRules(j);
    AppliedIs(j, (op: Operation) => true);
    AppliedIs(j, (op: Operation) => op.id == id);
    if m :| m in Matching(j) { assert m in Applied(j) && m.id == id; }
    forall s | Filled(j, s) && j.terminals[s].value.id == id
      ensures BootUpdate(j, s) && Everyone(j, (op: Operation) => Mono(op) <= Mono(j.terminals[s].value))
    {
      var m := j.terminals[s].value;
      assert m in Retained(j);
      AppliedBySlot(j, m);
      assert m in Matching(j);
      AppliedIs(j, (op: Operation) => Mono(op) <= Mono(m));
    }
    if j.active.Some? && j.active.value.id == id {
      AppliedBySlot(j, j.active.value);
      assert j.active.value in Matching(j);
      AppliedIs(j, (op: Operation) => Mono(op) <= Mono(j.active.value));
    }
  }

  /** The system bucket covers every update of the boot on record, and until the ring wraps it is one's. */
  lemma SystemBucket(j: Journal)
    requires Accepted(j)
    ensures Everyone(j, (op: Operation) => SystemStrength(SystemOf(op)) <= SystemStrength(j.restart.system))
    ensures RingFull(j) || j.restart.system == NoSystem
            || Someone(j, (op: Operation) => SystemOf(op) == j.restart.system)
  {
    CrossRules(j);
    AppliedIs(j, (op: Operation) => SystemStrength(SystemOf(op)) <= SystemStrength(j.restart.system));
    AppliedIs(j, (op: Operation) => SystemOf(op) == j.restart.system);
  }

  /** A pending session dates from no update before the newest that asked for one, and covers the last
      update's request. */
  lemma SessionBucket(j: Journal)
    requires Accepted(j)
    ensures j.restart.session == NoSession ==> j.restart.sessionCutoff == 0
    ensures j.restart.session != NoSession ==>
      && j.restart.sessionCutoff > 0
      && Everyone(j, (op: Operation) => SessionOf(op) != NoSession ==> Mono(op) <= j.restart.sessionCutoff)
      && Everyone(j, (op: Operation) => j.restart.lastApplied == Some(op.id) ==>
           j.restart.sessionCutoff <= Mono(op)
           && SessionStrength(SessionOf(op)) <= SessionStrength(j.restart.session))
  {
    CrossRules(j);
    var r := j.restart;
    if r.session != NoSession {
      assert forall op :: op in Applied(j) && SessionOf(op) != NoSession ==> op in SessionContributors(j);
      assert forall op :: op in Applied(j) && r.lastApplied == Some(op.id) ==> op in Matching(j);
      AppliedIs(j, (op: Operation) => SessionOf(op) != NoSession ==> Mono(op) <= r.sessionCutoff);
      AppliedIs(j, (op: Operation) => r.lastApplied == Some(op.id) ==>
           r.sessionCutoff <= Mono(op) && SessionStrength(SessionOf(op)) <= SessionStrength(r.session));
    }
  }

  /** Until the ring wraps, its date and its request are those of updates on record. */
  lemma SessionOnRecord(j: Journal)
    requires Accepted(j) && j.restart.session != NoSession && !RingFull(j)
    ensures Someone(j, (op: Operation) => SessionOf(op) == j.restart.session)
    ensures Someone(j, (op: Operation) => SessionOf(op) != NoSession && Mono(op) == j.restart.sessionCutoff)
    ensures Everyone(j, (op: Operation) => SessionOf(op) != NoSession && Mono(op) == j.restart.sessionCutoff ==>
              SessionStrength(SessionOf(op)) <= SessionStrength(j.restart.session))
  {
    CrossRules(j);
    var r := j.restart;
    assert SessionDerivable(j);
    assert forall op :: op in SessionContributors(j) <==> op in Applied(j) && SessionOf(op) != NoSession;
    AppliedIs(j, (op: Operation) => SessionOf(op) == r.session);
    AppliedIs(j, (op: Operation) => SessionOf(op) != NoSession && Mono(op) == r.sessionCutoff);
    AppliedIs(j, (op: Operation) => SessionOf(op) != NoSession && Mono(op) == r.sessionCutoff ==>
              SessionStrength(SessionOf(op)) <= SessionStrength(r.session));
  }

  lemma ApplicationBucket(j: Journal)
    requires Accepted(j)
    ensures !j.restart.application ==> j.restart.applicationCutoff == 0
    ensures j.restart.application ==>
      && j.restart.applicationCutoff > 0
      && Everyone(j, (op: Operation) => ApplicationOf(op) ==> Mono(op) <= j.restart.applicationCutoff)
      && Everyone(j, (op: Operation) => j.restart.lastApplied == Some(op.id) ==>
                  j.restart.applicationCutoff <= Mono(op))
      && (RingFull(j) || Someone(j, (op: Operation) => ApplicationOf(op) && Mono(op) == j.restart.applicationCutoff))
  {
    CrossRules(j);
    var r := j.restart;
    if r.application {
      assert forall op :: op in Applied(j) && ApplicationOf(op) ==> op in ApplicationContributors(j);
      assert forall op :: op in Applied(j) && r.lastApplied == Some(op.id) ==> op in Matching(j);
      AppliedIs(j, (op: Operation) => ApplicationOf(op) ==> Mono(op) <= r.applicationCutoff);
      AppliedIs(j, (op: Operation) => r.lastApplied == Some(op.id) ==> r.applicationCutoff <= Mono(op));
      AppliedIs(j, (op: Operation) => ApplicationOf(op) && Mono(op) == r.applicationCutoff);
    }
  }
}
