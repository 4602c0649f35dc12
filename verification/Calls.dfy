/** What each call of the journal accepts, and what an accepted call puts on record, field by field. */
module Calls {
  import opened Results
  import opened Lifecycle
  import opened Text
  import opened Records
  import opened Validator
  import opened Operations

  // ---- begin ----

  /** Some record of the journal carries this identity. */
  ghost predicate Taken(j: Journal, id: string) {
    || (exists op :: op in Retained(j) && op.id == id)
    || (j.active.Some? && j.active.value.id == id)
    || j.restart.lastApplied == Some(id)
  }

  /** The first draw that no record carries. */
  ghost predicate FirstFresh(draws: seq<string>, j: Journal, id: string) {
    !Taken(j, id) && exists k :: 0 <= k < |draws| && draws[k] == id && forall i :: 0 <= i < k ==> Taken(j, draws[i])
  }

  function SlotAt(st: Store, offset: nat): nat { (st.journal.cursor + offset) % TERMINAL_COUNT }

  /** The file of the slot at an offset from the cursor can take one more commit below the last sequence. */
  predicate RoomyAt(st: Store, offset: nat) {
    var slot := SlotAt(st, offset);
    slot < |st.sequences.terminals| && st.sequences.terminals[slot] + 1 < SEQUENCE_MAX
  }

  /** The first such slot from an offset on. */
  ghost predicate FirstRoomy(st: Store, slot: nat, from: nat) {
    exists offset: nat :: from <= offset < TERMINAL_COUNT && slot == SlotAt(st, offset) && RoomyAt(st, offset)
      && forall i: nat :: from <= i < offset ==> !RoomyAt(st, i)
  }

  /** A record that has not started: what was asked for, with no result and no restart work yet. */
  predicate NotStarted(op: Operation, r: Request) {
    && op.action == r.action && op.kind == KindOf(r.action) && op.startedAt == r.startedAt && op.detail == r.detail
    && op.state == Pending && op.finishedAt.None? && op.errorCode.None? && op.terminalMonotonic.None?
    && op.transactionPath == r.transactionPath && op.generation == r.generation
    && op.bootId == (if op.kind == Refresh then None else r.bootId)
    && if op.kind == Update
       then op.system == Some(NoSystem) && op.session == Some(NoSession) && op.application == Some(false)
       else op.system.None? && op.session.None? && op.application.None?
  }

  /** An admission leaves room for twelve commits to active, three to restart, two to handoff and one to
      the cursor below the last sequence, on a journal that loads with nothing active or handed over. */
  ghost predicate Admits(st: Store, r: Request, draws: seq<string>, op: Operation) {
    var j, q := st.journal, st.sequences;
    && Accepted(j) && j.active.None? && j.handoff.None?
    && q.active + 12 < SEQUENCE_MAX && q.restart + 3 < SEQUENCE_MAX
    && q.handoff + 2 < SEQUENCE_MAX && q.cursor + 1 < SEQUENCE_MAX
    && FirstRoomy(st, op.slot, 0) && FirstFresh(draws, j, op.id)
    && NotStarted(op, r) && OperationEncodable(op)
    && (op.kind in {Refresh, Update} ==> r.bootId == Some(j.restart.bootId))
  }

  lemma TakenIsRetained(j: Journal, id: string)
    ensures Taken(j, id) <==> id in RetainedIds(j)
  {
    if op :| op in Retained(j) && op.id == id { assert id in RetainedIds(j); }
  }

  lemma {:induction false} DrawIsFirstFresh(draws: seq<string>, j: Journal, id: string)
    ensures FreshId(draws, RetainedIds(j)) == Some(id) <==> FirstFresh(draws, j, id)
  {
    TakenIsRetained(j, id);
    if draws != [] {
      TakenIsRetained(j, draws[0]);
      DrawIsFirstFresh(draws[1..], j, id);
      if draws[0] in RetainedIds(j) {
        if k :| 0 <= k < |draws| && draws[k] == id && !Taken(j, id) && forall i :: 0 <= i < k ==> Taken(j, draws[i]) {
          assert k > 0 && draws[1..][k - 1] == id;
          assert forall i :: 0 <= i < k - 1 ==> draws[1..][i] == draws[i + 1];
        }
        if k :| 0 <= k < |draws[1..]| && draws[1..][k] == id && !Taken(j, id)
                && forall i :: 0 <= i < k ==> Taken(j, draws[1..][i]) {
          assert draws[k + 1] == id;
          assert forall i :: 0 < i < k + 1 ==> draws[i] == draws[1..][i - 1];
        }
      }
    }
  }

  lemma {:induction false} SlotIsFirstRoomy(st: Store, slot: nat, from: nat)
    requires from <= TERMINAL_COUNT
    ensures ReusableSlot(st, from) == Some(slot) <==> FirstRoomy(st, slot, from)
    decreases TERMINAL_COUNT - from
  {
    if from < TERMINAL_COUNT {
      SlotIsFirstRoomy(st, slot, from + 1);
      assert SlotAt(st, from) == (st.journal.cursor + from) % TERMINAL_COUNT;
      assert RoomyAt(st, from) <==> SlotHeadroom(st.sequences, SlotAt(st, from));
    }
  }

  /** begin_journal_operation admits exactly this record, exactly then. */
  lemma BeginAdmitsIff(st: Store, r: Request, draws: seq<string>, op: Operation)
    ensures Begin(st, r, draws) == Ok(op) <==> Admits(st, r, draws, op)
  {
    DrawIsFirstFresh(draws, st.journal, op.id);
    SlotIsFirstRoomy(st, op.slot, 0);
  }

  // ---- advance ----

  /** Only these fields may differ between a record and the one that replaces it. */
  predicate SameOperation(a: Operation, b: Operation) {
    b == a.(state := b.state, detail := b.detail, finishedAt := b.finishedAt, errorCode := b.errorCode,
            system := b.system, session := b.session, application := b.application,
            terminalMonotonic := b.terminalMonotonic)
  }

  predicate NoWeaker(a: Operation, b: Operation) {
    && SystemStrength(SystemOf(a)) <= SystemStrength(SystemOf(b))
    && SessionStrength(SessionOf(a)) <= SessionStrength(SessionOf(b))
    && (ApplicationOf(a) ==> ApplicationOf(b))
  }

  /** Recovery may end an update with its system's restart unknown, or, on another boot, with none. */
  predicate Replaces(a: Operation, b: Operation, boot: string) {
    if a.bootId == Some(boot)
    then b.system == Some(UnknownSystem) && b.session == a.session && b.application == a.application
    else b.system == Some(NoSystem) && b.session == Some(NoSession) && b.application == Some(false)
  }

  /** A step of the lifecycle or a change of restart work, never weaker but where recovery replaces it. */
  predicate Advances(a: Operation, b: Operation, recoveryBoot: Option<string>) {
    && SameOperation(a, b) && !IsTerminal(a.state)
    && (if b.state == a.state then (a.system, a.session, a.application) != (b.system, b.session, b.application)
        else b.state in Transitions(a.state))
    && (recoveryBoot.Some? ==> IsBootId(recoveryBoot.value) && a.kind == Update && IsTerminal(b.state))
    && (a.kind == Update ==> NoWeaker(a, b) || (recoveryBoot.Some? && Replaces(a, b, recoveryBoot.value)))
  }

  /** advance_journal_operation commits the record it is given exactly when it advances the active one
      and leaves a journal that loads; it has nothing to do exactly for that record itself. */
  lemma AdvanceCommitsIff(j: Journal, expected: Operation, following: Operation, recoveryBoot: Option<string>)
    ensures var sound := OperationEncodable(expected) && OperationEncodable(following) && Accepted(j)
                         && j.active == Some(expected);
      && (Advance(j, expected, following, recoveryBoot) == Ok(Some(following)) <==>
            sound && Advances(expected, following, recoveryBoot) && Accepted(j.(active := Some(following))))
      && (Advance(j, expected, following, recoveryBoot) == Ok(None) <==> sound && following == expected)
      && (Advance(j, expected, following, recoveryBoot).Ok? && following != expected ==>
            Advance(j, expected, following, recoveryBoot) == Ok(Some(following)))
  {}

  // ---- prune, complete and acknowledge ----

  /** prune_journal_restart and complete_journal_terminal refuse nothing but these. */
  lemma CompletesIff(j: Journal, bootId: Option<string>, sessionStarted: Option<nat>)
    ensures var evidence := bootId.Some? && IsBootId(bootId.value)
                            && (sessionStarted.Some? ==> sessionStarted.value <= SEQUENCE_MAX);
      && (Prune(j, bootId, sessionStarted).Ok? <==> Accepted(j) && evidence)
      && (Complete(j, bootId, sessionStarted).Ok? <==>
            && Accepted(j)
            && (j.active.Some? ==> IsTerminal(j.active.value.state) && (j.active.value.kind == Update ==> evidence)))
      && (Complete(j, bootId, sessionStarted) == Ok([]) <==> Accepted(j) && j.active.None?)
  {}

  /** retained_journal_operation finds exactly the retained record with the identity, while nothing is active. */
  lemma RetainedIff(j: Journal, id: string, op: Operation)
    ensures RetainedOperation(j, id) == Ok(op) <==>
      Accepted(j) && IsOperationId(id) && j.active.None? && op in Retained(j) && op.id == id
  {
    if Accepted(j) && op in Retained(j) && op.id == id {
      CrossRules(j);
      var s :| 0 <= s < |j.terminals| && Filled(j, s) && j.terminals[s].value == op;
      var found := FindRetained(j, id, 0);
      if found.Some? {
        var t :| 0 <= t < |j.terminals| && Filled(j, t) && j.terminals[t].value == found.value;
        assert t == s;
      }
    }
  }

  /** acknowledge_journal_handoff clears exactly the handoff of the named record, in the slot that holds
      it, and only while nothing is active. */
  lemma AcknowledgesIff(j: Journal, id: string)
    ensures Acknowledge(j, id).Ok? <==>
      Accepted(j) && IsOperationId(id) && j.active.None? && j.handoff.Some? && j.handoff.value.operationId == id
    ensures Acknowledge(j, id).Ok? ==> Acknowledge(j, id) == Ok([CommitHandoff(None)])
  {
    if Accepted(j) {
      CrossRules(j);
      if j.handoff.Some? && j.handoff.value.operationId == id {
        var slot := j.handoff.value.slot;
        assert Filled(j, slot) && j.terminals[slot].value.id == id;
        var found := FindRetained(j, id, 0);
        if found.Some? {
          var s :| 0 <= s < |j.terminals| && Filled(j, s) && j.terminals[s].value == found.value;
          assert s == slot;
        }
      }
    }
  }
}
