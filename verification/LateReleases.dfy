/** An owner that has finished may still hold the lease when the next native operation is admitted.
    Observers then take that operation for owned: exactly the lease decides. */
module LateReleases {
  import opened Results
  import opened Lifecycle
  import opened Text
  import opened Records
  import opened Validator
  import opened Operations
  import opened Runs
  import opened Intervals
  import opened Recovery
  import opened Lease

  /** A recovery pass over a live native operation that it survives concludes it if and only if no one
      holds the lease; otherwise it leaves it as it is. */
  lemma ConcludedIffNoLease(s: Shared, op: Operation, sampled: Operation, f: Findings, power: nat)
    requires SoundWorld(s.world) && IsBootId(s.world.boot) && f.boot == s.world.boot
    requires Active(s.world) == Some(op) && Live(s.world) && SameIdentity(op, sampled) && op.id in s.issued
    requires NativeFindings(f) && MayRecover(op, f.(ownerBusy := false))
    requires Survives(s.world, RecoverCalls(s.world, LeaseHeld(s), sampled, f), power)
    ensures var after := Active(Lease.After(s, RecoverStep(sampled, f, power)).world);
      (after.None? <==> !LeaseHeld(s)) && (LeaseHeld(s) ==> after == Some(op))
  {
    if LeaseHeld(s) {
      RecoverSparesOwner(s, sampled, f, power);
    } else {
      DeadOwnerConcluded(s, op, sampled, f, power);
    }
  }

  // ---- such a lease is reachable ----

  /** A native request with fields of their form. */
  predicate GoodRequest(r: Request) {
    r.action == TimezoneSet && IsTimestamp(r.startedAt) && IsDetail(r.detail)
    && r.generation.None? && r.transactionPath.None? && r.bootId.None?
  }

  function Ended(op: Operation, finishedAt: string): Operation {
    op.(state := Interrupted, finishedAt := Some(finishedAt), errorCode := Some(InterruptedError))
  }

  lemma Encodables(r: Request, id: string, slot: nat, finishedAt: string)
    requires GoodRequest(r) && IsOperationId(id) && slot < TERMINAL_COUNT && IsTimestamp(finishedAt)
    ensures OperationEncodable(PendingOperation(r, id, slot))
            && OperationEncodable(Ended(PendingOperation(r, id, slot), finishedAt))
  {
    var op := PendingOperation(r, id, slot);
    forall field | 0 <= field < 7 ensures FieldSound(op, field) && FieldSound(Ended(op, finishedAt), field) {}
  }

  /** The store after an operation was ended in the first slot, with this handoff and active record. */
  function EndedStore(boot: string, t: Operation, active: Option<Operation>, handoff: Option<Handoff>,
                      commits: nat): Store {
    Store(Journal(1, ClearRestart(boot), active, handoff, seq(TERMINAL_COUNT, _ => None)[0 := Some(t)]),
          Sequences(commits, 1, if handoff.Some? then 2 else 3, 2, seq(TERMINAL_COUNT, _ => 1)[0 := 2]))
  }

  lemma FirstAdmission(boot: string, r: Request, id: string)
    requires IsBootId(boot) && GoodRequest(r) && IsOperationId(id)
    ensures Begin(InitialStore(boot), r, [id]) == Ok(PendingOperation(r, id, 0))
  {
    var st := InitialStore(boot);
    Safety.EveryRunLoads(boot, []);
    assert forall s :: !Filled(st.journal, s);
    assert Retained(st.journal) == {};
    assert SlotHeadroom(st.sequences, 0);
    Encodables(r, id, 0, r.startedAt);
  }

  lemma NextAdmission(boot: string, r: Request, t: Operation, id: string)
    requires IsBootId(boot) && GoodRequest(r) && IsOperationId(id) && t.id != id
    requires Accepted(EndedStore(boot, t, None, None, 4).journal)
    ensures Begin(EndedStore(boot, t, None, None, 4), r, [id]) == Ok(PendingOperation(r, id, 1))
  {
    var st := EndedStore(boot, t, None, None, 4);
    assert forall s :: Filled(st.journal, s) ==> s == 0;
    assert forall op :: op in Retained(st.journal) ==> op == t;
    assert id !in RetainedIds(st.journal);
    assert SlotHeadroom(st.sequences, 1) && (st.journal.cursor + 0) % TERMINAL_COUNT == 1;
    Encodables(r, id, 1, r.startedAt);
  }

  /** What one admission leaves. */
  lemma AdmitLeaves(s: Shared, p: nat, r: Request, id: string, op: Operation)
    requires p !in s.owners && IsNative(KindOf(r.action)) && Begin(s.world.store, r, [id]) == Ok(op)
    ensures var after := Lease.After(s, AdmitStep(p, r, [id], 1));
      && after.world == Committed(s.world, CommitActive(Some(op))) && after.issued == s.issued + {op.id}
      && after.owners == if LeaseHeld(s) then s.owners else s.owners[p := Owner(op, true, false, false)]
  {
    SingleCommit(s.world, CommitActive(Some(op)), 1);
  }

  /** The commits of a finish in a fresh journal. */
  function FinishCommits(t: Operation): seq<Commit> {
    [CommitTerminal(0, t), CommitCursor(1), CommitHandoff(Some(Handoff(t.id, 0))), CommitActive(None)]
  }

  lemma FinishCompletes(boot: string, t: Operation, commits: nat)
    requires t.slot == 0 && !(t.kind == Update)
    ensures var st := Store(InitialStore(boot).journal.(active := Some(t)),
                            InitialStore(boot).sequences.(active := commits));
      && CompleteCommits(st.journal, None, None) == FinishCommits(t)
      && ApplyAll(st, FinishCommits(t)) == EndedStore(boot, t, None, Some(Handoff(t.id, 0)), commits + 1)
  {
    var st := Store(InitialStore(boot).journal.(active := Some(t)), InitialStore(boot).sequences.(active := commits));
    assert !Holds(st.journal, 0, t);
    var a, b, c, d := CommitTerminal(0, t), CommitCursor(1), CommitHandoff(Some(Handoff(t.id, 0))), CommitActive(None);
    ApplyFirst(st, a, [b, c, d]);
    ApplyFirst(Apply(st, a), b, [c, d]);
    ApplyFirst(Apply(Apply(st, a), b), c, [d]);
    ApplyFirst(Apply(Apply(Apply(st, a), b), c), d, []);
    assert [a, b, c, d] == [a] + [b, c, d] && [b, c, d] == [b] + [c, d] && [c, d] == [c] + [d] && [d] == [d] + [];
  }

  lemma ApplyFirst(st: Store, c: Commit, rest: seq<Commit>)
    ensures ApplyAll(st, [c] + rest) == ApplyAll(Apply(st, c), rest)
  {
    assert ([c] + rest)[1..] == rest;
  }

  /** The first call of an interval that the process survives. */
  lemma IntervalFirst(book: Book, w: World, call: Call, rest: seq<Call>, power: nat)
    requires |Made(book, w, call)| <= power
    ensures var n := |Made(book, w, call)|; var v := Played(book, w, call, n);
      && IntervalBy(book, w, [call] + rest, power) == IntervalBy(book, v, rest, power - n)
      && SurvivesBy(book, w, [call] + rest, power) == SurvivesBy(book, v, rest, power - n)
  {
    assert ([call] + rest)[1..] == rest;
  }

  lemma IntervalOver(book: Book, w: World, power: nat)
    ensures IntervalBy(book, w, [], power) == w && SurvivesBy(book, w, [], power)
  {}

  /** An interval of two calls that the process survives. */
  lemma TwoCalls(w: World, a: Call, b: Call, power: nat)
    requires var v := CommittedAll(w, CommitsOf(w, a)); |CommitsOf(w, a)| + |CommitsOf(v, b)| <= power
    ensures Survives(w, [a, b], power)
    ensures var v := CommittedAll(w, CommitsOf(w, a)); Interval(w, [a, b], power) == CommittedAll(v, CommitsOf(v, b))
  {
    var v := CommittedAll(w, CommitsOf(w, a));
    WholeCall(w, a);
    WholeCall(v, b);
    IntervalFirst(JOURNAL, w, a, [b], power);
    IntervalFirst(JOURNAL, v, b, [], power - |CommitsOf(w, a)|);
    IntervalOver(JOURNAL, CommittedAll(v, CommitsOf(v, b)), power - |CommitsOf(w, a)| - |CommitsOf(v, b)|);
    assert [a, b] == [a] + [b] && [b] == [b] + [];
  }

  lemma WholeCall(w: World, a: Call)
    ensures Made(JOURNAL, w, a) == CommitsOf(w, a)
    ensures Played(JOURNAL, w, a, |CommitsOf(w, a)|) == CommittedAll(w, CommitsOf(w, a))
  {
    assert CommitsOf(w, a)[..|CommitsOf(w, a)|] == CommitsOf(w, a);
  }

  // ---- the four steps ----

  function Admit(p: nat, r: Request, id: string): Step { AdmitStep(p, r, [id], 1) }

  function Finish(r: Request, finishedAt: string): Step {
    FinishStep(0, Interrupted, finishedAt, Some(InterruptedError), r.detail, UNINTERRUPTED)
  }

  function Acknowledged(id: string): Step { ForeignStep(CallEvent(AcknowledgeCall(id), 1)) }

  ghost function Admitted(boot: string, r: Request, id: string): Shared
    requires GoodRequest(r)
  {
    Lease.After(InitialShared(boot), Admit(0, r, id))
  }

  lemma AdmittedIs(boot: string, r: Request, id: string)
    requires IsBootId(boot) && GoodRequest(r) && IsOperationId(id)
    ensures var op, s := PendingOperation(r, id, 0), Admitted(boot, r, id);
      && s.world == Committed(InitialWorld(boot), CommitActive(Some(op))) && s.issued == {id}
      && s.owners == map[0 := Owner(op, true, false, false)] && Steady(s.world)
      && StepAdmissible(InitialShared(boot), Admit(0, r, id)) && FreshIdentity(InitialShared(boot), Admit(0, r, id))
  {
    var s := InitialShared(boot);
    FirstAdmission(boot, r, id);
    AdmitLeaves(s, 0, r, id, PendingOperation(r, id, 0));
    assert Run(InitialWorld(boot), []) == InitialWorld(boot);
    EveryRunSound(boot, []);
    assert !LeaseHeld(s) && SlotHeadroom(s.world.store.sequences, 0);
    StepKeepsSteady(s, Admit(0, r, id));
    assert map[][0 := Owner(PendingOperation(r, id, 0), true, false, false)] ==
        map[0 := Owner(PendingOperation(r, id, 0), true, false, false)];
  }

  /** The owner's terminal record is committed and completed. */
  lemma FinishedWorld(w: World, boot: string, r: Request, id: string, finishedAt: string)
    requires IsBootId(boot) && GoodRequest(r) && IsOperationId(id) && IsTimestamp(finishedAt)
    requires w == Committed(InitialWorld(boot), CommitActive(Some(PendingOperation(r, id, 0)))) && SoundWorld(w)
    ensures var op := PendingOperation(r, id, 0); var t := Ended(op, finishedAt);
      var calls := [AdvanceCall(op, t, None), CompleteCall(false, None)];
      && Survives(w, calls, UNINTERRUPTED)
      && Interval(w, calls, UNINTERRUPTED).store == EndedStore(boot, t, None, Some(Handoff(id, 0)), 4)
      && Interval(w, calls, UNINTERRUPTED).boot == boot
  {
    var op := PendingOperation(r, id, 0);
    var t := Ended(op, finishedAt);
    Encodables(r, id, 0, finishedAt);
    SoundElim(w);
    StepSucceeds(w, op, Advancing(t, None));
    var v := Committed(w, CommitActive(Some(t)));
    SingleCommit(w, CommitActive(Some(t)), 1);
    assert CommitsOf(w, AdvanceCall(op, t, None)) == [CommitActive(Some(t))];
    assert [CommitActive(Some(t))][..1] == [CommitActive(Some(t))];
    SoundIntro(v);
    SoundAccepted(v);
    FinishCompletes(boot, t, 3);
    assert CommitsOf(v, CompleteCall(false, None)) == FinishCommits(t);
    CommittedStore(v, FinishCommits(t));
    Safety.PrefixBoot(v, FinishCommits(t));
    TwoCalls(w, AdvanceCall(op, t, None), CompleteCall(false, None), UNINTERRUPTED);
  }

  ghost function Finished(boot: string, r: Request, id: string, finishedAt: string): Shared
    requires IsBootId(boot) && GoodRequest(r) && IsOperationId(id)
  {
    AdmittedIs(boot, r, id);
    Lease.After(Admitted(boot, r, id), Finish(r, finishedAt))
  }

  lemma FinishAdmissible(w: World, a: Call, b: Call)
    requires Admissible(w, CallEvent(a, 0)) && b == CompleteCall(false, None)
    ensures IntervalAdmissible(w, [a, b])
  {
    var v := Played(JOURNAL, w, a, |Made(JOURNAL, w, a)|);
    AdmissibleFirst(v, b, []);
    AdmissibleFirst(w, a, [b]);
    assert [a, b] == [a] + [b] && [b] == [b] + [];
  }

  lemma AdmissibleFirst(w: World, call: Call, rest: seq<Call>)
    requires Admissible(w, CallEvent(call, 0))
             && IntervalAdmissible(Played(JOURNAL, w, call, |Made(JOURNAL, w, call)|), rest)
    ensures IntervalAdmissible(w, [call] + rest)
  {
    assert ([call] + rest)[1..] == rest;
  }

  /** What a finish leaves that its process survives. */
  lemma FinishLeaves(s: Shared, p: nat, step: Step, calls: seq<Call>)
    requires step.FinishStep? && step.p == p && Enabled(s, step) && FinishCalls(s.world, s.owners[p], step) == calls
    requires Survives(s.world, calls, step.power) && Active(Interval(s.world, calls, step.power)) != Active(s.world)
    ensures Lease.After(s, step) ==
            Shared(Interval(s.world, calls, step.power), s.owners[p := s.owners[p].(done := true)], s.issued)
  {}

  lemma FinishMayStep(boot: string, r: Request, id: string, finishedAt: string)
    requires IsBootId(boot) && GoodRequest(r) && IsOperationId(id) && IsTimestamp(finishedAt)
    ensures var s, step := Admitted(boot, r, id), Finish(r, finishedAt);
      Enabled(s, step) && StepAdmissible(s, step) && Steady(Lease.After(s, step).world)
  {
    var op, s, step := PendingOperation(r, id, 0), Admitted(boot, r, id), Finish(r, finishedAt);
    AdmittedIs(boot, r, id);
    assert TerminalRecord(s.owners[0], step) == Ended(op, finishedAt);
    FinishAdmissible(s.world, AdvanceCall(op, Ended(op, finishedAt), None), CompleteCall(false, None));
    StepKeepsSteady(s, step);
  }

  lemma FinishCallsAre(boot: string, r: Request, id: string, finishedAt: string)
    requires IsBootId(boot) && GoodRequest(r) && IsOperationId(id)
    ensures var op, s, step := PendingOperation(r, id, 0), Admitted(boot, r, id), Finish(r, finishedAt);
      && 0 in s.owners && Enabled(s, step)
      && FinishCalls(s.world, s.owners[0], step) ==
         [AdvanceCall(op, Ended(op, finishedAt), None), CompleteCall(false, None)]
  {
    AdmittedIs(boot, r, id);
    assert TerminalRecord(Admitted(boot, r, id).owners[0], Finish(r, finishedAt))
        == Ended(PendingOperation(r, id, 0), finishedAt);
  }

  lemma FinishedIs(boot: string, r: Request, id: string, finishedAt: string)
    requires IsBootId(boot) && GoodRequest(r) && IsOperationId(id) && IsTimestamp(finishedAt)
    ensures var op, s := PendingOperation(r, id, 0), Finished(boot, r, id, finishedAt);
      && s.world.store == EndedStore(boot, Ended(op, finishedAt), None, Some(Handoff(id, 0)), 4) && s.world.boot == boot
      && s.issued == {id} && s.owners == map[0 := Owner(op, true, true, false)] && Steady(s.world)
  {
    var op, s, step := PendingOperation(r, id, 0), Admitted(boot, r, id), Finish(r, finishedAt);
    AdmittedIs(boot, r, id);
    FinishedWorld(s.world, boot, r, id, finishedAt);
    FinishCallsAre(boot, r, id, finishedAt);
    FinishLeaves(s, 0, step, [AdvanceCall(op, Ended(op, finishedAt), None), CompleteCall(false, None)]);
    FinishMayStep(boot, r, id, finishedAt);
  }

  ghost function Released(boot: string, r: Request, id: string, finishedAt: string): Shared
    requires IsBootId(boot) && GoodRequest(r) && IsOperationId(id)
  {
    Lease.After(Finished(boot, r, id, finishedAt), Acknowledged(id))
  }

  lemma AcknowledgedWorld(w: World, boot: string, t: Operation)
    requires SoundWorld(w) && w.store == EndedStore(boot, t, None, Some(Handoff(t.id, 0)), 4) && IsOperationId(t.id)
             && t.slot == 0
    ensures Next(w, CallEvent(AcknowledgeCall(t.id), 1)) == Committed(w, CommitHandoff(None))
    ensures Committed(w, CommitHandoff(None)).store == EndedStore(boot, t, None, None, 4)
  {
    SoundAccepted(w);
    assert FindRetained(w.store.journal, t.id, 0) == Some(t);
    assert CommitsOf(w, AcknowledgeCall(t.id)) == [CommitHandoff(None)];
    SingleCommit(w, CommitHandoff(None), 1);
  }

  lemma ReleasedIs(boot: string, r: Request, id: string, finishedAt: string)
    requires IsBootId(boot) && GoodRequest(r) && IsOperationId(id) && IsTimestamp(finishedAt)
    ensures var op, s := PendingOperation(r, id, 0), Released(boot, r, id, finishedAt);
      && s.world.store == EndedStore(boot, Ended(op, finishedAt), None, None, 4) && s.world.boot == boot
      && s.issued == {id} && s.owners == map[0 := Owner(op, true, true, false)] && Steady(s.world)
      && StepAdmissible(Finished(boot, r, id, finishedAt), Acknowledged(id))
      && FreshIdentity(Finished(boot, r, id, finishedAt), Acknowledged(id))
  {
    var s, t := Finished(boot, r, id, finishedAt), Ended(PendingOperation(r, id, 0), finishedAt);
    FinishedIs(boot, r, id, finishedAt);
    AcknowledgedWorld(s.world, boot, t);
    StepKeepsSteady(s, Acknowledged(id));
  }

  /** Admitted, finished and acknowledged, but its lease not yet released; then another is admitted. */
  function Steps(r: Request, first: string, second: string, finishedAt: string): seq<Step> {
    [Admit(0, r, first), Finish(r, finishedAt), Acknowledged(first), Admit(1, r, second)]
  }

  ghost function Late(boot: string, r: Request, first: string, second: string, finishedAt: string): Shared
    requires IsBootId(boot) && GoodRequest(r) && IsOperationId(first) && IsTimestamp(finishedAt)
  {
    ReleasedIs(boot, r, first, finishedAt);
    Lease.After(Released(boot, r, first, finishedAt), Admit(1, r, second))
  }

  /** The second operation is then live and without an owner, and the lease is held. */
  lemma LateIs(boot: string, r: Request, first: string, second: string, finishedAt: string)
    requires IsBootId(boot) && GoodRequest(r) && IsTimestamp(finishedAt)
    requires IsOperationId(first) && IsOperationId(second) && first != second
    ensures var s := Late(boot, r, first, second, finishedAt);
      && Active(s.world) == Some(PendingOperation(r, second, 1)) && Live(s.world) && LeaseHeld(s)
      && s.owners == map[0 := Owner(PendingOperation(r, first, 0), true, true, false)] && s.world.boot == boot
      && StepAdmissible(Released(boot, r, first, finishedAt), Admit(1, r, second))
      && FreshIdentity(Released(boot, r, first, finishedAt), Admit(1, r, second))
  {
    var s, t := Released(boot, r, first, finishedAt), Ended(PendingOperation(r, first, 0), finishedAt);
    ReleasedIs(boot, r, first, finishedAt);
    SoundAccepted(s.world);
    NextAdmission(boot, r, t, second);
    assert 0 in s.owners && s.owners[0].leased;
    AdmitLeaves(s, 1, r, second, PendingOperation(r, second, 1));
    assert SlotHeadroom(s.world.store.sequences, 1);
  }

  lemma LastStepsReach(boot: string, r: Request, first: string, second: string, finishedAt: string)
    requires IsBootId(boot) && GoodRequest(r) && IsTimestamp(finishedAt)
    requires IsOperationId(first) && IsOperationId(second) && first != second
    ensures var s, steps := Finished(boot, r, first, finishedAt), [Acknowledged(first), Admit(1, r, second)];
      Possible(s, steps) && AllAdmissible(s, steps) && AfterAll(s, steps) == Late(boot, r, first, second, finishedAt)
  {
    ReleasedIs(boot, r, first, finishedAt);
    LateIs(boot, r, first, second, finishedAt);
    var c, d := Acknowledged(first), Admit(1, r, second);
    StepThen(Released(boot, r, first, finishedAt), d, []);
    StepThen(Finished(boot, r, first, finishedAt), c, [d]);
    assert [c, d] == [c] + [d] && [d] == [d] + [];
  }

  lemma LaterStepsReach(boot: string, r: Request, first: string, second: string, finishedAt: string)
    requires IsBootId(boot) && GoodRequest(r) && IsTimestamp(finishedAt)
    requires IsOperationId(first) && IsOperationId(second) && first != second
    ensures var s, steps := Admitted(boot, r, first), [Finish(r, finishedAt)]
            + [Acknowledged(first), Admit(1, r, second)];
      Possible(s, steps) && AllAdmissible(s, steps) && AfterAll(s, steps) == Late(boot, r, first, second, finishedAt)
  {
    LastStepsReach(boot, r, first, second, finishedAt);
    FinishMayStep(boot, r, first, finishedAt);
    FinishedIs(boot, r, first, finishedAt);
    StepThen(Admitted(boot, r, first), Finish(r, finishedAt), [Acknowledged(first), Admit(1, r, second)]);
  }

  lemma StepsReach(boot: string, r: Request, first: string, second: string, finishedAt: string)
    requires IsBootId(boot) && GoodRequest(r) && IsTimestamp(finishedAt)
    requires IsOperationId(first) && IsOperationId(second) && first != second
    ensures var s, steps := InitialShared(boot), Steps(r, first, second, finishedAt);
      Possible(s, steps) && AllAdmissible(s, steps) && AfterAll(s, steps) == Late(boot, r, first, second, finishedAt)
  {
    LaterStepsReach(boot, r, first, second, finishedAt);
    AdmittedIs(boot, r, first);
    StepThen(InitialShared(boot), Admit(0, r, first), [Finish(r, finishedAt)]
             + [Acknowledged(first), Admit(1, r, second)]);
    StepsAre(Admit(0, r, first), Finish(r, finishedAt), Acknowledged(first), Admit(1, r, second));
  }

  lemma StepsAre(a: Step, b: Step, c: Step, d: Step)
    ensures [a, b, c, d] == [a] + ([b] + [c, d])
  {}

  lemma StepThen(s: Shared, step: Step, rest: seq<Step>)
    requires Enabled(s, step) && FreshIdentity(s, step) && StepAdmissible(s, step)
    requires Possible(Lease.After(s, step), rest) && AllAdmissible(Lease.After(s, step), rest)
    ensures Possible(s, [step] + rest) && AllAdmissible(s, [step] + rest)
    ensures AfterAll(s, [step] + rest) == AfterAll(Lease.After(s, step), rest)
  {
    assert ([step] + rest)[1..] == rest;
  }

  /** A reachable state in which no recovery pass concludes an operation that has no owner. */
  lemma LateReleaseHidesDeadOwner(boot: string, r: Request, first: string, second: string, finishedAt: string,
                                  sampled: Operation, f: Findings, power: nat)
    requires IsBootId(boot) && GoodRequest(r) && IsTimestamp(finishedAt) && f.boot == boot
    requires IsOperationId(first) && IsOperationId(second) && first != second
    ensures var s, steps := InitialShared(boot), Steps(r, first, second, finishedAt);
      && Possible(s, steps) && AllAdmissible(s, steps)
      && var late := AfterAll(s, steps);
         && Active(late.world) == Some(PendingOperation(r, second, 1)) && (forall p :: !Working(late, p))
         && Enabled(late, RecoverStep(sampled, f, power))
         && Active(Lease.After(late, RecoverStep(sampled, f, power)).world) == Active(late.world)
  {
    StepsReach(boot, r, first, second, finishedAt);
    LateIs(boot, r, first, second, finishedAt);
    RecoverSparesOwner(Late(boot, r, first, second, finishedAt), sampled, f, power);
  }
}
