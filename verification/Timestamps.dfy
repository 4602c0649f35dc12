/** Exactly when applying a terminal update's restart contribution leaves a journal that still
    loads. advance_journal_operation accepts the terminal record first, so a timestamp that fails
    this condition is only noticed by the load after the restart commit. */
module Timestamps {
  import opened Results
  import opened Lifecycle
  import opened Records
  import opened Validator
  import opened Operations
  import opened Buckets
  import opened Runs
  import opened Safety
  import Text

  /** The cutoffs that the buckets take. */
  function SessionCutoffAfter(r: Restart, op: Operation): nat {
    if SessionOf(op) != NoSession then Mono(op) else r.sessionCutoff
  }

  function ApplicationCutoffAfter(r: Restart, op: Operation): nat {
    if ApplicationOf(op) then Mono(op) else r.applicationCutoff
  }

  /** A retained update of the cutoff's timestamp asks for no more than the record and the update do. */
  predicate NotOutdone(j: Journal, op: Operation, u: Operation) {
    SessionOf(u) != NoSession && Mono(u) == SessionCutoffAfter(j.restart, op) ==>
      SessionStrength(SessionOf(u)) <= SessionStrength(StrongerSession(j.restart.session, SessionOf(op)))
  }

  predicate SessionClockFits(j: Journal, op: Operation, started: Option<nat>) {
    var cutoff := SessionCutoffAfter(j.restart, op);
    (SessionOf(op) != NoSession || j.restart.session != NoSession) && !Satisfied(started, cutoff) ==>
      0 < cutoff <= Mono(op) && (RingFull(j) || forall u :: u in RetainedUpdates(j) ==> NotOutdone(j, op, u))
  }

  predicate ApplicationClockFits(j: Journal, op: Operation, started: Option<nat>) {
    var cutoff := ApplicationCutoffAfter(j.restart, op);
    (ApplicationOf(op) || j.restart.application) && !Satisfied(started, cutoff) ==> 0 < cutoff <= Mono(op)
  }

  /** What a caller can check before the restart commit: each bucket that a session start leaves
      pending takes a positive cutoff no newer than the update. */
  predicate ClockFits(j: Journal, op: Operation, started: Option<nat>) {
    SessionClockFits(j, op, started) && ApplicationClockFits(j, op, started)
  }

  function AfterContribution(j: Journal, op: Operation, started: Option<nat>): Journal {
    j.(restart := Contributed(j.restart, op, started))
  }

  /** A journal that passes the cross-record rules, with a terminal update of this boot in the
      active record that is still to be applied. */
  predicate Applying(j: Journal, op: Operation) {
    && CrossChecked(j) && j.active == Some(op) && IsTerminal(op.state)
    && IsUpdateOf(op, j.restart.bootId) && j.restart.lastApplied != Some(op.id)
  }

  /** The active update is in no slot yet, and no handoff is pending. */
  lemma ApplyingIsLive(j: Journal, op: Operation)
    requires Applying(j, op)
    ensures j.handoff.None? && !Holds(j, op.slot, op) && op !in Retained(j)
    ensures forall u :: u in Retained(j) ==> u.id != op.id
    ensures Applied(j) == RetainedUpdates(j)
    ensures forall u :: u in RetainedUpdates(j) ==> Mono(u) <= Mono(op)
  {
    CrossRules(j);
  }

  lemma RetainedAfter(j: Journal, op: Operation, started: Option<nat>)
    ensures var j' := AfterContribution(j, op, started);
      Retained(j') == Retained(j) && RetainedUpdates(j') == RetainedUpdates(j) && (RingFull(j') <==> RingFull(j))
  {
    assert forall slot :: Filled(AfterContribution(j, op, started), slot) == Filled(j, slot);
    assert Retained(AfterContribution(j, op, started)) == Retained(j);
  }

  lemma AppliedAfter(j: Journal, op: Operation, started: Option<nat>)
    requires j.active == Some(op) && IsUpdateOf(op, j.restart.bootId)
    requires forall u :: u in Retained(j) ==> u.id != op.id
    ensures var j' := AfterContribution(j, op, started);
      Applied(j') == RetainedUpdates(j) + {op} && Matching(j') == {op}
  {
    RetainedAfter(j, op, started);
  }

  /** The rules that no timestamp can break. */
  lemma UntimedRules(j: Journal, op: Operation, started: Option<nat>)
    requires Applying(j, op)
    ensures var j' := AfterContribution(j, op, started);
      && SlotsSound(j') && CursorFresh(j') && HandoffSound(j') && TerminalActiveApplied(j') && ActiveIdSound(j')
      && OldBootActiveClear(j') && ActiveNotStale(j') && HandoffNotSuperseded(j')
      && RestartIdentitySound(j') && SystemBucketSound(j')
  {
    CrossRules(j);
    ApplyingIsLive(j, op);
    RetainedAfter(j, op, started);
    AppliedAfter(j, op, started);
  }

  lemma SessionFitsSound(j: Journal, op: Operation, started: Option<nat>)
    requires Applying(j, op) && SessionClockFits(j, op, started)
    ensures SessionSound(AfterContribution(j, op, started))
  {
    CrossRules(j);
    var j', r := AfterContribution(j, op, started), Contributed(j.restart, op, started);
    ApplyingIsLive(j, op);
    RetainedAfter(j, op, started);
    AppliedAfter(j, op, started);
    if r.session != NoSession {
      forall u | u in SessionContributors(j')
        ensures Mono(u) <= r.sessionCutoff
      {
        if u != op { assert u in SessionContributors(j); }
      }
      if !RingFull(j) { SessionFitsDerivable(j, op, started); }
    }
  }

  /** The contributors after the contribution: the retained ones, and the update if it asks for a session. */
  lemma ContributorsAfter(j: Journal, op: Operation, started: Option<nat>)
    requires Applying(j, op)
    ensures SessionContributors(AfterContribution(j, op, started))
         == SessionContributors(j) + if SessionOf(op) != NoSession then {op} else {}
    ensures forall u :: u in SessionContributors(j) ==> u in RetainedUpdates(j)
  {
    CrossRules(j);
    ApplyingIsLive(j, op);
    AppliedAfter(j, op, started);
  }

  lemma SessionFitsDerivable(j: Journal, op: Operation, started: Option<nat>)
    requires Applying(j, op) && SessionClockFits(j, op, started)
    requires !RingFull(j) && Contributed(j.restart, op, started).session != NoSession
    ensures SessionDerivable(AfterContribution(j, op, started))
  {
    CrossRules(j);
    ContributorsAfter(j, op, started);
    if j.restart.session != NoSession { assert SessionDerivable(j); }
  }

  lemma SessionSoundFits(j: Journal, op: Operation, started: Option<nat>)
    requires Applying(j, op) && SessionSound(AfterContribution(j, op, started))
    ensures SessionClockFits(j, op, started)
  {
    CrossRules(j);
    var j', r := AfterContribution(j, op, started), Contributed(j.restart, op, started);
    ApplyingIsLive(j, op);
    RetainedAfter(j, op, started);
    AppliedAfter(j, op, started);
    if r.session != NoSession && !RingFull(j) {
      forall u | u in RetainedUpdates(j) && SessionOf(u) != NoSession && Mono(u) == r.sessionCutoff
        ensures SessionStrength(SessionOf(u)) <= SessionStrength(r.session)
      {
        assert u in SessionContributors(j');
      }
    }
  }

  lemma ApplicationFits(j: Journal, op: Operation, started: Option<nat>)
    requires Applying(j, op)
    ensures ApplicationSound(AfterContribution(j, op, started))
       <==> ApplicationClockFits(j, op, started)
  {
    CrossRules(j);
    var j', r := AfterContribution(j, op, started), Contributed(j.restart, op, started);
    ApplyingIsLive(j, op);
    RetainedAfter(j, op, started);
    AppliedAfter(j, op, started);
    if ApplicationClockFits(j, op, started) && r.application {
      forall u | u in ApplicationContributors(j')
        ensures Mono(u) <= r.applicationCutoff
      {
        if u != op { assert u in ApplicationContributors(j); }
      }
      if !RingFull(j) && !ApplicationOf(op) {
        var a :| a in ApplicationContributors(j) && Mono(a) == j.restart.applicationCutoff;
        assert a in ApplicationContributors(j');
      }
      assert ApplicationOf(op) ==> op in ApplicationContributors(j');
    }
  }

  /** The contribution of an accepted terminal update keeps the journal loadable if and only if
      the buckets it leaves are backed by a positive timestamp no newer than its own. */
  lemma ContributionLoadsIff(j: Journal, op: Operation, started: Option<nat>)
    requires Applying(j, op)
    ensures CrossChecked(AfterContribution(j, op, started)) <==> ClockFits(j, op, started)
  {
    var j' := AfterContribution(j, op, started);
    if CrossChecked(j') { CrossRules(j'); }
    UntimedRules(j, op, started);
    ApplicationFits(j, op, started);
    if SessionClockFits(j, op, started) { SessionFitsSound(j, op, started); }
    if SessionSound(AfterContribution(j, op, started)) { SessionSoundFits(j, op, started); }
  }

  /** A positive timestamp strictly newer than every cutoff and retained update always fits. */
  lemma NewerFits(j: Journal, op: Operation, started: Option<nat>)
    requires Applying(j, op) && 0 < Mono(op)
    requires j.restart.sessionCutoff <= Mono(op) && j.restart.applicationCutoff <= Mono(op)
    requires forall u :: u in RetainedUpdates(j) ==> Mono(u) < Mono(op)
    ensures ClockFits(j, op, started)
  {
    CrossRules(j);
    ApplyingIsLive(j, op);
    var r := Contributed(j.restart, op, started);
    if r.session != NoSession && !RingFull(j) {
      forall u | u in RetainedUpdates(j) && SessionOf(u) != NoSession && Mono(u) == r.sessionCutoff
        ensures SessionStrength(SessionOf(u)) <= SessionStrength(r.session)
      {
        assert u in SessionContributors(j);
      }
    }
  }

  // ---- a record that advance accepts and completion cannot ----

  /** A fresh journal of a boot with this active record. */
  function FreshJournal(op: Operation, boot: string): Journal { InitialStore(boot).journal.(active := Some(op)) }

  lemma FreshSlots(j: Journal)
    requires forall s :: 0 <= s < |j.terminals| ==> j.terminals[s].None?
    ensures Retained(j) == {} && RetainedUpdates(j) == {}
            && Applied(j) <= (if j.active.Some? then {j.active.value} else {})
    ensures |j.terminals| > 0 ==> !RingFull(j)
  {
    assert forall s :: !Filled(j, s);
    if |j.terminals| > 0 { assert !Filled(j, 0); }
  }

  /** Whatever update of the boot is its first, the journal is accepted. */
  lemma FreshAccepted(op: Operation, boot: string)
    requires Text.IsBootId(boot) && IsUpdateOf(op, boot) && op.slot == 0 && OperationEncodable(op)
    ensures Accepted(FreshJournal(op, boot))
  {
    var j := FreshJournal(op, boot);
    FreshSlots(j);
    assert Applied(j) == {} && Matching(j) == {};
    forall field | 0 <= field < 2 ensures RestartFieldSound(j.restart, field) {}
    forall s: nat | s < |j.terminals| ensures SlotDecoded(j, s) {}
  }

  /** Timestamp zero: once the session restart of such a record is contributed, no load succeeds. */
  lemma ZeroStrands(op: Operation, boot: string)
    requires Text.IsBootId(boot) && IsUpdateOf(op, boot) && IsTerminal(op.state) && op.slot == 0
             && OperationEncodable(op)
    requires Mono(op) == 0 && SessionOf(op) != NoSession
    ensures !Accepted(AfterContribution(FreshJournal(op, boot), op, None))
  {
    FreshAccepted(op, boot);
    ContributionLoadsIff(FreshJournal(op, boot), op, None);
  }

  /** An update that PackageKit admits: its fields have their form. */
  predicate GoodRequest(r: Request, boot: string) {
    && r.action == UpdatesInstallAll && r.bootId == Some(boot) && Text.IsTimestamp(r.startedAt)
       && Text.IsDetail(r.detail)
    && r.generation.Some? && Text.IsGeneration(r.generation.value)
    && r.transactionPath.Some? && Text.IsPackageKitPath(r.transactionPath.value)
  }

  function Moved(op: Operation, state: State): Operation { op.(state := state) }

  /** The update ended at monotonic time zero and asks for a new session. */
  function EndedAtZero(op: Operation, finishedAt: string): Operation {
    op.(state := Succeeded, finishedAt := Some(finishedAt), session := Some(Session), terminalMonotonic := Some(0))
  }

  lemma RecordsEncodable(r: Request, boot: string, id: string, finishedAt: string)
    requires GoodRequest(r, boot) && Text.IsBootId(boot) && Text.IsOperationId(id) && Text.IsTimestamp(finishedAt)
    ensures var op := PendingOperation(r, id, 0);
      OperationEncodable(op) && OperationEncodable(Moved(op, Running))
          && OperationEncodable(EndedAtZero(Moved(op, Running), finishedAt))
  {
    var op := PendingOperation(r, id, 0);
    forall field | 0 <= field < 7
      ensures FieldSound(op, field) && FieldSound(Moved(op, Running), field)
      ensures FieldSound(EndedAtZero(Moved(op, Running), finishedAt), field)
    {}
  }

  /** In a journal just initialized: admission succeeds, advance accepts running and then the terminal
      record of timestamp zero, and after the first commit of its completion the journal is rejected. */
  lemma ZeroTimestampStrands(boot: string, r: Request, id: string, finishedAt: string)
    requires Text.IsBootId(boot) && GoodRequest(r, boot) && Text.IsOperationId(id) && Text.IsTimestamp(finishedAt)
    ensures var op := PendingOperation(r, id, 0);
      var running, zero := Moved(op, Running), EndedAtZero(Moved(op, Running), finishedAt);
      && Begin(InitialStore(boot), r, [id]) == Ok(op)
      && Advance(FreshJournal(op, boot), op, running, None) == Ok(Some(running))
      && Advance(FreshJournal(running, boot), running, zero, None) == Ok(Some(zero))
      && Accepted(FreshJournal(zero, boot))
      && Complete(FreshJournal(zero, boot), Some(boot), None).Ok?
      && var cs := Complete(FreshJournal(zero, boot), Some(boot), None).value;
         cs != [] && cs[0].CommitRestart? && !Accepted(FreshJournal(zero, boot).(restart := cs[0].restart))
  {
    var op := PendingOperation(r, id, 0);
    var running, zero := Moved(op, Running), EndedAtZero(Moved(op, Running), finishedAt);
    RecordsEncodable(r, boot, id, finishedAt);
    InitialAccepts(boot, r, id);
    ZeroAdvances(boot, r, id, finishedAt);
    FreshAccepted(zero, boot);
    ZeroStrands(zero, boot);
    assert AfterContribution(FreshJournal(zero, boot), zero, None) ==
        FreshJournal(zero, boot).(restart := Contributed(ClearRestart(boot), zero, None));
  }

  lemma ZeroAdvances(boot: string, r: Request, id: string, finishedAt: string)
    requires Text.IsBootId(boot) && GoodRequest(r, boot) && Text.IsOperationId(id) && Text.IsTimestamp(finishedAt)
    ensures var op := PendingOperation(r, id, 0);
      var running, zero := Moved(op, Running), EndedAtZero(Moved(op, Running), finishedAt);
      && Advance(FreshJournal(op, boot), op, running, None) == Ok(Some(running))
      && Advance(FreshJournal(running, boot), running, zero, None) == Ok(Some(zero))
  {
    var op := PendingOperation(r, id, 0);
    RecordsEncodable(r, boot, id, finishedAt);
    FreshAccepted(op, boot);
    FreshAccepted(Moved(op, Running), boot);
    FreshAccepted(EndedAtZero(Moved(op, Running), finishedAt), boot);
  }

  lemma InitialAccepts(boot: string, r: Request, id: string)
    requires Text.IsBootId(boot) && GoodRequest(r, boot) && OperationEncodable(PendingOperation(r, id, 0))
    ensures Begin(InitialStore(boot), r, [id]) == Ok(PendingOperation(r, id, 0))
  {
    var st := InitialStore(boot);
    EveryRunLoads(boot, []);
    FreshSlots(st.journal);
    assert SlotHeadroom(st.sequences, 0);
  }

  // ---- the run that ends there ----

  /** The calls that admit, start and end the update. */
  function ZeroCalls(r: Request, id: string, finishedAt: string): seq<Call> {
    var op := PendingOperation(r, id, 0);
    [BeginCall(r, [id]), AdvanceCall(op, Moved(op, Running), None),
     AdvanceCall(Moved(op, Running), EndedAtZero(Moved(op, Running), finishedAt), None)]
  }

  /** The first commits of some calls, one each. */
  function FirstCommits(w: World, calls: seq<Call>): World
    decreases |calls|
  {
    if calls == [] then w else FirstCommits(Next(w, CallEvent(calls[0], 1)), calls[1..])
  }

  lemma StepIs(w: World, call: Call)
    requires CommitsOf(w, call) != []
    ensures Next(w, CallEvent(call, 1)) == Committed(w, CommitsOf(w, call)[0])
  {
    var c := CommitsOf(w, call)[0];
    SingleCommit(w, c, 1);
    assert CommitsOf(w, call)[..1] == [c] && [c][..1] == [c];
  }

  lemma ThreeCalls(w: World, a: Call, b: Call, c: Call)
    ensures FirstCommits(w, [a, b, c]) == Next(Next(Next(w, CallEvent(a, 1)), CallEvent(b, 1)), CallEvent(c, 1))
  {
    var v := Next(w, CallEvent(a, 1));
    FirstOf(w, a, [b, c]);
    FirstOf(v, b, [c]);
    FirstOf(Next(v, CallEvent(b, 1)), c, []);
    assert [a, b, c] == [a] + [b, c] && [b, c] == [b] + [c] && [c] == [c] + [];
  }

  lemma FirstOf(w: World, call: Call, rest: seq<Call>)
    ensures FirstCommits(w, [call] + rest) == FirstCommits(Next(w, CallEvent(call, 1)), rest)
  {
    assert ([call] + rest)[1..] == rest;
  }

  lemma FreshStep(w: World, call: Call, op: Operation, boot: string)
    requires w.store.journal.(active := None) == InitialStore(boot).journal
             && CommitsOf(w, call) == [CommitActive(Some(op))]
    ensures var v := Next(w, CallEvent(call, 1)); v.store.journal == FreshJournal(op, boot) && v.boot == w.boot
  {
    StepIs(w, call);
  }

  lemma ZeroReached(boot: string, r: Request, id: string, finishedAt: string)
    requires Text.IsBootId(boot) && GoodRequest(r, boot) && Text.IsOperationId(id) && Text.IsTimestamp(finishedAt)
    ensures var w := FirstCommits(InitialWorld(boot), ZeroCalls(r, id, finishedAt));
      w.store.journal == FreshJournal(EndedAtZero(Moved(PendingOperation(r, id, 0), Running), finishedAt), boot)
          && w.boot == boot
  {
    var op, calls, w := PendingOperation(r, id, 0), ZeroCalls(r, id, finishedAt), InitialWorld(boot);
    ZeroTimestampStrands(boot, r, id, finishedAt);
    ThreeCalls(w, calls[0], calls[1], calls[2]);
    FreshStep(w, calls[0], op, boot);
    FreshStep(Next(w, CallEvent(calls[0], 1)), calls[1], Moved(op, Running), boot);
    FreshStep(Next(Next(w, CallEvent(calls[0], 1)), CallEvent(calls[1], 1)), calls[2],
              EndedAtZero(Moved(op, Running), finishedAt), boot);
  }

  /** The run that makes these calls, and is stopped after the first commit of the completion, ends in
      a journal that cannot be loaded. */
  lemma ZeroTimestampRun(boot: string, r: Request, id: string, finishedAt: string)
    requires Text.IsBootId(boot) && GoodRequest(r, boot) && Text.IsOperationId(id) && Text.IsTimestamp(finishedAt)
    ensures var w := FirstCommits(InitialWorld(boot), ZeroCalls(r, id, finishedAt));
      Accepted(w.store.journal) && !Accepted(Next(w, CallEvent(CompleteCall(true, None), 1)).store.journal)
  {
    var w := FirstCommits(InitialWorld(boot), ZeroCalls(r, id, finishedAt));
    ZeroTimestampStrands(boot, r, id, finishedAt);
    ZeroReached(boot, r, id, finishedAt);
    StepIs(w, CompleteCall(true, None));
  }
}
