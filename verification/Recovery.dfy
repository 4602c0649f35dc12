/** recover_journal_active: what a recovery pass does, under the lock, to the operation it
    copied, for every combination of PackageKit evidence, history and boot. */
module Recovery {
  import opened Results
  import opened Lifecycle
  import opened Text
  import opened Records
  import opened Validator
  import opened Operations
  import opened Signals
  import opened Ledger
  import opened Runs
  import opened Invariant
  import opened Acceptance
  import opened Preservation
  import opened Resumption
  import opened Safety

  datatype Failure = Failure(code: ErrorCode, detail: string)

  /** RecoveryEvidence, without the display-only fields. */
  datatype Evidence = Evidence(
    present: bool,
    state: Option<State>,
    failure: Option<Failure>,
    restartTypes: seq<int>,
    status: int,
    terminalMonotonic: Option<nat>)

  /** What the unlocked part of recovery brings to the locked part. */
  datatype Findings = Findings(
    evidence: Option<Evidence>,
    history: Option<bool>,
    lookupFailure: Option<ErrorCode>,
    boot: string,
    sessionStarted: Option<nat>,
    ownerBusy: bool,
    finishedAt: string,
    now: nat,
    interruption: Failure,
    note: string)

  datatype Reason = OwnerAlive | LookupFailed | StillPresent

  datatype Advancing = Advancing(following: Operation, recoveryBoot: Option<string>)

  /** The records recovery advances through; a record equal to the one before it is not an advance. */
  datatype Plan =
    | Leave(reason: Reason, noticed: Operation)
    | Finish(noticed: Operation, bridged: Operation, last: Advancing)

  /** history_used. */
  predicate HistoryUsed(f: Findings) {
    f.history == Some(true) || (f.history == Some(false) && f.evidence.Some? && !f.evidence.value.present)
  }

  predicate Concluded(f: Findings) { f.evidence.Some? && f.evidence.value.state.Some? }

  /** A lookup failure that leaves nothing to act on. */
  predicate LookupBlocks(f: Findings) {
    f.lookupFailure.Some?
    && (f.lookupFailure.value == MalformedError
        || (!HistoryUsed(f) && (f.evidence.None? || f.evidence.value.present)))
  }

  predicate PreRunning(op: Operation) { op.state == Pending || op.state == Authorizing }

  /** The state the evidence points to, before it is reconciled with the record. */
  function ObservedState(f: Findings): State {
    if Concluded(f) then f.evidence.value.state.value
    else if f.history == Some(true) then Succeeded
    else Interrupted
  }

  function ObservedFailure(f: Findings): Option<Failure> {
    if ObservedState(f) == Interrupted then Some(f.interruption)
    else if Concluded(f) then f.evidence.value.failure else None
  }

  /** PackageKit executing while the record says it has not started. */
  function Noticed(op: Operation, f: Findings): Operation {
    if f.evidence.Some? && f.evidence.value.status == 3 && PreRunning(op)
    then op.(state := Running, detail := f.note) else op
  }

  /** The outcome, with a late permission denial counted as a failure. */
  function Outcome(op: Operation, f: Findings): State {
    if ObservedState(f) == PermissionDenied && !PreRunning(op) then Failed else ObservedState(f)
  }

  /** The intermediate state some outcomes have to pass through. */
  function Bridge(op: Operation, f: Findings): Operation {
    var outcome := Outcome(op, f);
    if outcome == Succeeded && PreRunning(op) then op.(state := Running, detail := f.note)
    else if outcome == PermissionDenied && op.state == Pending then op.(state := Authorizing, detail := f.note)
    else if outcome == Canceled && op.state == Running then op.(state := CancelRequested, detail := f.note)
    else op
  }

  /** One RequireRestart signal. */
  function Observe(c: Contribution, value: int): Contribution {
    if value == 2 then c.(application := true)
    else if value == 3 || value == 5 then
      c.(session := StrongerSession(c.session, RequiredSession(value)))
    else if value != 1 then c.(system := StrongerSystem(c.system, RequiredSystem(value)))
    else c
  }

  function ObserveAll(c: Contribution, values: seq<int>): Contribution
    decreases values
  {
    if values == [] then c else ObserveAll(Observe(c, values[0]), values[1..])
  }

  /** The recovered contribution, and the boot boundary that justifies replacing one. */
  function Recovered(op: Operation, started: Operation, f: Findings): (Contribution, Option<string>) {
    var held := ContributionOf(op);
    if op.bootId != Some(f.boot) then (Contribution(NoSystem, NoSession, false), Some(f.boot))
    else
      var observed := if Concluded(f) then f.evidence.value.restartTypes else [];
      var merged := ObserveAll(held, observed);
      var excluded := PreRunning(started) && f.evidence.Some? && f.evidence.value.status == 31
                      && Outcome(started, f) in {PermissionDenied, Canceled};
      if HistoryUsed(f) || (observed == [] && !excluded) then (merged.(system := UnknownSystem), Some(f.boot))
      else if !excluded && merged.system == NoSystem then (merged.(system := UnknownSystem), None)
      else (merged, None)
  }

  /** The terminal record recovery writes for an operation bridged from started. */
  function Terminated(op: Operation, started: Operation, f: Findings): Advancing {
    var failure := ObservedFailure(f);
    var (c, boundary) := if op.kind == Update then Recovered(op, started, f)
        else (Contribution(NoSystem, NoSession, false), None);
    var cutoff := if Concluded(f) && f.evidence.value.terminalMonotonic.Some?
                  then f.evidence.value.terminalMonotonic.value else f.now;
    Advancing(
      op.(state := Outcome(started, f),
          finishedAt := Some(f.finishedAt),
          terminalMonotonic := if IsNative(op.kind) then None else Some(cutoff),
          errorCode := if failure.Some? then Some(failure.value.code) else None,
          detail := if failure.Some? then failure.value.detail else f.note,
          system := if op.kind == Update then Some(c.system) else op.system,
          session := if op.kind == Update then Some(c.session) else op.session,
          application := if op.kind == Update then Some(c.application) else op.application),
      boundary)
  }

  /** The locked half of recover_journal_active on a nonterminal operation. */
  function PlanRecovery(op: Operation, f: Findings): Plan {
    if IsNative(op.kind) && f.ownerBusy then Leave(OwnerAlive, op)
    else if LookupBlocks(f) then Leave(LookupFailed, op)
    else
      var noticed := Noticed(op, f);
      if f.evidence.Some? && f.evidence.value.state.None? && f.evidence.value.present && !HistoryUsed(f) then
        Leave(StillPresent, noticed)
      else
        var bridged := Bridge(noticed, f);
        Finish(noticed, bridged, Terminated(bridged, noticed, f))
  }

  // ---- hypotheses on what recovery is given ----

  /** probe_operation's evidence: only these results, with a failure exactly when unsuccessful. */
  predicate EvidenceSound(e: Evidence) {
    && (e.state.Some? ==> e.state.value in {PermissionDenied, Canceled, Failed, Succeeded}
                          && (e.failure.None? <==> e.state.value == Succeeded))
    && (e.failure.Some? ==> IsDetail(e.failure.value.detail))
    && (e.terminalMonotonic.Some? ==> IsUint64(e.terminalMonotonic.value))
  }

  /** The texts and numbers recovery writes, by position. */
  predicate FindingSound(f: Findings, field: nat) {
    match field
    case 0 => IsTimestamp(f.finishedAt)
    case 1 => IsDetail(f.note)
    case 2 => IsDetail(f.interruption.detail)
    case _ => true
  }

  /** The findings for this kind of operation: native operations have no PackageKit evidence, and
      history is consulted only for an update without a concluded observation. */
  predicate FindingsSound(op: Operation, f: Findings) {
    && (f.evidence.Some? ==> EvidenceSound(f.evidence.value))
    && (f.history.Some? ==> op.kind == Update && !Concluded(f))
    && (IsNative(op.kind) ==> f.evidence.None? && f.lookupFailure.None?)
    && (f.sessionStarted.Some? ==> IsUint64(f.sessionStarted.value))
    && IsUint64(f.now)
    && forall field :: 0 <= field < 3 ==> FindingSound(f, field)
  }

  // ---- every advance of a plan is legal ----

  /** advance_journal_operation's checks short of the prospective validation. */
  predicate LegalAdvance(from: Operation, step: Advancing) {
    && OperationEncodable(step.following)
    && SameIdentity(from, step.following)
    && LegalTransition(from, step.following)
    && BoundaryOk(from, step.following, step.recoveryBoot)
    && (from.kind == Update && !RecoveryReplacement(from, step.following, step.recoveryBoot) ==>
        !Weakens(from, step.following))
    && step.following.state != from.state
  }

  predicate LegalOrSame(from: Operation, to: Operation) {
    to == from || (LegalAdvance(from, Advancing(to, None)) && !IsTerminal(to.state))
  }

  lemma {:induction false} ObserveStrengthens(c: Contribution, values: seq<int>)
    ensures var d := ObserveAll(c, values);
      && SystemStrength(c.system) <= SystemStrength(d.system)
      && SessionStrength(c.session) <= SessionStrength(d.session)
      && (c.application ==> d.application)
    decreases values
  {
    if values != [] { ObserveStrengthens(Observe(c, values[0]), values[1..]); }
  }

  lemma {:induction false} ObserveIsHeard(c: Contribution, values: seq<int>)
    ensures Heard(c, values, ObserveAll(c, values))
    decreases values
  {
    if values == [] {
      NothingHeard(c);
    } else {
      var next := Observe(c, values[0]);
      ObserveIsHeard(next, values[1..]);
      assert [values[0]] + values[1..] == values;
      assert Heard(c, [values[0]], next);
      HeardThen(c, values[0], next, values[1..], ObserveAll(c, values));
    }
  }

  /** A record recovery may still work on, with findings that suit it. */
  predicate MayRecover(op: Operation, f: Findings) {
    OperationEncodable(op) && !IsTerminal(op.state) && FindingsSound(op, f)
  }

  /** A nonterminal move changes only the state and the detail. */
  lemma MoveLegal(op: Operation, state: State, f: Findings)
    requires MayRecover(op, f) && state in Transitions(op.state) && !IsTerminal(state) && state != op.state
    ensures var moved := op.(state := state, detail := f.note);
      LegalOrSame(op, moved) && MayRecover(moved, f) && SameIdentity(moved, op)
  {
    var moved := op.(state := state, detail := f.note);
    forall field | 0 <= field < 7
      ensures FieldSound(moved, field)
    {
      assert FieldSound(op, field) && FindingSound(f, 1);
    }
  }

  lemma NoticedLegal(op: Operation, f: Findings)
    requires MayRecover(op, f)
    ensures LegalOrSame(op, Noticed(op, f)) && MayRecover(Noticed(op, f), f)
  {
    if Noticed(op, f) != op { MoveLegal(op, Running, f); }
  }

  /** After the bridge, the outcome is one lifecycle step away. */
  lemma BridgeReaches(op: Operation, f: Findings)
    requires !IsTerminal(op.state) && (f.evidence.Some? ==> EvidenceSound(f.evidence.value))
    ensures Outcome(op, f) in Transitions(Bridge(op, f).state) && IsTerminal(Outcome(op, f))
    ensures Bridge(op, f) == op || (Bridge(op, f).state in Transitions(op.state) && Bridge(op, f).state != op.state
                                    && Bridge(op, f) == op.(state := Bridge(op, f).state, detail := f.note))
    ensures !IsTerminal(Bridge(op, f).state)
  {}

  lemma BridgeLegal(op: Operation, f: Findings)
    requires MayRecover(op, f)
    ensures LegalOrSame(op, Bridge(op, f)) && MayRecover(Bridge(op, f), f) && SameIdentity(Bridge(op, f), op)
  {
    BridgeReaches(op, f);
    if Bridge(op, f) != op { MoveLegal(op, Bridge(op, f).state, f); }
  }

  /** The recovered contribution is a strengthening, or a replacement recovery may make. */
  lemma RecoveredLegal(op: Operation, started: Operation, f: Findings)
    requires op.kind == Update && OperationEncodable(op) && !IsTerminal(op.state)
    requires FindingsSound(op, f) && SameIdentity(op, started)
    ensures var step := Terminated(op, started, f);
      && (step.recoveryBoot.Some? ==> step.recoveryBoot == Some(f.boot))
      && (!RecoveryReplacement(op, step.following, step.recoveryBoot) ==> !Weakens(op, step.following))
  {
    var held := ContributionOf(op);
    ObserveStrengthens(held, if Concluded(f) then f.evidence.value.restartTypes else []);
  }

  lemma TerminatedFields(op: Operation, started: Operation, f: Findings)
    requires MayRecover(op, f)
    ensures forall field :: 0 <= field < 7 ==> FieldSound(Terminated(op, started, f).following, field)
  {
    forall field | 0 <= field < 7
      ensures FieldSound(Terminated(op, started, f).following, field)
    {
      assert FieldSound(op, field);
      assert FindingSound(f, 0) && FindingSound(f, 1) && FindingSound(f, 2);
    }
  }

  /** An unsuccessful outcome has an error, a successful one has none. */
  lemma OutcomeError(started: Operation, f: Findings)
    requires f.evidence.Some? ==> EvidenceSound(f.evidence.value)
    ensures Outcome(started, f) == Succeeded <==> ObservedFailure(f).None?
  {}

  lemma TerminatedLegal(op: Operation, started: Operation, f: Findings)
    requires MayRecover(op, f) && IsBootId(f.boot)
    requires SameIdentity(op, started) && Outcome(started, f) in Transitions(op.state)
             && IsTerminal(Outcome(started, f))
    ensures LegalAdvance(op, Terminated(op, started, f))
    ensures IsTerminal(Terminated(op, started, f).following.state)
  {
    TerminatedFields(op, started, f);
    OutcomeError(started, f);
    if op.kind == Update { RecoveredLegal(op, started, f); }
  }

  lemma FinishLegal(op: Operation, f: Findings)
    requires MayRecover(op, f) && IsBootId(f.boot)
    ensures var last := Terminated(Bridge(op, f), op, f);
      LegalOrSame(op, Bridge(op, f)) && LegalAdvance(Bridge(op, f), last) && IsTerminal(last.following.state)
  {
    BridgeLegal(op, f);
    BridgeReaches(op, f);
    TerminatedLegal(Bridge(op, f), op, f);
  }

  /** For every nonterminal operation and every combination of evidence, history and boot, each
      advance recovery makes passes the identity, transition, boundary and non-weakening checks,
      and a pass that does not leave the operation alone ends in a terminal record. */
  lemma RecoveryIsLegal(op: Operation, f: Findings)
    requires MayRecover(op, f) && IsBootId(f.boot)
    ensures var p := PlanRecovery(op, f);
      && LegalOrSame(op, p.noticed)
      && (p.Finish? ==>
            LegalOrSame(p.noticed, p.bridged) && LegalAdvance(p.bridged, p.last) && IsTerminal(p.last.following.state))
  {
    NoticedLegal(op, f);
    FinishLegal(Noticed(op, f), f);
  }

  // ---- what recovery concludes, from the record it found and its findings alone ----

  /** The result: PackageKit's own word, a denial counting as a failure once the transaction ran; or else
      a success that its history confirms; or else an interruption. */
  predicate OutcomeSettled(op: Operation, f: Findings, t: Operation) {
    if f.evidence.Some? && f.evidence.value.state.Some? then
      var e := f.evidence.value;
      && t.state == (if e.state == Some(PermissionDenied) && (op.state !in {Pending, Authorizing} || e.status == 3)
                     then Failed else e.state.value)
      && (match e.failure
          case None => t.errorCode.None?
          case Some(failure) => t.errorCode == Some(failure.code) && t.detail == failure.detail)
    else if f.history == Some(true) then t.state == Succeeded && t.errorCode.None?
    else t.state == Interrupted && t.errorCode == Some(f.interruption.code) && t.detail == f.interruption.detail
  }

  /** The restart work of an update: none from another boot; otherwise what the record and the signals of
      a concluded transaction ask for, with the system's unknown wherever signals may have been missed. */
  predicate RestartsSettled(op: Operation, f: Findings, t: Operation) {
    if op.kind != Update then t.system == op.system && t.session == op.session && t.application == op.application
    else ContributionSettled(op, f, t.state, ContributionOf(t))
  }

  predicate ContributionSettled(op: Operation, f: Findings, outcome: State, d: Contribution) {
    var c := ContributionOf(op);
    var values := if f.evidence.Some? && f.evidence.value.state.Some? then f.evidence.value.restartTypes else [];
    var neverRan := op.state in {Pending, Authorizing} && f.evidence.Some? && f.evidence.value.status == 31
                    && outcome in {PermissionDenied, Canceled};
    var fromHistory := f.history == Some(true)
                       || (f.history == Some(false) && f.evidence.Some? && !f.evidence.value.present);
    if op.bootId != Some(f.boot) then d == Contribution(NoSystem, NoSession, false)
    else
      && SessionHeard(c.session, values, d.session) && ApplicationHeard(c.application, values, d.application)
      && if fromHistory || (values == [] && !neverRan) then d.system == UnknownSystem
         else if neverRan || !SystemHeard(c.system, values, NoSystem) then SystemHeard(c.system, values, d.system)
         else d.system == UnknownSystem
  }

  predicate TimesSettled(op: Operation, f: Findings, t: Operation) {
    && t.finishedAt == Some(f.finishedAt)
    && (IsNative(op.kind) ==> t.terminalMonotonic.None?)
    && (!IsNative(op.kind) ==>
          t.terminalMonotonic == if f.evidence.Some? && f.evidence.value.state.Some?
                                    && f.evidence.value.terminalMonotonic.Some?
                                 then f.evidence.value.terminalMonotonic else Some(f.now))
  }

  predicate Settles(op: Operation, f: Findings, t: Operation) {
    SameIdentity(op, t) && OutcomeSettled(op, f, t) && RestartsSettled(op, f, t) && TimesSettled(op, f, t)
  }

  lemma RecoveredIsSettled(op: Operation, bridged: Operation, f: Findings)
    requires bridged.bootId == op.bootId && ContributionOf(bridged) == ContributionOf(op)
    ensures ContributionSettled(op, f, Outcome(Noticed(op, f), f), Recovered(bridged, Noticed(op, f), f).0)
  {
    ObserveIsHeard(ContributionOf(op), if Concluded(f) then f.evidence.value.restartTypes else []);
  }

  lemma RestartsAreSettled(op: Operation, f: Findings)
    requires MayRecover(op, f)
    ensures var noticed := Noticed(op, f);
      RestartsSettled(op, f, Terminated(Bridge(noticed, f), noticed, f).following)
  {
    var noticed := Noticed(op, f);
    var bridged := Bridge(noticed, f);
    RecoveredIsSettled(op, bridged, f);
    assert op.kind == Update ==>
      ContributionOf(Terminated(bridged, noticed, f).following) == Recovered(bridged, noticed, f).0;
  }

  /** The record that a pass ends with is the one the findings call for. */
  lemma PlanSettles(op: Operation, f: Findings)
    requires MayRecover(op, f) && PlanRecovery(op, f).Finish?
    ensures Settles(op, f, PlanRecovery(op, f).last.following)
  {
    RestartsAreSettled(op, f);
  }

  /** An owner at work, or a lookup that failed for good or that history does not answer for. */
  predicate Unanswered(op: Operation, f: Findings) {
    || (IsNative(op.kind) && f.ownerBusy)
    || f.lookupFailure == Some(MalformedError)
    || (f.history != Some(true) && f.lookupFailure.Some? && (f.evidence.None? || f.evidence.value.present))
  }

  /** The record such a pass leaves: as it was found, or noticed to be running. */
  predicate LeftAs(op: Operation, f: Findings, left: Operation) {
    if !Unanswered(op, f) && op.state in {Pending, Authorizing} && f.evidence.Some? && f.evidence.value.status == 3
    then left == op.(state := Running, detail := f.note)
    else left == op
  }

  /** A pass leaves the operation exactly when a native owner is alive, the lookup failed for good or without
      an answer from history, or PackageKit still has the transaction and history has no success. */
  lemma RecoveryLeavesIff(op: Operation, f: Findings)
    ensures PlanRecovery(op, f).Leave? <==>
      || Unanswered(op, f)
      || (f.history != Some(true) && f.evidence.Some? && f.evidence.value.state.None? && f.evidence.value.present)
    ensures PlanRecovery(op, f).Leave? ==> LeftAs(op, f, PlanRecovery(op, f).noticed)
  {}

  // ---- and accepted, in every journal a run can reach ----

  /** The timestamp recovery writes is not older than the boot's retained results. */
  ghost predicate TimestampFits(w: World, op: Operation) {
    var boot := w.store.journal.restart.bootId;
    && (IsUpdateOf(op, boot) ==> Follows(w.log, op, boot))
    && (op.kind == Refresh ==> forall u :: u in RetainedUpdates(w.store.journal) ==> Mono(u) <= Mono(op))
  }

  /** Advancing the active record keeps the journal acceptable. */
  lemma ProspectiveAccepted(w: World, expected: Operation, following: Operation)
    requires Consistent(w) && w.store.journal.active == Some(expected) && !IsTerminal(expected.state)
    requires SameIdentity(expected, following)
    requires IsTerminal(following.state) ==> TimestampFits(w, following)
    ensures Consistent(Committed(w, CommitActive(Some(following))))
    ensures CrossChecked(WithActive(w.store.journal, following))
  {
    var j, j' := w.store.journal, WithActive(w.store.journal, following);
    assert Retained(j') == Retained(j);
    forall u | u in Retained(j)
      ensures u.id != following.id
    {
      RetainedIsWindow(w.log, j, u);
    }
    assert ActiveIdSound(j');
    assert ActiveNotStale(j') by { ProspectiveNotStale(w, following); }
    AdvancedConsistent(w, expected, following);
    ConsistentAccepted(Committed(w, CommitActive(Some(following))));
  }

  lemma ProspectiveNotStale(w: World, following: Operation)
    requires RingOf(w.log, w.store.journal.terminals)
    requires IsTerminal(following.state) ==> TimestampFits(w, following)
    ensures ActiveNotStale(WithActive(w.store.journal, following))
  {
    var j, j' := w.store.journal, WithActive(w.store.journal, following);
    assert RetainedUpdates(j') == RetainedUpdates(j);
    if IsTerminal(following.state) && IsUpdateOf(following, j.restart.bootId) {
      forall u | u in RetainedUpdates(j)
        ensures Mono(u) <= Mono(following)
      {
        RetainedIsWindow(w.log, j, u);
        var i :| Oldest(w.log) <= i < |w.log| && w.log[i] == u;
        assert UpdateAt(w.log, i, j.restart.bootId);
      }
    }
  }

  /** A legal step from an accepted journal is committed if the result would be accepted. */
  lemma LegalIsCommitted(j: Journal, from: Operation, step: Advancing)
    requires Accepted(j) && j.active == Some(from) && LegalAdvance(from, step)
    requires Accepted(WithActive(j, step.following))
    ensures Advance(j, from, step.following, step.recoveryBoot) == Ok(Some(step.following))
  {}

  /** A legal step from a consistent, decodable journal is committed by advance. */
  lemma StepSucceeds(w: World, from: Operation, step: Advancing)
    requires Consistent(w) && Decoded(w.store.journal) && w.store.journal.active == Some(from)
    requires LegalAdvance(from, step) && !IsTerminal(from.state)
    requires IsTerminal(step.following.state) ==> TimestampFits(w, step.following)
    ensures Advance(w.store.journal, from, step.following, step.recoveryBoot) == Ok(Some(step.following))
    ensures Consistent(Committed(w, CommitActive(Some(step.following))))
    ensures Decoded(Committed(w, CommitActive(Some(step.following))).store.journal)
  {
    ConsistentAccepted(w);
    ProspectiveAccepted(w, from, step.following);
    CommitDecoded(w, CommitActive(Some(step.following)));
    LegalIsCommitted(w.store.journal, from, step);
  }

  // ---- a recovery pass as a run ----

  predicate SameWorld(v: World, w: World) { v == w }

  /** Consistent with decodable records; stated through a quantifier so that the solver looks
      inside only where SameWorld(w, w) is mentioned. */
  ghost predicate SoundWorld(w: World) {
    forall v {:trigger SameWorld(v, w)} :: SameWorld(v, w) ==> Consistent(v) && Decoded(v.store.journal)
  }

  lemma SoundIntro(w: World)
    requires Consistent(w) && Decoded(w.store.journal)
    ensures SoundWorld(w)
  {}

  lemma SoundElim(w: World)
    requires SoundWorld(w)
    ensures Consistent(w) && Decoded(w.store.journal)
  {
    assert SameWorld(w, w);
  }

  /** More commits than any call makes: the call is not interrupted. */
  const UNINTERRUPTED := 8

  function AdvanceEvent(from: Operation, step: Advancing): Event {
    CallEvent(AdvanceCall(from, step.following, step.recoveryBoot), UNINTERRUPTED)
  }

  lemma AdvanceEventCommits(w: World, from: Operation, step: Advancing)
    requires Advance(w.store.journal, from, step.following, step.recoveryBoot) == Ok(Some(step.following))
    ensures Next(w, AdvanceEvent(from, step)) == Committed(w, CommitActive(Some(step.following)))
  {
    SingleCommit(w, CommitActive(Some(step.following)), 1);
  }

  /** A legal move takes the active record from one step of the plan to the next; an equal record
      is already there. */
  lemma MoveSucceeds(w: World, from: Operation, step: Advancing)
    requires SoundWorld(w) && w.store.journal.active == Some(from) && !IsTerminal(from.state)
    requires step.following == from || LegalAdvance(from, step)
    requires IsTerminal(step.following.state) ==> TimestampFits(w, step.following)
    ensures Next(w, AdvanceEvent(from, step))
         == if step.following == from then w else Committed(w, CommitActive(Some(step.following)))
    ensures SoundWorld(Next(w, AdvanceEvent(from, step)))
  {
    if step.following == from {
      assert CommitsOf(w, AdvanceCall(from, step.following, step.recoveryBoot)) == [];
    } else {
      SoundElim(w);
      StepSucceeds(w, from, step);
      AdvanceEventCommits(w, from, step);
      SoundIntro(Committed(w, CommitActive(Some(step.following))));
    }
  }

  /** The journal after the recovery pass' prune. */
  function PrunedWorld(w: World, started: Option<nat>): World { Next(w, CallEvent(PruneCall(started), UNINTERRUPTED)) }

  lemma PruneEvent(w: World, started: Option<nat>)
    requires Accepted(w.store.journal) && IsBootId(w.boot) && (started.Some? ==> IsUint64(started.value))
    ensures var r := Pruned(w.store.journal.restart, w.boot, started);
      PrunedWorld(w, started) == if r == w.store.journal.restart then w else Committed(w, CommitRestart(r))
  {
    SingleCommit(w, CommitRestart(Pruned(w.store.journal.restart, w.boot, started)), 1);
  }

  lemma PrunedSound(w: World, started: Option<nat>)
    requires SoundWorld(w) && IsBootId(w.boot)
    ensures SoundWorld(Committed(w, CommitRestart(Pruned(w.store.journal.restart, w.boot, started))))
  {
    var r := Pruned(w.store.journal.restart, w.boot, started);
    assert Consistent(Committed(w, CommitRestart(r))) by {
      SoundElim(w);
      PrunedConsistent(w, started);
    }
    assert Decoded(Committed(w, CommitRestart(r)).store.journal) by {
      SoundElim(w);
      PrunedEncodable(w.store.journal.restart, w.boot, started);
      CommitDecoded(w, CommitRestart(r));
    }
    SoundIntro(Committed(w, CommitRestart(r)));
  }

  lemma SoundAccepted(w: World)
    requires SoundWorld(w)
    ensures Accepted(w.store.journal)
  {
    SoundElim(w);
    ConsistentAccepted(w);
  }

  lemma PruneSucceeds(w: World, started: Option<nat>)
    requires SoundWorld(w) && IsBootId(w.boot) && (started.Some? ==> IsUint64(started.value))
    ensures var p := PrunedWorld(w, started);
      && SoundWorld(p) && p.boot == w.boot && p.log == w.log
      && p.store.journal == w.store.journal.(restart := Pruned(w.store.journal.restart, w.boot, started))
  {
    SoundAccepted(w);
    PruneEvent(w, started);
    PrunedSound(w, started);
  }

  lemma CompletionIsShort(j: Journal, boot: Option<string>, started: Option<nat>)
    ensures |CompleteCommits(j, boot, started)| <= UNINTERRUPTED
  {}

  /** Completing a terminal record that a run can reach releases it through its handoff. */
  lemma CompleteSucceeds(w: World, op: Operation, started: Option<nat>)
    requires SoundWorld(w) && IsBootId(w.boot) && (started.Some? ==> IsUint64(started.value))
    requires w.store.journal.active == Some(op) && IsTerminal(op.state)
    ensures op.slot < |w.store.journal.terminals|
    ensures Next(w, CallEvent(CompleteCall(true, started), UNINTERRUPTED)).store.journal
         == Completed(w.store.journal, Some(w.boot), started)
  {
    var cs := CompleteCommits(w.store.journal, Some(w.boot), started);
    SoundAccepted(w);
    assert Slotted(w.store) by {
      SoundElim(w);
      ConsistentSlotted(w);
    }
    CompletionEffect(w.store, Some(w.boot), started);
    CompletionIsShort(w.store.journal, Some(w.boot), started);
    assert cs[..|cs|] == cs;
    CommittedStore(w, cs);
  }

  /** The events of a recovery pass that is not interrupted. */
  function RecoveryEvents(op: Operation, f: Findings): seq<Event> {
    var p := PlanRecovery(op, f);
    [CallEvent(PruneCall(f.sessionStarted), UNINTERRUPTED)]
    + ([AdvanceEvent(op, Advancing(p.noticed, None))]
       + if p.Leave? then []
         else [AdvanceEvent(p.noticed, Advancing(p.bridged, None))]
              + ([AdvanceEvent(p.bridged, p.last)]
                 + ([CallEvent(CompleteCall(true, f.sessionStarted), UNINTERRUPTED)] + [])))
  }

  lemma RunCons(w: World, e: Event, rest: seq<Event>)
    ensures Run(w, [e] + rest) == Run(Next(w, e), rest)
  {
    assert ([e] + rest)[1..] == rest;
  }

  /** The nonterminal advances of a plan. */
  lemma BridgeSucceeds(w: World, op: Operation, noticed: Operation, bridged: Operation) returns (end: World)
    requires SoundWorld(w) && w.store.journal.active == Some(op) && !IsTerminal(op.state)
    requires LegalOrSame(op, noticed) && LegalOrSame(noticed, bridged)
    ensures end == Next(Next(w, AdvanceEvent(op, Advancing(noticed, None))),
                        AdvanceEvent(noticed, Advancing(bridged, None)))
    ensures SoundWorld(end) && end.boot == w.boot && end.log == w.log
    ensures end.store.journal == WithActive(w.store.journal, bridged) && !IsTerminal(bridged.state)
  {
    MoveSucceeds(w, op, Advancing(noticed, None));
    var next := Next(w, AdvanceEvent(op, Advancing(noticed, None)));
    MoveSucceeds(next, noticed, Advancing(bridged, None));
    end := Next(next, AdvanceEvent(noticed, Advancing(bridged, None)));
  }

  lemma TimestampStillFits(w: World, v: World, op: Operation)
    requires TimestampFits(w, op) && v.log == w.log
    requires v.store.journal.restart == w.store.journal.restart
             && v.store.journal.terminals == w.store.journal.terminals
    ensures TimestampFits(v, op)
  {
    assert RetainedUpdates(v.store.journal) == RetainedUpdates(w.store.journal);
  }

  /** The advances of a finishing plan, from the pruned journal. */
  lemma AdvancesSucceed(w: World, op: Operation, p: Plan) returns (end: World)
    requires SoundWorld(w) && w.store.journal.active == Some(op) && !IsTerminal(op.state)
    requires p.Finish? && TimestampFits(w, p.last.following)
    requires LegalOrSame(op, p.noticed) && LegalOrSame(p.noticed, p.bridged) && LegalAdvance(p.bridged, p.last)
    ensures end == Next(Next(Next(w, AdvanceEvent(op, Advancing(p.noticed, None))),
                             AdvanceEvent(p.noticed, Advancing(p.bridged, None))),
                        AdvanceEvent(p.bridged, p.last))
    ensures SoundWorld(end) && end.boot == w.boot
    ensures end.store.journal == WithActive(w.store.journal, p.last.following)
  {
    var bridge := BridgeSucceeds(w, op, p.noticed, p.bridged);
    TimestampStillFits(w, bridge, p.last.following);
    MoveSucceeds(bridge, p.bridged, p.last);
    end := Next(bridge, AdvanceEvent(p.bridged, p.last));
  }

  /** A recovery pass that does not leave the operation alone ends, in every journal a run can
      reach, with the operation terminal in its slot and handed over, and nothing active. */
  lemma RecoveryConcludes(w: World, op: Operation, f: Findings)
    requires SoundWorld(w) && IsBootId(w.boot) && f.boot == w.boot
    requires w.store.journal.active == Some(op) && MayRecover(op, f)
    requires PlanRecovery(op, f).Finish?
    requires TimestampFits(PrunedWorld(w, f.sessionStarted), PlanRecovery(op, f).last.following)
    ensures var terminal := PlanRecovery(op, f).last.following;
      var j := WithActive(PrunedWorld(w, f.sessionStarted).store.journal, terminal);
      && IsTerminal(terminal.state) && Settles(op, f, terminal) && terminal.slot < |j.terminals|
      && Run(w, RecoveryEvents(op, f)).store.journal == Completed(j, Some(w.boot), f.sessionStarted)
  {
    var p := PlanRecovery(op, f);
    PruneSucceeds(w, f.sessionStarted);
    RecoveryIsLegal(op, f);
    PlanSettles(op, f);
    var end := AdvancesSucceed(PrunedWorld(w, f.sessionStarted), op, p);
    CompleteSucceeds(end, p.last.following, f.sessionStarted);
    FinishingRun(w, op, f);
  }

  lemma FinishingRun(w: World, op: Operation, f: Findings)
    requires PlanRecovery(op, f).Finish?
    ensures var p := PlanRecovery(op, f);
      Run(w, RecoveryEvents(op, f))
      == Next(Next(Next(Next(PrunedWorld(w, f.sessionStarted), AdvanceEvent(op, Advancing(p.noticed, None))),
                        AdvanceEvent(p.noticed, Advancing(p.bridged, None))),
                   AdvanceEvent(p.bridged, p.last)),
              CallEvent(CompleteCall(true, f.sessionStarted), UNINTERRUPTED))
  {
    var p := PlanRecovery(op, f);
    var c, d := AdvanceEvent(p.noticed, Advancing(p.bridged, None)), AdvanceEvent(p.bridged, p.last);
    var a, b, e := CallEvent(PruneCall(f.sessionStarted), UNINTERRUPTED), AdvanceEvent(op, Advancing(p.noticed, None)),
                   CallEvent(CompleteCall(true, f.sessionStarted), UNINTERRUPTED);
    FiveEvents(w, a, b, c, d, e);
  }

  lemma FiveEvents(w: World, a: Event, b: Event, c: Event, d: Event, e: Event)
    ensures Run(w, [a] + ([b] + ([c] + ([d] + ([e] + []))))) == Next(Next(Next(Next(Next(w, a), b), c), d), e)
  {
    RunCons(w, a, [b] + ([c] + ([d] + ([e] + []))));
    RunCons(Next(w, a), b, [c] + ([d] + ([e] + [])));
    RunCons(Next(Next(w, a), b), c, [d] + ([e] + []));
    RunCons(Next(Next(Next(w, a), b), c), d, [e] + []);
    RunCons(Next(Next(Next(Next(w, a), b), c), d), e, []);
  }

  /** Otherwise the operation stays active and nonterminal, for the named reason. */
  lemma RecoveryLeaves(w: World, op: Operation, f: Findings)
    requires SoundWorld(w) && IsBootId(w.boot) && f.boot == w.boot
    requires w.store.journal.active == Some(op) && MayRecover(op, f)
    requires PlanRecovery(op, f).Leave?
    ensures var p := PlanRecovery(op, f);
      && Run(w, RecoveryEvents(op, f)).store.journal.active == Some(p.noticed) && !IsTerminal(p.noticed.state)
      && LeftAs(op, f, p.noticed)
      && (p.reason == OwnerAlive <==> IsNative(op.kind) && f.ownerBusy)
      && (p.reason == LookupFailed ==> LookupBlocks(f))
      && (p.reason == StillPresent ==> !Concluded(f) && f.evidence.Some? && f.evidence.value.present)
  {
    var p := PlanRecovery(op, f);
    var a, b := CallEvent(PruneCall(f.sessionStarted), UNINTERRUPTED), AdvanceEvent(op, Advancing(p.noticed, None));
    PruneSucceeds(w, f.sessionStarted);
    RecoveryLeavesIff(op, f);
    RecoveryIsLegal(op, f);
    MoveSucceeds(PrunedWorld(w, f.sessionStarted), op, Advancing(p.noticed, None));
    RunCons(w, a, [b] + []);
    RunCons(Next(w, a), b, []);
  }

  lemma EveryRunSound(boot: string, events: seq<Event>)
    requires Text.IsBootId(boot) && AdmissibleRun(InitialWorld(boot), events)
    ensures SoundWorld(Run(InitialWorld(boot), events))
  {
    EveryRunConsistent(boot, events);
    RunDecoded(InitialWorld(boot), events);
    SoundIntro(Run(InitialWorld(boot), events));
  }

  /** After every run, a recovery pass over the active operation ends with it handed over, or
      leaves it active. */
  lemma EveryRunRecovers(boot: string, events: seq<Event>, op: Operation, f: Findings)
    requires Text.IsBootId(boot) && AdmissibleRun(InitialWorld(boot), events)
    requires var w := Run(InitialWorld(boot), events);
      && w.store.journal.active == Some(op) && MayRecover(op, f) && f.boot == w.boot
      && (PlanRecovery(op, f).Finish? ==>
          TimestampFits(PrunedWorld(w, f.sessionStarted), PlanRecovery(op, f).last.following))
    ensures var w := Run(InitialWorld(boot), events);
      var j, p := Run(w, RecoveryEvents(op, f)).store.journal, PlanRecovery(op, f);
      match p
      case Leave(_, _) => j.active == Some(p.noticed) && !IsTerminal(p.noticed.state) && LeftAs(op, f, p.noticed)
      case Finish(_, _, _) =>
        var terminal := p.last.following;
        && j.active.None? && j.handoff == Some(Handoff(op.id, op.slot))
        && op.slot < |j.terminals| && j.terminals[op.slot] == Some(terminal) && IsTerminal(terminal.state)
        && Settles(op, f, terminal)
  {
    var w, p := Run(InitialWorld(boot), events), PlanRecovery(op, f);
    EveryRunSound(boot, events);
    RunBoot(InitialWorld(boot), events);
    RecoveryIsLegal(op, f);
    if p.Leave? {
      RecoveryLeaves(w, op, f);
    } else {
      RecoveryConcludes(w, op, f);
    }
  }
}
