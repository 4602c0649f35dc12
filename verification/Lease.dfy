/** Native operations have a live owner holding a file lease. Owners and observers interleave at the
    granularity of the directory lock; any process may be killed inside any commit. */
module Lease {
  import opened Results
  import opened Lifecycle
  import opened Records
  import opened Validator
  import opened Operations
  import opened Runs
  import opened Intervals
  import opened Safety
  import opened Recovery

  /** A live owner process: its copy of the operation, whether it holds the lease, whether it has
      handed its terminal result over, and whether a checkpoint of its has failed. */
  datatype Owner = Owner(operation: Operation, leased: bool, done: bool, failed: bool)

  /** The journal, the owners, and every identity an admission was given. */
  datatype Shared = Shared(world: World, owners: map<nat, Owner>, issued: set<string>)

  datatype Step =
    | AdmitStep(p: nat, request: Request, draws: seq<string>, power: nat)
    | CheckpointStep(p: nat, state: State, detail: string, power: nat)
    | FinishStep(p: nat, state: State, finishedAt: string, errorCode: Option<ErrorCode>, detail: string, power: nat)
    | ReleaseStep(p: nat)
    | DieStep(p: nat)
    | RecoverStep(sampled: Operation, findings: Findings, power: nat)
    | ForeignStep(event: Event)

  function Active(w: World): Option<Operation> { w.store.journal.active }

  /** flock on active, as a probe through another descriptor sees it. */
  ghost predicate LeaseHeld(s: Shared) { exists p :: p in s.owners && s.owners[p].leased }

  /** NativeOperationOwner.current: the exact operation, still nonterminal. */
  predicate Current(w: World, o: Owner) {
    !o.failed && Active(w) == Some(o.operation) && !IsTerminal(o.operation.state)
  }

  // ---- the calls of each interval under the directory lock ----

  function CheckpointCalls(w: World, o: Owner, state: State, detail: string): seq<Call> {
    if Current(w, o) then [AdvanceCall(o.operation, o.operation.(state := state, detail := detail), None)] else []
  }

  function TerminalRecord(o: Owner, step: Step): Operation
    requires step.FinishStep?
  {
    o.operation.(state := step.state, finishedAt := Some(step.finishedAt), errorCode := step.errorCode,
                 detail := step.detail)
  }

  function FinishCalls(w: World, o: Owner, step: Step): seq<Call>
    requires step.FinishStep?
  {
    if Current(w, o) then [AdvanceCall(o.operation, TerminalRecord(o, step), None), CompleteCall(false, None)] else []
  }

  /** The final interval of recover_journal_active, on the operation it sampled before. */
  function RecoverCalls(w: World, held: bool, sampled: Operation, f: Findings): seq<Call> {
    match Active(w)
    case None => []
    case Some(op) =>
      if !SameIdentity(op, sampled) then []
      else if IsTerminal(op.state) then [PruneCall(f.sessionStarted), CompleteCall(true, f.sessionStarted)]
      else CallsOf(RecoveryEvents(op, f.(ownerBusy := held)))
  }

  /** Other uses of the journal: PackageKit's admissions and checkpoints, acknowledgements, and reboots. */
  predicate Foreign(e: Event) {
    match e
    case CallEvent(BeginCall(r, _), _) => !IsNative(KindOf(r.action))
    case CallEvent(AdvanceCall(expected, _, _), _) => !IsNative(expected.kind)
    case _ => true
  }

  predicate Enabled(s: Shared, step: Step) {
    match step
    case AdmitStep(p, r, _, _) => p !in s.owners && IsNative(KindOf(r.action))
    case CheckpointStep(p, state, _, _) => p in s.owners && !IsTerminal(state)
    case FinishStep(p, state, _, _, _, _) => p in s.owners && IsTerminal(state)
    case ReleaseStep(p) => p in s.owners
    case DieStep(p) => p in s.owners
    case RecoverStep(_, f, _) => f.boot == s.world.boot
    case ForeignStep(e) => Foreign(e)
  }

  /** Identities are 16 random bytes, taken never to repeat. */
  function Issued(w: World, e: Event): set<string> {
    match e
    case CallEvent(BeginCall(r, draws), _) =>
      (match Begin(w.store, r, draws) case Ok(op) => {op.id} case Err(_) => {})
    case _ => {}
  }

  function WithOwner(s: Shared, p: nat, o: Owner, world: World, alive: bool): Shared {
    s.(world := world, owners := if alive then s.owners[p := o] else s.owners - {p})
  }

  ghost function After(s: Shared, step: Step): Shared
    requires Enabled(s, step)
  {
    var w := s.world;
    match step
    case AdmitStep(p, r, draws, power) =>
      var e := CallEvent(BeginCall(r, draws), power);
      var next := s.(world := Next(w, e), issued := s.issued + Issued(w, e));
      (match Begin(w.store, r, draws)
       case Ok(op) =>
         // The lease is taken in the same interval; another live owner's lease refuses it.
         if power > 0 && !LeaseHeld(s) then next.(owners := s.owners[p := Owner(op, true, false, false)]) else next
       case Err(_) => next)
    case CheckpointStep(p, state, detail, power) =>
      var o := s.owners[p];
      var calls := CheckpointCalls(w, o, state, detail);
      var next := Interval(w, calls, power);
      var advanced := Active(next) == Some(o.operation.(state := state, detail := detail));
      WithOwner(s, p, if advanced then o.(operation := Active(next).value)
                else o.(failed := true), next, Survives(w, calls, power))
    case FinishStep(p, _, _, _, _, power) =>
      var o := s.owners[p];
      var calls := FinishCalls(w, o, step);
      var next := Interval(w, calls, power);
      WithOwner(s, p, if Active(next) == Active(w) then o else o.(done := true), next, Survives(w, calls, power))
    case ReleaseStep(p) => s.(owners := s.owners[p := s.owners[p].(leased := false)])
    case DieStep(p) => s.(owners := s.owners - {p})
    case RecoverStep(sampled, f, power) => s.(world := Interval(w, RecoverCalls(w, LeaseHeld(s), sampled, f), power))
    case ForeignStep(e) =>
      Shared(Next(w, e), if e.RebootEvent? then map[] else s.owners, s.issued + Issued(w, e))
  }

  /** What the environment promises about a step, besides Admissible of the events it makes. */
  predicate FreshIdentity(s: Shared, step: Step) {
    match step
    case AdmitStep(_, r, draws, power) => Issued(s.world, CallEvent(BeginCall(r, draws), power)) !! s.issued
    case ForeignStep(e) => Issued(s.world, e) !! s.issued
    case _ => true
  }

  // ---- the lease protects its owner ----

  /** An owner at work: it holds the lease and has not handed over. */
  predicate Working(s: Shared, p: nat) { p in s.owners && s.owners[p].leased && !s.owners[p].done }

  /** The active record of a working owner is exactly its own copy. */
  ghost predicate Owned(s: Shared, p: nat) {
    Working(s, p) ==>
      Active(s.world) == Some(s.owners[p].operation) && !IsTerminal(s.owners[p].operation.state)
      && IsNative(s.owners[p].operation.kind)
  }

  /** Live owners differ in identity, and at most one holds the lease. */
  ghost predicate Apart(s: Shared, p: nat, q: nat) {
    p in s.owners && q in s.owners && p != q ==>
      s.owners[p].operation.id != s.owners[q].operation.id && !(s.owners[p].leased && s.owners[q].leased)
  }

  ghost predicate Known(s: Shared, p: nat) { p in s.owners ==> s.owners[p].operation.id in s.issued }

  ghost predicate LeaseSound(s: Shared) {
    (forall p :: Owned(s, p)) && (forall p :: Known(s, p)) && forall p, q :: Apart(s, p, q)
  }

  /** Calls that do not advance a native operation. */
  predicate Harmless(call: Call) {
    match call
    case AdvanceCall(expected, following, _) => !IsNative(expected.kind) || following == expected
    case _ => true
  }

  predicate Live(w: World) { Active(w).Some? && !IsTerminal(Active(w).value.state) && IsNative(Active(w).value.kind) }

  lemma {:induction false} OtherCommits(w: World, cs: seq<Commit>, k: nat)
    requires k <= |cs| && forall i :: 0 <= i < |cs| ==> !cs[i].CommitActive?
    ensures Active(CommittedAll(w, cs[..k])) == Active(w)
    decreases k
  {
    if k > 0 {
      assert cs[..k][0] == cs[0] && cs[..k][1..] == cs[1..][..k - 1];
      OtherCommits(Committed(w, cs[0]), cs[1..], k - 1);
    }
  }

  lemma HarmlessCommits(w: World, call: Call)
    requires Harmless(call) && Live(w)
    ensures forall i :: 0 <= i < |CommitsOf(w, call)| ==> !CommitsOf(w, call)[i].CommitActive?
  {}

  /** While a native operation is live, only an advance of it changes it. */
  lemma HarmlessCall(w: World, call: Call, k: nat)
    requires Harmless(call) && Live(w)
    ensures Active(Next(w, CallEvent(call, k))) == Active(w)
  {
    var cs := CommitsOf(w, call);
    HarmlessCommits(w, call);
    OtherCommits(w, cs, Min(k, |cs|));
  }

  lemma HarmlessInterval(w: World, calls: seq<Call>, power: nat)
    requires Live(w) && forall c :: c in calls ==> Harmless(c)
    ensures Active(Interval(w, calls, power)) == Active(w)
  {
    var inv := (v: World) => Active(v) == Active(w);
    forall v, c, k | inv(v) && c in calls
      ensures inv(Played(JOURNAL, v, c, k))
    {
      PlayedIsNext(v, c, k);
      HarmlessCall(v, c, k);
    }
    IntervalKeeps(JOURNAL, inv, w, calls, power);
  }

  // ---- steps of the owners ----

  /** An advance commits its record or nothing. */
  lemma AdvanceOutcome(w: World, expected: Operation, following: Operation, k: nat)
    ensures var next := Next(w, CallEvent(AdvanceCall(expected, following, None), k));
      Active(next) == Active(w) || Active(next) == Some(following)
  {
    var cs := CommitsOf(w, AdvanceCall(expected, following, None));
    if cs != [] { SingleCommit(w, cs[0], Min(k, 1)); }
  }

  lemma CheckpointOutcome(w: World, o: Owner, state: State, detail: string, power: nat)
    ensures var next := Interval(w, CheckpointCalls(w, o, state, detail), power);
      Active(next) == Active(w) || Active(next) == Some(o.operation.(state := state, detail := detail))
  {
    var following := o.operation.(state := state, detail := detail);
    var inv := (v: World) => Active(v) == Active(w) || Active(v) == Some(following);
    var calls := CheckpointCalls(w, o, state, detail);
    forall v, c, k | inv(v) && c in calls
      ensures inv(Played(JOURNAL, v, c, k))
    {
      PlayedIsNext(v, c, k);
      AdvanceOutcome(v, o.operation, following, k);
    }
    IntervalKeeps(JOURNAL, inv, w, calls, power);
  }

  lemma CheckpointKeepsLease(s: Shared, p: nat, state: State, detail: string, power: nat)
    requires LeaseSound(s) && Enabled(s, CheckpointStep(p, state, detail, power))
    ensures LeaseSound(After(s, CheckpointStep(p, state, detail, power)))
  {
    var s', o := After(s, CheckpointStep(p, state, detail, power)), s.owners[p];
    CheckpointOutcome(s.world, o, state, detail, power);
    OnlyItsOwn(s, p);
    forall q
      ensures Owned(s', q)
    {
      assert Owned(s, q) && Owned(s, p);
      if q != p && Working(s, q) { assert CheckpointCalls(s.world, o, state, detail) == []; }
    }
    forall q ensures Known(s', q) { assert Known(s, q); }
    forall q, r ensures Apart(s', q, r) { assert Apart(s, q, r); }
  }

  /** An owner whose copy is current is the only one at work. */
  lemma OnlyItsOwn(s: Shared, p: nat)
    requires LeaseSound(s) && p in s.owners
    ensures Current(s.world, s.owners[p]) ==> forall q :: Working(s, q) ==> q == p
  {
    forall q | Working(s, q) && q != p
      ensures !Current(s.world, s.owners[p])
    {
      assert Owned(s, q) && Apart(s, q, p);
    }
  }

  lemma FinishKeepsLease(s: Shared, step: Step)
    requires LeaseSound(s) && step.FinishStep? && Enabled(s, step)
    ensures LeaseSound(After(s, step))
  {
    var s', p := After(s, step), step.p;
    OnlyItsOwn(s, p);
    forall q
      ensures Owned(s', q)
    {
      assert Owned(s, q) && Owned(s, p);
      if q != p && Working(s, q) { assert FinishCalls(s.world, s.owners[p], step) == []; }
    }
    forall q ensures Known(s', q) { assert Known(s, q); }
    forall q, r ensures Apart(s', q, r) { assert Apart(s, q, r); }
  }

  lemma BeginOutcome(w: World, r: Request, draws: seq<string>, power: nat)
    ensures var next := Next(w, CallEvent(BeginCall(r, draws), power));
      match Begin(w.store, r, draws)
      case Ok(op) =>
        && Active(w).None? && op.state == Pending && op.kind == KindOf(r.action)
        && Active(next) == if power > 0 then Some(op) else None
      case Err(_) => next == w
  {
    var cs := CommitsOf(w, BeginCall(r, draws));
    if cs == [] {
      assert cs[..Min(power, 0)] == [];
    } else {
      SingleCommit(w, cs[0], Min(power, 1));
    }
  }

  lemma AdmitKeepsLease(s: Shared, step: Step)
    requires LeaseSound(s) && step.AdmitStep? && Enabled(s, step) && FreshIdentity(s, step)
    ensures LeaseSound(After(s, step))
  {
    var s' := After(s, step);
    BeginOutcome(s.world, step.request, step.draws, step.power);
    forall q ensures Owned(s', q) { assert Owned(s, q); }
    forall q ensures Known(s', q) { assert Known(s, q); }
    forall q, r ensures Apart(s', q, r) { assert Apart(s, q, r) && Known(s, q) && Known(s, r); }
  }

  // ---- steps of observers and of other users ----

  lemma BusyCallsHarmless(w: World, sampled: Operation, f: Findings)
    requires Live(w)
    ensures forall c :: c in RecoverCalls(w, true, sampled, f) ==> Harmless(c)
  {
    var op, busy := Active(w).value, f.(ownerBusy := true);
    assert PlanRecovery(op, busy) == Leave(OwnerAlive, op);
    var events := RecoveryEvents(op, busy);
    assert events == [CallEvent(PruneCall(f.sessionStarted), UNINTERRUPTED), AdvanceEvent(op, Advancing(op, None))];
    assert events[1..] == [AdvanceEvent(op, Advancing(op, None))] && events[1..][1..] == [];
    assert CallsOf(events[1..]) == [AdvanceCall(op, op, None)];
    assert CallsOf(events) == [PruneCall(f.sessionStarted), AdvanceCall(op, op, None)];
  }

  /** A recovery pass leaves an operation alone while anyone holds the lease. */
  lemma RecoverSparesOwner(s: Shared, sampled: Operation, f: Findings, power: nat)
    requires LeaseHeld(s) && Live(s.world) && f.boot == s.world.boot
    ensures Active(After(s, RecoverStep(sampled, f, power)).world) == Active(s.world)
  {
    BusyCallsHarmless(s.world, sampled, f);
    HarmlessInterval(s.world, RecoverCalls(s.world, true, sampled, f), power);
  }

  lemma RecoverKeepsLease(s: Shared, sampled: Operation, f: Findings, power: nat)
    requires LeaseSound(s) && f.boot == s.world.boot
    ensures LeaseSound(After(s, RecoverStep(sampled, f, power)))
  {
    var s' := After(s, RecoverStep(sampled, f, power));
    forall q ensures Owned(s', q) {
      assert Owned(s, q);
      if Working(s, q) { RecoverSparesOwner(s, sampled, f, power); }
    }
    forall q ensures Known(s', q) { assert Known(s, q); }
    forall q, r ensures Apart(s', q, r) { assert Apart(s, q, r); }
  }

  lemma ForeignKeepsLease(s: Shared, e: Event)
    requires LeaseSound(s) && Foreign(e)
    ensures LeaseSound(After(s, ForeignStep(e)))
  {
    var s' := After(s, ForeignStep(e));
    forall q ensures Owned(s', q) {
      assert Owned(s, q);
      if e.CallEvent? && Working(s, q) { HarmlessCall(s.world, e.call, e.survived); }
    }
    forall q ensures Known(s', q) { assert Known(s, q); }
    forall q, r ensures Apart(s', q, r) { assert Apart(s, q, r); }
  }

  lemma LeavingKeepsLease(s: Shared, step: Step)
    requires LeaseSound(s) && Enabled(s, step) && (step.ReleaseStep? || step.DieStep?)
    ensures LeaseSound(After(s, step))
  {
    var s' := After(s, step);
    forall q ensures Owned(s', q) { assert Owned(s, q); }
    forall q ensures Known(s', q) { assert Known(s, q); }
    forall q, r ensures Apart(s', q, r) { assert Apart(s, q, r); }
  }

  /** Every step of anyone keeps the lease sound: at most one owner is at work, and what is active is its own copy. */
  lemma StepKeepsLease(s: Shared, step: Step)
    requires LeaseSound(s) && Enabled(s, step) && FreshIdentity(s, step)
    ensures LeaseSound(After(s, step))
  {
    match step {
      case AdmitStep(_, _, _, _) => AdmitKeepsLease(s, step);
      case CheckpointStep(p, state, detail, power) => CheckpointKeepsLease(s, p, state, detail, power);
      case FinishStep(_, _, _, _, _, _) => FinishKeepsLease(s, step);
      case RecoverStep(sampled, f, power) => RecoverKeepsLease(s, sampled, f, power);
      case ForeignStep(e) => ForeignKeepsLease(s, e);
      case _ => LeavingKeepsLease(s, step);
    }
  }

  // ---- an owner that was superseded never commits again ----

  /** The operation with this identity is not being worked on. */
  predicate Past(w: World, id: string) {
    Active(w).Some? && Active(w).value.id == id ==> IsTerminal(Active(w).value.state)
  }

  /** It was admitted, and is over. */
  predicate Over(s: Shared, id: string) { id in s.issued && Past(s.world, id) }

  /** Commits of the active record only ever clear it. */
  predicate Clearing(cs: seq<Commit>) { forall i :: 0 <= i < |cs| && cs[i].CommitActive? ==> cs[i].active.None? }

  lemma RingClears(j: Journal, op: Operation)
    ensures Clearing(RingCommits(j, op))
  {
    assert Clearing(HandoffCommits(j.handoff, op));
    assert Clearing(CursorCommits(j.cursor, j.handoff, op));
  }

  lemma RestartClears(r: Restart, op: Operation, boot: Option<string>, started: Option<nat>)
    ensures Clearing(RestartPart(r, op, boot, started))
  {}

  lemma ClearingConcat(a: seq<Commit>, b: seq<Commit>)
    requires Clearing(a) && Clearing(b)
    ensures Clearing(a + b)
  {}

  lemma CompletionClears(w: World, evidence: bool, started: Option<nat>)
    ensures Clearing(CommitsOf(w, CompleteCall(evidence, started)))
  {
    if Active(w).Some? {
      var j, boot := w.store.journal, if evidence then Some(w.boot) else None;
      RestartClears(j.restart, j.active.value, boot, started);
      RingClears(j, j.active.value);
      ClearingConcat(RestartPart(j.restart, j.active.value, boot, started), RingCommits(j, j.active.value));
    }
  }

  lemma {:induction false} ClearingCommits(w: World, cs: seq<Commit>, k: nat)
    requires k <= |cs| && Clearing(cs)
    ensures var after := CommittedAll(w, cs[..k]); Active(after) == Active(w) || Active(after) == None
    decreases k
  {
    if k > 0 {
      assert cs[..k][0] == cs[0] && cs[..k][1..] == cs[1..][..k - 1];
      ClearingCommits(Committed(w, cs[0]), cs[1..], k - 1);
    }
  }

  /** No call makes an operation nonterminal again under an identity that is past. */
  lemma CallKeepsPast(w: World, call: Call, k: nat, id: string)
    requires Past(w, id) && id !in Issued(w, CallEvent(call, k))
    ensures Past(Next(w, CallEvent(call, k)), id)
  {
    var cs := CommitsOf(w, call);
    match call {
      case BeginCall(r, draws) => BeginOutcome(w, r, draws, k);
      case AdvanceCall(expected, following, boot) =>
        if cs == [] { assert cs[..Min(k, 0)] == []; } else { SingleCommit(w, cs[0], Min(k, 1)); }
      case CompleteCall(evidence, started) =>
        CompletionClears(w, evidence, started);
        ClearingCommits(w, cs, Min(k, |cs|));
      case _ =>
        ClearingCommits(w, cs, Min(k, |cs|));
    }
  }

  predicate NoAdmission(calls: seq<Call>) { forall c :: c in calls ==> !c.BeginCall? }

  lemma IntervalKeepsPast(w: World, calls: seq<Call>, power: nat, id: string)
    requires Past(w, id) && NoAdmission(calls)
    ensures Past(Interval(w, calls, power), id)
  {
    var inv := (v: World) => Past(v, id);
    forall v, c, k | inv(v) && c in calls
      ensures inv(Played(JOURNAL, v, c, k))
    {
      PlayedIsNext(v, c, k);
      CallKeepsPast(v, c, k, id);
    }
    IntervalKeeps(JOURNAL, inv, w, calls, power);
  }

  lemma {:induction false} CallsOfEvents(events: seq<Event>)
    requires forall e :: e in events ==> e.CallEvent? ==> !e.call.BeginCall?
    ensures NoAdmission(CallsOf(events))
    decreases events
  {
    if events != [] {
      assert events[0] in events;
      CallsOfEvents(events[1..]);
    }
  }

  lemma RecoverAdmitsNothing(w: World, held: bool, sampled: Operation, f: Findings)
    ensures NoAdmission(RecoverCalls(w, held, sampled, f))
  {
    if Active(w).Some? { CallsOfEvents(RecoveryEvents(Active(w).value, f.(ownerBusy := held))); }
  }

  lemma StepKeepsOver(s: Shared, step: Step, id: string)
    requires Over(s, id) && Enabled(s, step) && FreshIdentity(s, step)
    ensures Over(After(s, step), id)
  {
    var w := s.world;
    match step {
      case AdmitStep(p, r, draws, power) => CallKeepsPast(w, BeginCall(r, draws), power, id);
      case CheckpointStep(p, state, detail, power) =>
        IntervalKeepsPast(w, CheckpointCalls(w, s.owners[p], state, detail), power, id);
      case FinishStep(p, _, _, _, _, power) => IntervalKeepsPast(w, FinishCalls(w, s.owners[p], step), power, id);
      case RecoverStep(sampled, f, power) =>
        RecoverAdmitsNothing(w, LeaseHeld(s), sampled, f);
        IntervalKeepsPast(w, RecoverCalls(w, LeaseHeld(s), sampled, f), power, id);
      case ForeignStep(e) => if e.CallEvent? { CallKeepsPast(w, e.call, e.survived, id); }
      case _ =>
    }
  }

  ghost function AfterAll(s: Shared, steps: seq<Step>): Shared
    requires Possible(s, steps)
    decreases steps
  {
    if steps == [] then s else AfterAll(After(s, steps[0]), steps[1..])
  }

  /** Each step is enabled where it is taken, and admissions draw identities never used before. */
  ghost predicate Possible(s: Shared, steps: seq<Step>)
    decreases steps
  {
    steps == [] || (Enabled(s, steps[0]) && FreshIdentity(s, steps[0]) && Possible(After(s, steps[0]), steps[1..]))
  }

  /** Once an operation is over, whatever happens next, an owner that still holds a copy of it commits
      nothing: neither a checkpoint nor a finish of its makes a call. */
  lemma {:induction false} SupersededOwnerStops(s: Shared, steps: seq<Step>, id: string)
    requires Over(s, id) && Possible(s, steps)
    ensures Over(AfterAll(s, steps), id)
    ensures forall o: Owner, state, detail :: o.operation.id == id ==>
      CheckpointCalls(AfterAll(s, steps).world, o, state, detail) == []
    ensures forall o: Owner, step: Step :: o.operation.id == id && step.FinishStep? ==>
      FinishCalls(AfterAll(s, steps).world, o, step) == []
    decreases steps
  {
    if steps != [] {
      StepKeepsOver(s, steps[0], id);
      SupersededOwnerStops(After(s, steps[0]), steps[1..], id);
    }
  }

  /** An owner whose checkpoint was refused makes no further call while it lives. */
  lemma {:induction false} FailedOwnerStops(s: Shared, steps: seq<Step>, p: nat)
    requires (p in s.owners ==> s.owners[p].failed) && Possible(s, steps)
    requires forall step :: step in steps && step.AdmitStep? ==> step.p != p
    ensures var t := AfterAll(s, steps);
      p in t.owners ==>
        && t.owners[p].failed
        && (forall state, detail :: CheckpointCalls(t.world, t.owners[p], state, detail) == [])
        && (forall step: Step :: step.FinishStep? ==> FinishCalls(t.world, t.owners[p], step) == [])
    decreases steps
  {
    if steps != [] { FailedOwnerStops(After(s, steps[0]), steps[1..], p); }
  }

  // ---- an operation whose owner died is concluded ----

  lemma CallIsShort(w: World, call: Call)
    ensures |CommitsOf(w, call)| <= UNINTERRUPTED
  {}

  /** An interval that the process survives is the run of its calls. */
  lemma SurvivedInterval(w: World, events: seq<Event>, power: nat)
    requires forall e :: e in events ==> e.CallEvent? && e.survived == UNINTERRUPTED
    requires Survives(w, CallsOf(events), power)
    ensures Interval(w, CallsOf(events), power) == Run(w, events)
  {
    SurvivorPlaysAll(JOURNAL, w, CallsOf(events), power);
    forall v, c ensures |Made(JOURNAL, v, c)| <= UNINTERRUPTED { CallIsShort(v, c); }
    PlayedAllIsRun(w, events, UNINTERRUPTED);
  }

  lemma RecoveryEventsUninterrupted(op: Operation, f: Findings)
    ensures forall e :: e in RecoveryEvents(op, f) ==> e.CallEvent? && e.survived == UNINTERRUPTED
  {}

  /** What a recovery pass brings for a native operation: no PackageKit evidence of any kind. */
  predicate NativeFindings(f: Findings) { f.evidence.None? && f.history.None? && f.lookupFailure.None? }

  /** When no one holds the lease, a recovery pass that survives writes the operation off as
      interrupted and hands it over; its owner, if one still runs, is superseded. */
  lemma DeadOwnerConcluded(s: Shared, op: Operation, sampled: Operation, f: Findings, power: nat)
    requires SoundWorld(s.world) && Text.IsBootId(s.world.boot) && f.boot == s.world.boot
    requires Active(s.world) == Some(op) && Live(s.world) && SameIdentity(op, sampled) && op.id in s.issued
    requires !LeaseHeld(s) && NativeFindings(f) && MayRecover(op, f.(ownerBusy := false))
    requires Survives(s.world, RecoverCalls(s.world, false, sampled, f), power)
    ensures var after := After(s, RecoverStep(sampled, f, power));
      var j := after.world.store.journal;
      && j.active.None? && j.handoff == Some(Handoff(op.id, op.slot))
      && op.slot < |j.terminals| && j.terminals[op.slot].Some?
      && j.terminals[op.slot].value.id == op.id && j.terminals[op.slot].value.state == Interrupted
      && Over(after, op.id)
  {
    assert RecoverCalls(s.world, false, sampled, f) == CallsOf(RecoveryEvents(op, f.(ownerBusy := false)));
    WriteOffSurvives(s.world, op, f.(ownerBusy := false), power);
    RecoverAfter(s, sampled, f, power);
  }

  lemma RecoverAfter(s: Shared, sampled: Operation, f: Findings, power: nat)
    requires f.boot == s.world.boot
    ensures After(s, RecoverStep(sampled, f, power))
         == s.(world := Interval(s.world, RecoverCalls(s.world, LeaseHeld(s), sampled, f), power))
  {}

  lemma WriteOffSurvives(w: World, op: Operation, f: Findings, power: nat)
    requires SoundWorld(w) && Text.IsBootId(w.boot) && f.boot == w.boot && Active(w) == Some(op) && Live(w)
    requires NativeFindings(f) && !f.ownerBusy && MayRecover(op, f)
    requires Survives(w, CallsOf(RecoveryEvents(op, f)), power)
    ensures var j := Interval(w, CallsOf(RecoveryEvents(op, f)), power).store.journal;
      && j.active.None? && j.handoff == Some(Handoff(op.id, op.slot))
      && op.slot < |j.terminals| && j.terminals[op.slot].Some?
      && j.terminals[op.slot].value.id == op.id && j.terminals[op.slot].value.state == Interrupted
  {
    var p := PlanRecovery(op, f);
    RecoveryIsLegal(op, f);
    assert p.Finish? && p.last.following.state == Interrupted && p.last.following.kind == op.kind;
    RecoveryConcludes(w, op, f);
    RecoveryEventsUninterrupted(op, f);
    SurvivedInterval(w, RecoveryEvents(op, f), power);
  }

  function SettlingEvents(started: Option<nat>): seq<Event> {
    [CallEvent(PruneCall(started), UNINTERRUPTED)] + ([CallEvent(CompleteCall(true, started), UNINTERRUPTED)] + [])
  }

  lemma SettlingCalls(started: Option<nat>)
    ensures CallsOf(SettlingEvents(started)) == [PruneCall(started), CompleteCall(true, started)]
    ensures forall e :: e in SettlingEvents(started) ==> e.CallEvent? && e.survived == UNINTERRUPTED
  {
    var events := SettlingEvents(started);
    assert events[1..] == [CallEvent(CompleteCall(true, started), UNINTERRUPTED)] && events[1..][1..] == [];
    assert CallsOf(events[1..]) == [CompleteCall(true, started)];
  }

  lemma SettlingConcludes(w: World, op: Operation, started: Option<nat>)
    requires SoundWorld(w) && Text.IsBootId(w.boot) && (started.Some? ==> IsUint64(started.value))
    requires Active(w) == Some(op) && IsTerminal(op.state)
    ensures var j := Run(w, SettlingEvents(started)).store.journal;
      && j.active.None? && j.handoff == Some(Handoff(op.id, op.slot))
      && op.slot < |j.terminals| && j.terminals[op.slot] == Some(op)
  {
    var prune, complete := CallEvent(PruneCall(started), UNINTERRUPTED),
        CallEvent(CompleteCall(true, started), UNINTERRUPTED);
    PruneSucceeds(w, started);
    CompleteSucceeds(PrunedWorld(w, started), op, started);
    RunCons(w, prune, [complete] + []);
    RunCons(PrunedWorld(w, started), complete, []);
  }

  /** When the owner died after its terminal checkpoint, the pass hands over the owner's own result. */
  lemma DeadFinishConcluded(s: Shared, op: Operation, sampled: Operation, f: Findings, power: nat)
    requires SoundWorld(s.world) && Text.IsBootId(s.world.boot) && f.boot == s.world.boot
    requires f.sessionStarted.Some? ==> IsUint64(f.sessionStarted.value)
    requires Active(s.world) == Some(op) && IsTerminal(op.state) && SameIdentity(op, sampled) && op.id in s.issued
    requires Survives(s.world, RecoverCalls(s.world, LeaseHeld(s), sampled, f), power)
    ensures var after := After(s, RecoverStep(sampled, f, power));
      var j := after.world.store.journal;
      && j.active.None? && j.handoff == Some(Handoff(op.id, op.slot))
      && op.slot < |j.terminals| && j.terminals[op.slot] == Some(op)
      && Over(after, op.id)
  {
    SettlingCalls(f.sessionStarted);
    assert RecoverCalls(s.world, LeaseHeld(s), sampled, f) == CallsOf(SettlingEvents(f.sessionStarted));
    SettlingSurvives(s.world, op, f.sessionStarted, power);
    RecoverAfter(s, sampled, f, power);
  }

  lemma SettlingSurvives(w: World, op: Operation, started: Option<nat>, power: nat)
    requires SoundWorld(w) && Text.IsBootId(w.boot) && (started.Some? ==> IsUint64(started.value))
    requires Active(w) == Some(op) && IsTerminal(op.state) && Survives(w, CallsOf(SettlingEvents(started)), power)
    ensures var j := Interval(w, CallsOf(SettlingEvents(started)), power).store.journal;
      && j.active.None? && j.handoff == Some(Handoff(op.id, op.slot))
      && op.slot < |j.terminals| && j.terminals[op.slot] == Some(op)
  {
    SettlingCalls(started);
    SettlingConcludes(w, op, started);
    SurvivedInterval(w, SettlingEvents(started), power);
  }

  // ---- every interleaving ----

  /** Every call of an interval is admissible where it is made. */
  ghost predicate IntervalAdmissible(w: World, calls: seq<Call>) {
    AllowedAll(JOURNAL, (v: World, c: Call) => Admissible(v, CallEvent(c, 0)), w, calls)
  }

  ghost function StepCalls(s: Shared, step: Step): seq<Call>
    requires Enabled(s, step)
  {
    match step
    case AdmitStep(_, r, draws, _) => [BeginCall(r, draws)]
    case CheckpointStep(p, state, detail, _) => CheckpointCalls(s.world, s.owners[p], state, detail)
    case FinishStep(p, _, _, _, _, _) => FinishCalls(s.world, s.owners[p], step)
    case RecoverStep(sampled, f, _) => RecoverCalls(s.world, LeaseHeld(s), sampled, f)
    case _ => []
  }

  ghost predicate StepAdmissible(s: Shared, step: Step)
    requires Enabled(s, step)
  {
    match step
    case AdmitStep(_, r, draws, power) => Admissible(s.world, CallEvent(BeginCall(r, draws), power))
    case CheckpointStep(_, _, _, _) => IntervalAdmissible(s.world, StepCalls(s, step))
    case FinishStep(_, _, _, _, _, _) => IntervalAdmissible(s.world, StepCalls(s, step))
    case RecoverStep(_, _, _) => IntervalAdmissible(s.world, StepCalls(s, step))
    case ForeignStep(e) => Admissible(s.world, e)
    case _ => true
  }

  ghost predicate Steady(w: World) { SoundWorld(w) && Text.IsBootId(w.boot) }

  lemma EventKeepsSteady(w: World, e: Event)
    requires Steady(w) && Admissible(w, e)
    ensures Steady(Next(w, e))
  {
    SoundElim(w);
    EventKeeps(w, e);
    EventDecoded(w, e);
    SoundIntro(Next(w, e));
  }

  lemma IntervalKeepsSteady(w: World, calls: seq<Call>, power: nat)
    requires Steady(w) && IntervalAdmissible(w, calls)
    ensures Steady(Interval(w, calls, power))
  {
    var inv, allowed := (v: World) => Steady(v), (v: World, c: Call) => Admissible(v, CallEvent(c, 0));
    forall v, c, k | inv(v) && allowed(v, c)
      ensures inv(Played(JOURNAL, v, c, k))
    {
      PlayedIsNext(v, c, k);
      EventKeepsSteady(v, CallEvent(c, k));
    }
    AllowedIntervalKeeps(JOURNAL, inv, allowed, w, calls, power);
  }

  lemma StepKeepsSteady(s: Shared, step: Step)
    requires Steady(s.world) && Enabled(s, step) && StepAdmissible(s, step)
    ensures Steady(After(s, step).world)
  {
    match step {
      case AdmitStep(_, r, draws, power) => EventKeepsSteady(s.world, CallEvent(BeginCall(r, draws), power));
      case CheckpointStep(_, _, _, power) => IntervalKeepsSteady(s.world, StepCalls(s, step), power);
      case FinishStep(_, _, _, _, _, power) => IntervalKeepsSteady(s.world, StepCalls(s, step), power);
      case RecoverStep(_, _, power) => IntervalKeepsSteady(s.world, StepCalls(s, step), power);
      case ForeignStep(e) => EventKeepsSteady(s.world, e);
      case _ =>
    }
  }

  ghost predicate AllAdmissible(s: Shared, steps: seq<Step>)
    requires Possible(s, steps)
    decreases steps
  {
    steps == [] || (StepAdmissible(s, steps[0]) && AllAdmissible(After(s, steps[0]), steps[1..]))
  }

  lemma {:induction false} StepsKeep(s: Shared, steps: seq<Step>)
    requires LeaseSound(s) && Steady(s.world) && Possible(s, steps) && AllAdmissible(s, steps)
    ensures LeaseSound(AfterAll(s, steps)) && Steady(AfterAll(s, steps).world)
    decreases steps
  {
    if steps != [] {
      StepKeepsLease(s, steps[0]);
      StepKeepsSteady(s, steps[0]);
      StepsKeep(After(s, steps[0]), steps[1..]);
    }
  }

  function InitialShared(boot: string): Shared { Shared(InitialWorld(boot), map[], {}) }

  /** After every interleaving of owners, observers, other users, kills and reboots, the journal is
      sound, and what an owner at work holds is exactly what is active: no one else has touched it. */
  lemma EveryInterleavingSafe(boot: string, steps: seq<Step>, p: nat)
    requires Text.IsBootId(boot) && Possible(InitialShared(boot), steps) && AllAdmissible(InitialShared(boot), steps)
    ensures var s := AfterAll(InitialShared(boot), steps);
      && SoundWorld(s.world)
      && (Working(s, p) ==> Active(s.world) == Some(s.owners[p].operation) && !IsTerminal(s.owners[p].operation.state))
  {
    assert Run(InitialWorld(boot), []) == InitialWorld(boot);
    EveryRunSound(boot, []);
    StepsKeep(InitialShared(boot), steps);
    assert Owned(AfterAll(InitialShared(boot), steps), p);
  }
}
