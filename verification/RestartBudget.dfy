/** What one admission may cost the restart file within a boot: each bucket is pruned at most once,
    or the record of another boot cleared, and one further commit applies the operation. */
module RestartBudget {
  import opened Results
  import opened Lifecycle
  import Text
  import opened Records
  import opened Validator
  import opened Operations
  import opened Runs
  import opened Resumption

  function Buckets(r: Restart): (n: nat)
    ensures n <= 2
  {
    (if r.session != NoSession || r.sessionCutoff != 0 then 1 else 0)
    + if r.application || r.applicationCutoff != 0 then 1 else 0
  }

  /** Prunes that may still commit in this boot. */
  function PruneLeft(r: Restart, boot: string): (n: nat)
    ensures n <= 2
  {
    if r.bootId != boot then 1 else Buckets(r)
  }

  /** The operation is an update of this boot whose contribution is still to come. */
  predicate Awaiting(j: Journal, boot: string) {
    j.active.Some? && j.active.value.kind == Update && j.active.value.bootId == Some(boot)
    && j.restart.lastApplied != Some(j.active.value.id)
  }

  /** Commits the restart file may still take, up to the one that applies the operation. */
  function RestartLeft(j: Journal, boot: string): (n: nat)
    ensures n <= 3
  {
    PruneLeft(j.restart, boot) + if Awaiting(j, boot) then 1 else 0
  }

  /** The admitted operation is the active one, or over. */
  predicate Only(j: Journal, id: string) { j.active.Some? ==> j.active.value.id == id }

  predicate Unapplied(j: Journal, id: string) { j.restart.lastApplied != Some(id) }

  /** Before the apply commit, what is spent and what is left stay within the budget; after it, it stays applied. */
  predicate InBudget(w: World, id: string, base: nat) {
    var j := w.store.journal;
    Only(j, id)
    && if Unapplied(j, id) then w.store.sequences.restart + RestartLeft(j, w.boot) <= base
       else j.restart.bootId == w.boot
  }

  lemma PruneSpendsRestart(r: Restart, boot: string, started: Option<nat>)
    ensures Pruned(r, boot, started) != r ==> PruneLeft(Pruned(r, boot, started), boot) < PruneLeft(r, boot)
    ensures Pruned(r, boot, started).bootId == boot
    ensures Pruned(r, boot, started).lastApplied == if r.bootId == boot then r.lastApplied else None
  {}

  /** One restart commit: a prune, or the contribution of the active operation. */
  lemma RestartCommitInBudget(w: World, id: string, base: nat, started: Option<nat>, r: Restart)
    requires InBudget(w, id, base)
    requires var before := w.store.journal.restart;
      || (r == Pruned(before, w.boot, started) && r != before)
      || (Awaiting(w.store.journal, w.boot) && before.bootId == w.boot
          && r == Contributed(before, w.store.journal.active.value, started))
    ensures var v := Committed(w, CommitRestart(r));
      InBudget(v, id, base) && (Unapplied(w.store.journal, id) ==> v.store.sequences.restart <= base)
  {
    PruneSpendsRestart(w.store.journal.restart, w.boot, started);
  }

  /** Commits elsewhere cost nothing. */
  lemma OtherCommitInBudget(w: World, id: string, base: nat, c: Commit)
    requires InBudget(w, id, base) && !c.CommitRestart?
    requires c.CommitActive? && c.active.Some? ==>
      w.store.journal.active.Some? && SameIdentity(w.store.journal.active.value, c.active.value)
    ensures InBudget(Committed(w, c), id, base)
    ensures Committed(w, c).store.sequences.restart == w.store.sequences.restart
  {}

  /** The first commit of a completion. */
  lemma CompleteStepInBudget(w: World, id: string, base: nat, boot: Option<string>, started: Option<nat>)
    requires Slotted(w.store) && InBudget(w, id, base) && (boot.Some? ==> boot.value == w.boot)
    requires CompleteCommits(w.store.journal, boot, started) != []
    ensures var v := Committed(w, CompleteCommits(w.store.journal, boot, started)[0]);
      InBudget(v, id, base) && Slotted(v.store)
      && (Unapplied(w.store.journal, id) ==> v.store.sequences.restart <= base)
  {
    var j := w.store.journal;
    var first, ring := RestartPart(j.restart, j.active.value, boot, started), RingCommits(j, j.active.value);
    if first == [] {
      assert first + ring == ring;
      RingResumes(w.store, j.active.value);
      OtherCommitInBudget(w, id, base, ring[0]);
    } else {
      assert (first + ring)[0] == first[0];
      RestartCommitInBudget(w, id, base, started, first[0].restart);
    }
  }

  lemma {:induction false} CompleteInBudget(w: World, id: string, base: nat, boot: Option<string>, started: Option<nat>,
                                            k: nat)
    requires Slotted(w.store) && InBudget(w, id, base) && (boot.Some? ==> boot.value == w.boot)
    requires k <= |CompleteCommits(w.store.journal, boot, started)|
    ensures var v := CommittedAll(w, CompleteCommits(w.store.journal, boot, started)[..k]);
      InBudget(v, id, base) && Slotted(v.store) && v.boot == w.boot
    decreases k
  {
    if k > 0 {
      var cs := CompleteCommits(w.store.journal, boot, started);
      CompleteStepInBudget(w, id, base, boot, started);
      ResumeStep(w.store, boot, started);
      PrefixTail(cs, k);
      CompleteInBudget(Committed(w, cs[0]), id, base, boot, started, k - 1);
    }
  }

  /** A call, stopped after any number of its commits. */
  lemma CallInBudget(w: World, call: Call, id: string, base: nat, k: nat)
    requires Slotted(w.store) && InBudget(w, id, base) && !call.BeginCall? && k <= |CommitsOf(w, call)|
    ensures var v := CommittedAll(w, CommitsOf(w, call)[..k]);
      InBudget(v, id, base) && v.boot == w.boot && Slotted(v.store)
  {
    var cs := CommitsOf(w, call);
    if cs != [] {
      match call {
        case CompleteCall(evidence, started) => CompleteInBudget(w, id, base, if evidence then Some(w.boot)
                                                                 else None, started, k);
        case BeginCall(_, _) =>
        case _ =>
          SingleInBudget(w, call, id, base);
          SingleCommit(w, cs[0], k);
      }
    }
  }

  lemma SingleInBudget(w: World, call: Call, id: string, base: nat)
    requires Slotted(w.store) && InBudget(w, id, base) && !call.BeginCall? && !call.CompleteCall?
             && CommitsOf(w, call) != []
    ensures var cs := CommitsOf(w, call); var v := Committed(w, cs[0]);
      && cs == [cs[0]] && InBudget(v, id, base) && v.boot == w.boot && Slotted(v.store)
      && (Unapplied(w.store.journal, id) ==> v.store.sequences.restart <= base)
  {
    var c := CommitsOf(w, call)[0];
    match call {
      case PruneCall(started) => RestartCommitInBudget(w, id, base, started,
                                                       Pruned(w.store.journal.restart, w.boot, started));
      case _ => OtherCommitInBudget(w, id, base, c);
    }
  }

  predicate WithinBoot(e: Event) { e.CallEvent? && !e.call.BeginCall? }

  lemma {:induction false} RunInBudget(w: World, events: seq<Event>, id: string, base: nat)
    requires Slotted(w.store) && InBudget(w, id, base) && forall e :: e in events ==> WithinBoot(e)
    ensures var v := Run(w, events); InBudget(v, id, base) && v.boot == w.boot && Slotted(v.store)
    decreases events
  {
    if events != [] {
      var e := events[0];
      assert WithinBoot(e);
      CallInBudget(w, e.call, id, base, Min(e.survived, |CommitsOf(w, e.call)|));
      RunInBudget(Next(w, e), events[1..], id, base);
    }
  }

  /** The world after an admission, what followed it in the boot, and the first k commits of one more call. */
  function Reached(w: World, r: Request, draws: seq<string>, events: seq<Event>, call: Call, k: nat): World
    requires k <= |CommitsOf(Run(w, [CallEvent(BeginCall(r, draws), 1)] + events), call)|
  {
    var v := Run(w, [CallEvent(BeginCall(r, draws), 1)] + events);
    CommittedAll(v, CommitsOf(v, call)[..k])
  }

  lemma BegunInBudget(w: World, r: Request, draws: seq<string>)
    requires Slotted(w.store) && Begin(w.store, r, draws).Ok?
    ensures var op, v := Begin(w.store, r, draws).value, Next(w, CallEvent(BeginCall(r, draws), 1));
      Slotted(v.store) && InBudget(v, op.id, w.store.sequences.restart + 3) && v.boot == w.boot
  {
    var op := Begin(w.store, r, draws).value;
    SingleCommit(w, CommitActive(Some(op)), 1);
    FreshIsNew(draws, RetainedIds(w.store.journal));
  }

  lemma {:induction false} FreshIsNew(draws: seq<string>, taken: set<string>)
    ensures FreshId(draws, taken).Some? ==> FreshId(draws, taken).value !in taken
  {
    if draws != [] && draws[0] in taken { FreshIsNew(draws[1..], taken); }
  }

  lemma ReachedInBudget(w: World, r: Request, draws: seq<string>, events: seq<Event>, call: Call, k: nat)
    requires Slotted(w.store) && Begin(w.store, r, draws).Ok?
    requires (forall e :: e in events ==> WithinBoot(e)) && !call.BeginCall?
    requires k <= |CommitsOf(Run(w, [CallEvent(BeginCall(r, draws), 1)] + events), call)|
    ensures var v := Reached(w, r, draws, events, call, k);
      InBudget(v, Begin(w.store, r, draws).value.id, w.store.sequences.restart + 3) && Slotted(v.store)
  {
    var begin, id, base := CallEvent(BeginCall(r, draws), 1), Begin(w.store, r, draws).value.id,
        w.store.sequences.restart + 3;
    BegunInBudget(w, r, draws);
    assert ([begin] + events)[1..] == events;
    RunInBudget(Next(w, begin), events, id, base);
    CallInBudget(Run(w, [begin] + events), call, id, base, k);
  }

  /** The commit behind the first k of a call, while the operation is not applied. */
  lemma NextCommitInBudget(w: World, call: Call, id: string, base: nat, k: nat)
    requires Slotted(w.store) && InBudget(w, id, base) && !call.BeginCall? && k < |CommitsOf(w, call)|
    requires Unapplied(CommittedAll(w, CommitsOf(w, call)[..k]).store.journal, id)
    ensures CommittedAll(w, CommitsOf(w, call)[..k + 1]).store.sequences.restart <= base
  {
    var cs := CommitsOf(w, call);
    var v := CommittedAll(w, cs[..k]);
    CallInBudget(w, call, id, base, k);
    if call.CompleteCall? {
      var boot := if call.bootEvidence then Some(w.boot) else None;
      CompleteResumes(w.store, boot, call.sessionStarted, k);
      CommittedStore(w, cs[..k]);
      CompleteStepInBudget(v, id, base, boot, call.sessionStarted);
      CommittedSnoc(w, cs, k);
    } else {
      SingleInBudget(w, call, id, base);
      assert k == 0 && cs[..0] == [];
      SingleCommit(w, cs[0], 1);
    }
  }

  /** From one admission, over whatever calls and crashes follow within the boot, restart takes at most
      three commits up to and including the one that applies the operation. */
  lemma RestartCommitBudget(w: World, r: Request, draws: seq<string>, events: seq<Event>, call: Call, k: nat)
    requires Slotted(w.store) && Begin(w.store, r, draws).Ok?
    requires (forall e :: e in events ==> WithinBoot(e)) && !call.BeginCall?
    requires k < |CommitsOf(Run(w, [CallEvent(BeginCall(r, draws), 1)] + events), call)|
    requires Unapplied(Reached(w, r, draws, events, call, k).store.journal, Begin(w.store, r, draws).value.id)
    ensures Reached(w, r, draws, events, call, k).store.sequences.restart <= w.store.sequences.restart + 3
    ensures Reached(w, r, draws, events, call, k + 1).store.sequences.restart <= w.store.sequences.restart + 3
  {
    var v, id := Run(w, [CallEvent(BeginCall(r, draws), 1)] + events), Begin(w.store, r, draws).value.id;
    ReachedInBudget(w, r, draws, events, call, 0);
    assert CommitsOf(v, call)[..0] == [];
    ReachedInBudget(w, r, draws, events, call, k);
    NextCommitInBudget(v, call, id, w.store.sequences.restart + 3, k);
  }

  /** So the headroom that admission demands of restart gives each of those commits room. */
  lemma RestartHasRoom(w: World, r: Request, draws: seq<string>, events: seq<Event>, call: Call, k: nat)
    requires Slotted(w.store) && Begin(w.store, r, draws).Ok?
    requires (forall e :: e in events ==> WithinBoot(e)) && !call.BeginCall?
    requires k < |CommitsOf(Run(w, [CallEvent(BeginCall(r, draws), 1)] + events), call)|
    requires Unapplied(Reached(w, r, draws, events, call, k).store.journal, Begin(w.store, r, draws).value.id)
    requires CommitsOf(Run(w, [CallEvent(BeginCall(r, draws), 1)] + events), call)[k].CommitRestart?
    ensures Reached(w, r, draws, events, call, k).store.sequences.restart + 1 < Text.SEQUENCE_MAX
  {
    RestartCommitBudget(w, r, draws, events, call, k);
    CommittedSnoc(Run(w, [CallEvent(BeginCall(r, draws), 1)] + events),
                  CommitsOf(Run(w, [CallEvent(BeginCall(r, draws), 1)] + events), call), k);
  }
}
