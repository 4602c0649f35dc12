/** No run produces a journal that its own validator rejects. */
module Safety {
  import opened Results
  import opened Lifecycle
  import opened Records
  import opened Validator
  import opened Operations
  import opened Runs
  import opened Invariant
  import opened Acceptance
  import opened Resumption
  import opened Preservation

  // ---- completion, commit by commit ----

  /** A completion may run: the active record, if any, is terminal, and the boot evidence is this boot's. */
  predicate Completing(w: World, boot: Option<string>) {
    w.store.journal.active.Some? ==>
      && IsTerminal(w.store.journal.active.value.state)
      && (w.store.journal.active.value.kind == Update ==> boot == Some(w.boot))
  }

  lemma ConsistentSlotted(w: World)
    requires Consistent(w)
    ensures Slotted(w.store)
  {}

  lemma RestartStepKeeps(w: World, op: Operation, started: Option<nat>)
    requires Consistent(w) && w.store.journal.active == Some(op) && IsTerminal(op.state)
    requires RestartPart(w.store.journal.restart, op, Some(w.boot), started) != []
    ensures var c := RestartPart(w.store.journal.restart, op, Some(w.boot), started)[0];
      c.CommitRestart? && Consistent(Committed(w, c))
  {
    var r := w.store.journal.restart;
    if Pruned(r, w.boot, started) != r {
      PrunedConsistent(w, started);
    } else {
      assert PruneCommits(r, w.boot, started) == [];
      ContributedConsistent(w, op, started);
    }
  }

  lemma RingStepKeeps(w: World, op: Operation)
    requires Consistent(w) && w.store.journal.active == Some(op) && IsTerminal(op.state)
    requires IsUpdateOf(op, w.store.journal.restart.bootId) ==> w.store.journal.restart.lastApplied == Some(op.id)
    ensures var c := RingCommits(w.store.journal, op)[0];
      Consistent(Committed(w, c)) && (c.CommitActive? ==> c.active.None?)
  {
    match RingCommits(w.store.journal, op)[0] {
      case CommitTerminal(_, _) => WrittenConsistent(w, op);
      case CommitCursor(_) => CursorConsistent(w, op);
      case CommitHandoff(_) => HandoffConsistent(w, op);
      case CommitActive(_) => ReleasedConsistent(w, op);
    }
  }

  /** With nothing left for the restart record, an update of its boot has contributed. */
  lemma NothingToContribute(r: Restart, op: Operation, boot: string, started: Option<nat>)
    requires op.kind == Update && RestartPart(r, op, Some(boot), started) == []
    ensures r.bootId == boot && (op.bootId == Some(boot) ==> r.lastApplied == Some(op.id))
  {}

  /** The first commit of a completion keeps the invariant. */
  lemma CompleteStepKeeps(w: World, boot: Option<string>, started: Option<nat>)
    requires Consistent(w) && w.store.journal.active.Some? && Completing(w, boot)
    ensures var cs := CompleteCommits(w.store.journal, boot, started);
      cs != [] && Consistent(Committed(w, cs[0])) && (cs[0].CommitActive? ==> cs[0].active.None?)
  {
    var op := w.store.journal.active.value;
    var first, ring := RestartPart(w.store.journal.restart, op, boot, started), RingCommits(w.store.journal, op);
    if first != [] {
      RestartStepKeeps(w, op, started);
      ConcatTail(first, ring);
    } else {
      if op.kind == Update { NothingToContribute(w.store.journal.restart, op, w.boot, started); }
      RingStepKeeps(w, op);
      assert first + ring == ring;
    }
  }

  lemma CommitKeepsCompleting(w: World, boot: Option<string>, c: Commit)
    requires Completing(w, boot) && (c.CommitActive? ==> c.active.None?)
    ensures Completing(Committed(w, c), boot)
  {}

  /** One commit of a completion, and what is left of it. */
  lemma CompleteTail(w: World, boot: Option<string>, started: Option<nat>, k: nat)
    requires Slotted(w.store) && 0 < k <= |CompleteCommits(w.store.journal, boot, started)|
    ensures var cs := CompleteCommits(w.store.journal, boot, started);
      var next := Committed(w, cs[0]);
      && k - 1 <= |CompleteCommits(next.store.journal, boot, started)|
      && CommittedAll(w, cs[..k]) == CommittedAll(next, CompleteCommits(next.store.journal, boot, started)[..k - 1])
  {
    ResumeStep(w.store, boot, started);
    PrefixTail(CompleteCommits(w.store.journal, boot, started), k);
  }

  /** Every prefix of a completion keeps the invariant. */
  lemma {:induction false} CompleteKeeps(w: World, boot: Option<string>, started: Option<nat>, k: nat)
    requires Consistent(w) && Completing(w, boot)
    requires k <= |CompleteCommits(w.store.journal, boot, started)|
    ensures Consistent(CommittedAll(w, CompleteCommits(w.store.journal, boot, started)[..k]))
    decreases k
  {
    if k > 0 {
      var c := CompleteCommits(w.store.journal, boot, started)[0];
      ConsistentSlotted(w);
      CompleteStepKeeps(w, boot, started);
      CommitKeepsCompleting(w, boot, c);
      CompleteTail(w, boot, started, k);
      CompleteKeeps(Committed(w, c), boot, started, k - 1);
    }
  }

  // ---- all calls ----

  lemma BeginCallKeeps(w: World, r: Request, draws: seq<string>)
    requires Consistent(w) && Admissible(w, CallEvent(BeginCall(r, draws), 1)) && Begin(w.store, r, draws).Ok?
    ensures Consistent(Committed(w, CommitActive(Some(Begin(w.store, r, draws).value))))
  {
    var op := BeginChecked(w.store, r, draws);
    AdmittedConsistent(w, op);
  }

  /** What a successful admission has checked. */
  lemma BeginChecked(st: Store, r: Request, draws: seq<string>) returns (op: Operation)
    requires Begin(st, r, draws).Ok? && SlotHeadroom(st.sequences, st.journal.cursor)
    ensures op == Begin(st, r, draws).value
    ensures st.journal.active.None? && st.journal.handoff.None?
    ensures op.state == Pending && op.slot == st.journal.cursor && op.id !in RetainedIds(st.journal)
    ensures op.kind == Update ==> op.bootId == Some(st.journal.restart.bootId)
    ensures op.bootId.Some? ==> op.bootId == r.bootId
  {
    op := Begin(st, r, draws).value;
    CursorSlot(st);
    FreshIdSound(draws, RetainedIds(st.journal));
  }

  /** What a successful advance has checked. */
  lemma AdvanceChecked(j: Journal, expected: Operation, following: Operation, recoveryBoot: Option<string>)
    requires Advance(j, expected, following, recoveryBoot) == Ok(Some(following))
    ensures j.active == Some(expected)
    ensures SameIdentity(expected, following) && LegalTransition(expected, following)
    ensures Accepted(WithActive(j, following))
  {}

  lemma AdvanceCallKeeps(w: World, expected: Operation, following: Operation, recoveryBoot: Option<string>)
    requires Consistent(w) && Admissible(w, CallEvent(AdvanceCall(expected, following, recoveryBoot), 1))
    requires Advance(w.store.journal, expected, following, recoveryBoot) == Ok(Some(following))
    ensures Consistent(Committed(w, CommitActive(Some(following))))
  {
    AdvanceChecked(w.store.journal, expected, following, recoveryBoot);
    var j := WithActive(w.store.journal, following);
    assert CrossRule(j, 4) && CrossRule(j, 6);
    AdvancedConsistent(w, expected, following);
  }

  lemma PruneCallKeeps(w: World, started: Option<nat>)
    requires Consistent(w) && CommitsOf(w, PruneCall(started)) != []
    ensures Consistent(Committed(w, CommitsOf(w, PruneCall(started))[0]))
  {
    PrunedConsistent(w, started);
  }

  lemma AcknowledgeCallKeeps(w: World, id: string)
    requires Consistent(w) && CommitsOf(w, AcknowledgeCall(id)) != []
    ensures Consistent(Committed(w, CommitsOf(w, AcknowledgeCall(id))[0]))
  {
    AcknowledgedConsistent(w);
  }

  lemma OnlyCommit(w: World, cs: seq<Commit>, k: nat)
    requires |cs| == 1 == k
    ensures CommittedAll(w, cs[..k]) == Committed(w, cs[0])
  {
    assert cs[..k] == cs && cs[1..] == [];
  }

  lemma ShortCallIsSingle(w: World, call: Call)
    requires !call.CompleteCall? && CommitsOf(w, call) != []
    ensures |CommitsOf(w, call)| == 1
  {}

  /** The calls of a single commit. */
  lemma ShortCallKeeps(w: World, call: Call)
    requires Consistent(w) && Admissible(w, CallEvent(call, 1)) && !call.CompleteCall? && CommitsOf(w, call) != []
    ensures Consistent(Committed(w, CommitsOf(w, call)[0]))
  {
    match call {
      case BeginCall(r, draws) => BeginCallKeeps(w, r, draws);
      case AdvanceCall(expected, following, recoveryBoot) => AdvanceCallKeeps(w, expected, following, recoveryBoot);
      case PruneCall(started) => PruneCallKeeps(w, started);
      case AcknowledgeCall(id) => AcknowledgeCallKeeps(w, id);
      case CompleteCall(_, _) =>
    }
  }

  /** A call stopped by a crash after any number of its commits keeps the invariant. */
  lemma CallKeeps(w: World, call: Call, k: nat)
    requires Consistent(w) && Admissible(w, CallEvent(call, k)) && 0 < k <= |CommitsOf(w, call)|
    ensures Consistent(CommittedAll(w, CommitsOf(w, call)[..k]))
  {
    if call.CompleteCall? {
      CompleteKeeps(w, if call.bootEvidence then Some(w.boot) else None, call.sessionStarted, k);
    } else {
      ShortCallIsSingle(w, call);
      ShortCallKeeps(w, call);
      OnlyCommit(w, CommitsOf(w, call), k);
    }
  }

  lemma EventKeeps(w: World, e: Event)
    requires Consistent(w) && Admissible(w, e)
    ensures Consistent(Next(w, e))
  {
    match e {
      case RebootEvent(boot) => RebootConsistent(w, boot);
      case CallEvent(call, survived) =>
        var k := Min(survived, |CommitsOf(w, call)|);
        if k > 0 { CallKeeps(w, call, k); }
    }
  }

  lemma {:induction false} RunKeeps(w: World, events: seq<Event>)
    requires Consistent(w) && AdmissibleRun(w, events)
    ensures Consistent(Run(w, events))
    decreases events
  {
    if events != [] {
      EventKeeps(w, events[0]);
      RunKeeps(Next(w, events[0]), events[1..]);
    }
  }

  // ---- each record stays decodable ----

  predicate CommitEncodable(c: Commit) {
    match c
    case CommitActive(a) => a.Some? ==> OperationEncodable(a.value)
    case CommitRestart(r) => RestartEncodable(r)
    case CommitTerminal(slot, op) => OperationEncodable(op) && slot < TERMINAL_COUNT
    case CommitCursor(n) => n < TERMINAL_COUNT
    case CommitHandoff(h) => h.Some? ==> HandoffEncodable(h.value)
  }

  lemma CommitDecoded(w: World, c: Commit)
    requires Decoded(w.store.journal) && CommitEncodable(c)
    ensures Decoded(Committed(w, c).store.journal)
  {
    var j, j' := w.store.journal, Committed(w, c).store.journal;
    forall s: nat | s < |j'.terminals|
      ensures SlotDecoded(j', s)
    {
      assert SlotDecoded(j, s);
    }
  }

  lemma {:induction false} PrefixDecoded(w: World, cs: seq<Commit>, k: nat)
    requires Decoded(w.store.journal) && k <= |cs| && forall c :: c in cs ==> CommitEncodable(c)
    ensures Decoded(CommittedAll(w, cs[..k]).store.journal)
    decreases k
  {
    if k > 0 {
      CommitDecoded(w, cs[0]);
      PrefixDecoded(Committed(w, cs[0]), cs[1..], k - 1);
      PrefixTail(cs, k);
    }
  }

  lemma PrunedEncodable(r: Restart, boot: string, started: Option<nat>)
    requires RestartEncodable(r) && Text.IsBootId(boot)
    ensures RestartEncodable(Pruned(r, boot, started))
  {
    forall field | 0 <= field < 2
      ensures RestartFieldSound(Pruned(r, boot, started), field)
    {
      assert RestartFieldSound(r, field);
    }
  }

  lemma ContributedEncodable(r: Restart, op: Operation, started: Option<nat>)
    requires RestartEncodable(r) && OperationEncodable(op)
    ensures RestartEncodable(Contributed(r, op, started))
  {
    forall field | 0 <= field < 2
      ensures RestartFieldSound(Contributed(r, op, started), field)
    {
      assert RestartFieldSound(r, field) && FieldSound(op, 0);
    }
  }

  lemma RestartPartEncodable(r: Restart, op: Operation, boot: Option<string>, started: Option<nat>, c: Commit)
    requires RestartEncodable(r) && OperationEncodable(op) && (boot.Some? ==> Text.IsBootId(boot.value))
    requires c in RestartPart(r, op, boot, started)
    ensures CommitEncodable(c)
  {
    PrunedEncodable(r, boot.value, started);
    ContributedEncodable(Pruned(r, boot.value, started), op, started);
  }

  lemma RingCommitsEncodable(j: Journal, op: Operation, c: Commit)
    requires OperationEncodable(op) && c in RingCommits(j, op)
    ensures CommitEncodable(c)
  {
    assert FieldSound(op, 0);
  }

  lemma CommitsEncodable(w: World, call: Call, c: Commit)
    requires Decoded(w.store.journal) && Text.IsBootId(w.boot) && c in CommitsOf(w, call)
    ensures CommitEncodable(c)
  {
    match call {
      case CompleteCall(evidence, started) =>
        var op := w.store.journal.active.value;
        var boot := if evidence then Some(w.boot) else None;
        if c in RestartPart(w.store.journal.restart, op, boot, started) {
          RestartPartEncodable(w.store.journal.restart, op, boot, started, c);
        } else {
          RingCommitsEncodable(w.store.journal, op, c);
        }
      case PruneCall(started) => PrunedEncodable(w.store.journal.restart, w.boot, started);
      case _ =>
    }
  }

  lemma {:induction false} PrefixBoot(w: World, cs: seq<Commit>)
    ensures CommittedAll(w, cs).boot == w.boot
    decreases cs
  {
    if cs != [] { PrefixBoot(Committed(w, cs[0]), cs[1..]); }
  }

  lemma EventDecoded(w: World, e: Event)
    requires Decoded(w.store.journal) && Text.IsBootId(w.boot) && Admissible(w, e)
    ensures Decoded(Next(w, e).store.journal) && Text.IsBootId(Next(w, e).boot)
  {
    if e.CallEvent? {
      var cs := CommitsOf(w, e.call);
      forall c | c in cs
        ensures CommitEncodable(c)
      {
        CommitsEncodable(w, e.call, c);
      }
      PrefixDecoded(w, cs, Min(e.survived, |cs|));
      PrefixBoot(w, cs[..Min(e.survived, |cs|)]);
    }
  }

  lemma {:induction false} RunDecoded(w: World, events: seq<Event>)
    requires Decoded(w.store.journal) && Text.IsBootId(w.boot) && AdmissibleRun(w, events)
    ensures Decoded(Run(w, events).store.journal)
    decreases events
  {
    if events != [] {
      EventDecoded(w, events[0]);
      RunDecoded(Next(w, events[0]), events[1..]);
    }
  }

  lemma {:induction false} RunBoot(w: World, events: seq<Event>)
    requires Text.IsBootId(w.boot) && AdmissibleRun(w, events)
    ensures Text.IsBootId(Run(w, events).boot)
    decreases events
  {
    if events != [] {
      if events[0].CallEvent? {
        var cs := CommitsOf(w, events[0].call);
        PrefixBoot(w, cs[..Min(events[0].survived, |cs|)]);
      }
      RunBoot(Next(w, events[0]), events[1..]);
    }
  }

  // ---- theorems ----

  lemma EveryRunConsistent(boot: string, events: seq<Event>)
    requires AdmissibleRun(InitialWorld(boot), events)
    ensures Consistent(Run(InitialWorld(boot), events))
  {
    InitialConsistent(boot);
    RunKeeps(InitialWorld(boot), events);
  }

  /** From a freshly initialized journal, after any run of begins, advances, prunes,
      completions, acknowledgements, crashes between any two commits, and reboots, the
      journal loads. */
  lemma EveryRunLoads(boot: string, events: seq<Event>)
    requires Text.IsBootId(boot) && AdmissibleRun(InitialWorld(boot), events)
    ensures Accepted(Run(InitialWorld(boot), events).store.journal)
  {
    EveryRunConsistent(boot, events);
    ConsistentAccepted(Run(InitialWorld(boot), events));
    RunDecoded(InitialWorld(boot), events);
  }

  lemma RingRead(log: seq<Operation>, j: Journal, i: nat)
    requires RingOf(log, j.terminals) && j.cursor == |log| % TERMINAL_COUNT && i < TERMINAL_COUNT
    ensures j.terminals[(j.cursor + i) % TERMINAL_COUNT] ==
      if |log| + i < TERMINAL_COUNT then None else Some(log[|log| + i - TERMINAL_COUNT])
  {
    var k := |log| + i - TERMINAL_COUNT;
    if k >= 0 {
      assert k % TERMINAL_COUNT == (j.cursor + i) % TERMINAL_COUNT && HeldAt(log, j.terminals, k);
    } else {
      assert EmptyAt(log, j.terminals, |log| + i);
    }
  }

  lemma ConsistentRing(w: World, i: nat)
    requires Placed(w) && IdlePhase(w) && w.store.journal.active.None? && i < TERMINAL_COUNT
    ensures |w.store.journal.terminals| == TERMINAL_COUNT
      && w.store.journal.terminals[(w.store.journal.cursor + i) % TERMINAL_COUNT] ==
         if |w.log| + i < TERMINAL_COUNT then None else Some(w.log[|w.log| + i - TERMINAL_COUNT])
  {
    RingRead(w.log, w.store.journal, i);
  }

  lemma ConsistentPlaced(w: World)
    requires Consistent(w)
    ensures Placed(w) && IdlePhase(w)
  {}

  /** ... and its slots, read from the cursor on, hold the last 32 completed operations,
      oldest first, whenever no operation is being completed. */
  lemma EveryRunKeepsRing(boot: string, events: seq<Event>, i: nat)
    requires AdmissibleRun(InitialWorld(boot), events) && i < TERMINAL_COUNT
    requires Run(InitialWorld(boot), events).store.journal.active.None?
    ensures var w := Run(InitialWorld(boot), events);
      |w.store.journal.terminals| == TERMINAL_COUNT
      && w.store.journal.terminals[(w.store.journal.cursor + i) % TERMINAL_COUNT] ==
         if |w.log| + i < TERMINAL_COUNT then None else Some(w.log[|w.log| + i - TERMINAL_COUNT])
  {
    EveryRunConsistent(boot, events);
    ConsistentPlaced(Run(InitialWorld(boot), events));
    ConsistentRing(Run(InitialWorld(boot), events), i);
  }
}
