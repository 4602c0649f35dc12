/** Every single commit of every call keeps the run invariant. */
module Preservation {
  import opened Results
  import opened Lifecycle
  import opened Records
  import opened Validator
  import opened Operations
  import opened Ledger
  import opened Runs
  import opened Invariant
  import opened Acceptance

  lemma InitialConsistent(boot: string)
    ensures Consistent(InitialWorld(boot))
  {
    ClearSummarizes([], boot);
  }

  lemma RebootTimed(w: World, boot: string)
    requires Timed(w) && boot !in w.boots
    ensures Timed(Next(w, RebootEvent(boot)))
  {}

  lemma RebootConsistent(w: World, boot: string)
    requires Consistent(w) && boot !in w.boots
    ensures Consistent(Next(w, RebootEvent(boot)))
  {
    RebootTimed(w, boot);
    assert Effective(Next(w, RebootEvent(boot))) == Effective(w);
  }

  // ---- admission ----

  lemma {:induction false} FreshIdSound(draws: seq<string>, taken: set<string>)
    ensures FreshId(draws, taken).Some? ==> FreshId(draws, taken).value !in taken
  {
    if draws != [] { FreshIdSound(draws[1..], taken); }
  }

  /** With headroom at the cursor, admission reserves the cursor's slot. */
  lemma CursorSlot(st: Store)
    requires st.journal.cursor < TERMINAL_COUNT && SlotHeadroom(st.sequences, st.journal.cursor)
    ensures ReusableSlot(st, 0) == Some(st.journal.cursor)
  {
    assert (st.journal.cursor + 0) % TERMINAL_COUNT == st.journal.cursor;
  }

  lemma AdmittedConsistent(w: World, op: Operation)
    requires Consistent(w) && w.store.journal.active.None? && w.store.journal.handoff.None?
    requires op.state == Pending && op.slot == w.store.journal.cursor
    requires op.id !in RetainedIds(w.store.journal)
    requires op.kind == Update ==> op.bootId == Some(w.store.journal.restart.bootId)
    requires op.bootId.Some? ==> op.bootId.value == w.boot
    ensures Consistent(Committed(w, CommitActive(Some(op))))
  {
    var j, w' := w.store.journal, Committed(w, CommitActive(Some(op)));
    assert Effective(w') == w.log && Effective(w) == w.log;
    forall i | Oldest(w.log) <= i < |w.log|
      ensures w.log[i].id != op.id
    {
      RetainedIsWindow(w.log, j, w.log[i]);
    }
  }

  // ---- lifecycle ----

  lemma AdvancedConsistent(w: World, expected: Operation, following: Operation)
    requires Consistent(w) && w.store.journal.active == Some(expected)
    requires SameIdentity(expected, following) && !IsTerminal(expected.state)
    requires ActiveNotStale(WithActive(w.store.journal, following))
    requires ActiveIdSound(WithActive(w.store.journal, following))
    requires IsTerminal(following.state) && IsUpdateOf(following, w.store.journal.restart.bootId)
             ==> Follows(w.log, following, w.store.journal.restart.bootId)
    ensures Consistent(Committed(w, CommitActive(Some(following))))
  {
    var j, w' := w.store.journal, Committed(w, CommitActive(Some(following)));
    var j' := w'.store.journal;
    assert !Written(j) && !AppliedOnly(j);
    assert !Written(j') by {
      if Written(j') {
        var i := SlotOfRing(w.log, j.terminals, following.slot);
      }
    }
    assert Effective(w') == w.log && Effective(w) == w.log;
    if IsTerminal(following.state) && following.kind == Refresh {
      forall i | Oldest(w.log) <= i < |w.log| && IsUpdateOf(w.log[i], j.restart.bootId)
        ensures Mono(w.log[i]) <= Mono(following)
      {
        RetainedIsWindow(w.log, j', w.log[i]);
        assert w.log[i] in RetainedUpdates(j');
      }
    }
  }

  // ---- restart record ----

  lemma ClearedConsistent(w: World)
    requires Consistent(w) && w.store.journal.restart.bootId != w.boot
    ensures Consistent(Committed(w, CommitRestart(ClearRestart(w.boot))))
  {
    var w' := Committed(w, CommitRestart(ClearRestart(w.boot)));
    assert Effective(w') == w.log;
    ClearSummarizes(w.log, w.boot);
  }

  /** A restart record of the same boot and identity, all clear if the old one was, fits as well. */
  lemma SameBootFits(w: World, r: Restart)
    requires Phased(w) && Timed(w)
    requires r.bootId == w.store.journal.restart.bootId && r.lastApplied == w.store.journal.restart.lastApplied
    requires AllClear(w.store.journal.restart) ==> AllClear(r)
    ensures Phased(Committed(w, CommitRestart(r))) && Timed(Committed(w, CommitRestart(r)))
    ensures Effective(Committed(w, CommitRestart(r))) == Effective(w)
  {}

  lemma SatisfiedConsistent(w: World, started: Option<nat>)
    requires Consistent(w)
    ensures Consistent(Committed(w, CommitRestart(SatisfySession(w.store.journal.restart, started))))
  {
    SameBootFits(w, SatisfySession(w.store.journal.restart, started));
    SatisfyKeeps(w.store.journal.restart, Effective(w), started);
  }

  lemma PrunedConsistent(w: World, started: Option<nat>)
    requires Consistent(w)
    ensures Consistent(Committed(w, CommitRestart(Pruned(w.store.journal.restart, w.boot, started))))
  {
    if w.store.journal.restart.bootId != w.boot { ClearedConsistent(w); } else { SatisfiedConsistent(w, started); }
  }

  // ---- completion ----

  lemma ContributedFits(w: World, op: Operation, r: Restart)
    requires Phased(w) && Timed(w) && w.store.journal.active == Some(op) && IsTerminal(op.state)
    requires !Written(w.store.journal) && IsUpdateOf(op, w.store.journal.restart.bootId)
    requires r.bootId == w.store.journal.restart.bootId && r.lastApplied == Some(op.id)
    ensures Phased(Committed(w, CommitRestart(r))) && Timed(Committed(w, CommitRestart(r)))
    ensures Effective(Committed(w, CommitRestart(r))) == w.log + [op]
  {}

  /** The active terminal update joins the restart record. */
  lemma ContributedConsistent(w: World, op: Operation, started: Option<nat>)
    requires Consistent(w) && w.store.journal.active == Some(op) && IsTerminal(op.state)
    requires IsUpdateOf(op, w.store.journal.restart.bootId) && w.store.journal.restart.lastApplied != Some(op.id)
    ensures Consistent(Committed(w, CommitRestart(Contributed(w.store.journal.restart, op, started))))
  {
    if Written(w.store.journal) {
      LastUpdateIdentity(w);
      assert false;
    }
    ContributionKeeps(w.store.journal.restart, w.log, op, started);
    ContributedFits(w, op, Contributed(w.store.journal.restart, op, started));
  }

  lemma WrittenPlaced(w: World, op: Operation)
    requires Placed(w) && LivePhase(w) && w.store.journal.active == Some(op) && IsTerminal(op.state)
    requires !Written(w.store.journal)
    ensures Placed(Committed(w, CommitTerminal(op.slot, op)))
    ensures Written(Committed(w, CommitTerminal(op.slot, op)).store.journal)
  {
    var log, before, terminals := w.log + [op], w.store.journal.terminals,
        w.store.journal.terminals[op.slot := Some(op)];
    forall i
      ensures HeldAt(log, terminals, i)
      ensures EntrySound(log, i)
    {
      assert HeldAt(w.log, before, i) && EntrySound(w.log, i);
    }
    forall s
      ensures EmptyAt(log, terminals, s)
    {
      assert EmptyAt(w.log, before, s);
    }
    forall i, k
      ensures DistinctIds(log, i, k)
    {
      assert DistinctIds(w.log, i, k);
    }
  }

  lemma WrittenTimed(w: World, op: Operation)
    requires Phased(w) && Timed(w) && w.store.journal.active == Some(op) && IsTerminal(op.state)
    requires !Written(w.store.journal) && Written(Committed(w, CommitTerminal(op.slot, op)).store.journal)
    ensures Phased(Committed(w, CommitTerminal(op.slot, op))) && Timed(Committed(w, CommitTerminal(op.slot, op)))
  {
    var w' := Committed(w, CommitTerminal(op.slot, op));
    assert w'.log == w.log + [op];
    assert Settling(w, op);
    assert forall i :: UpdateAt(w'.log, i, w.boot) ==> i == |w.log| || UpdateAt(w.log, i, w.boot);
  }

  /** The active terminal record reaches its slot: the log grows by it. */
  lemma WrittenConsistent(w: World, op: Operation)
    requires Consistent(w) && w.store.journal.active == Some(op) && IsTerminal(op.state)
    requires !Written(w.store.journal)
    requires IsUpdateOf(op, w.store.journal.restart.bootId) ==> w.store.journal.restart.lastApplied == Some(op.id)
    ensures Consistent(Committed(w, CommitTerminal(op.slot, op)))
  {
    WrittenPlaced(w, op);
    WrittenTimed(w, op);
    if !AppliedOnly(w.store.journal) { OtherKeeps(w.store.journal.restart, w.log, op); }
  }

  lemma CursorFits(w: World, op: Operation)
    requires Phased(w) && Timed(w) && Written(w.store.journal) && w.store.journal.active == Some(op)
    requires op.slot == (|w.log| - 1) % TERMINAL_COUNT && w.store.journal.cursor != (op.slot + 1) % TERMINAL_COUNT
    ensures Phased(Committed(w, CommitCursor((op.slot + 1) % TERMINAL_COUNT)))
    ensures Timed(Committed(w, CommitCursor((op.slot + 1) % TERMINAL_COUNT)))
  {}

  lemma HandoffFits(w: World, op: Operation)
    requires Phased(w) && Timed(w) && Written(w.store.journal) && w.store.journal.active == Some(op)
    requires op.slot == (|w.log| - 1) % TERMINAL_COUNT && w.store.journal.cursor == (op.slot + 1) % TERMINAL_COUNT
    ensures Phased(Committed(w, CommitHandoff(Some(Handoff(op.id, op.slot)))))
    ensures Timed(Committed(w, CommitHandoff(Some(Handoff(op.id, op.slot)))))
  {}

  lemma ReleaseFits(w: World, op: Operation)
    requires Phased(w) && Timed(w) && Written(w.store.journal) && w.store.journal.active == Some(op)
    requires op.slot == (|w.log| - 1) % TERMINAL_COUNT && w.store.journal.cursor == (op.slot + 1) % TERMINAL_COUNT
    requires w.store.journal.handoff == Some(Handoff(op.id, op.slot))
    ensures Phased(Committed(w, CommitActive(None))) && Timed(Committed(w, CommitActive(None)))
  {}

  lemma AcknowledgeFits(w: World)
    requires Phased(w) && Timed(w) && w.store.journal.active.None?
    ensures Phased(Committed(w, CommitHandoff(None))) && Timed(Committed(w, CommitHandoff(None)))
  {}

  /** A commit that touches neither the restart record nor the ring keeps what they summarize. */
  lemma ElsewhereConsistent(w: World, c: Commit)
    requires Consistent(w) && !c.CommitRestart? && !c.CommitTerminal?
    requires Phased(Committed(w, c)) && Timed(Committed(w, c))
    requires Effective(Committed(w, c)) == Effective(w)
    ensures Consistent(Committed(w, c))
  {}

  lemma WrittenSlot(w: World)
    requires Placed(w) && WrittenPhase(w) && Written(w.store.journal)
    ensures |w.log| > 0 && w.store.journal.active.value.slot == (|w.log| - 1) % TERMINAL_COUNT
  {
    assert EntrySound(w.log, |w.log| - 1);
  }

  lemma CursorConsistent(w: World, op: Operation)
    requires Consistent(w) && Written(w.store.journal) && w.store.journal.active == Some(op)
    requires w.store.journal.cursor != (op.slot + 1) % TERMINAL_COUNT
    ensures Consistent(Committed(w, CommitCursor((op.slot + 1) % TERMINAL_COUNT)))
  {
    WrittenSlot(w);
    CursorFits(w, op);
    ElsewhereConsistent(w, CommitCursor((op.slot + 1) % TERMINAL_COUNT));
  }

  lemma HandoffConsistent(w: World, op: Operation)
    requires Consistent(w) && Written(w.store.journal) && w.store.journal.active == Some(op)
    requires w.store.journal.cursor == (op.slot + 1) % TERMINAL_COUNT
    ensures Consistent(Committed(w, CommitHandoff(Some(Handoff(op.id, op.slot)))))
  {
    WrittenSlot(w);
    HandoffFits(w, op);
    ElsewhereConsistent(w, CommitHandoff(Some(Handoff(op.id, op.slot))));
  }

  lemma ReleasedConsistent(w: World, op: Operation)
    requires Consistent(w) && Written(w.store.journal) && w.store.journal.active == Some(op)
    requires w.store.journal.cursor == (op.slot + 1) % TERMINAL_COUNT
    requires w.store.journal.handoff == Some(Handoff(op.id, op.slot))
    ensures Consistent(Committed(w, CommitActive(None)))
  {
    WrittenSlot(w);
    ReleaseFits(w, op);
    ElsewhereConsistent(w, CommitActive(None));
  }

  lemma AcknowledgedConsistent(w: World)
    requires Consistent(w) && w.store.journal.active.None?
    ensures Consistent(Committed(w, CommitHandoff(None)))
  {
    AcknowledgeFits(w);
    ElsewhereConsistent(w, CommitHandoff(None));
  }
}
