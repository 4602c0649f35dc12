/** The invariant of every run, and why the validator accepts each journal that satisfies it. */
module Invariant {
  import opened Results
  import opened Lifecycle
  import opened Records
  import opened Validator
  import opened Ledger
  import opened Runs

  /** The start of the window of the log that the ring still holds. */
  function Oldest(log: seq<Operation>): nat {
    if |log| < TERMINAL_COUNT then 0 else |log| - TERMINAL_COUNT
  }

  /** Slot i % 32 holds the i-th completed operation, if it is one of the last 32. */
  ghost predicate HeldAt(log: seq<Operation>, terminals: seq<Option<Operation>>, i: int) {
    Oldest(log) <= i < |log| ==>
      i % TERMINAL_COUNT < |terminals| && terminals[i % TERMINAL_COUNT] == Some(log[i])
  }

  ghost predicate EmptyAt(log: seq<Operation>, terminals: seq<Option<Operation>>, s: int) {
    |log| <= s < |terminals| ==> terminals[s] == None
  }

  /** The slots hold exactly the last 32 completed operations. */
  ghost predicate RingOf(log: seq<Operation>, terminals: seq<Option<Operation>>) {
    && |terminals| == TERMINAL_COUNT
    && (forall i :: HeldAt(log, terminals, i))
    && (forall s :: EmptyAt(log, terminals, s))
  }

  ghost predicate EntrySound(log: seq<Operation>, i: int) {
    0 <= i < |log| ==> IsTerminal(log[i].state) && log[i].slot == i % TERMINAL_COUNT
  }

  ghost predicate DistinctIds(log: seq<Operation>, i: int, k: int) {
    0 <= i < k < |log| && k - i <= TERMINAL_COUNT ==> log[i].id != log[k].id
  }

  ghost predicate LogSound(log: seq<Operation>) {
    && (forall i :: EntrySound(log, i))
    && (forall i, k :: DistinctIds(log, i, k))
  }

  /** The active record has reached its terminal slot. */
  predicate Written(j: Journal) {
    j.active.Some? && IsTerminal(j.active.value.state) && Holds(j, j.active.value.slot, j.active.value)
  }

  /** The active update has contributed to the restart record but not reached its slot. */
  predicate AppliedOnly(j: Journal) {
    j.active.Some? && !Written(j) && j.restart.lastApplied == Some(j.active.value.id)
  }

  /** The operations the restart record summarizes. */
  ghost function Effective(w: World): seq<Operation> {
    if AppliedOnly(w.store.journal) then w.log + [w.store.journal.active.value] else w.log
  }

  ghost predicate HandoffPhase(w: World) {
    var j, n := w.store.journal, |w.log|;
    j.handoff.Some? ==>
      n > 0 && j.handoff == Some(Handoff(w.log[n - 1].id, (n - 1) % TERMINAL_COUNT))
      && j.cursor == n % TERMINAL_COUNT
  }

  /** The active record before its terminal commit. */
  ghost predicate LivePhase(w: World) {
    var j, n := w.store.journal, |w.log|;
    j.active.Some? && !Written(j) ==>
      && j.cursor == n % TERMINAL_COUNT && j.active.value.slot == j.cursor
      && j.handoff.None?
      && (forall i :: Oldest(w.log) <= i < n ==> w.log[i].id != j.active.value.id)
      && (AppliedOnly(j) ==> IsTerminal(j.active.value.state) && IsUpdateOf(j.active.value, j.restart.bootId))
  }

  /** The active record between its terminal commit and its clearing. */
  ghost predicate WrittenPhase(w: World) {
    var j, n := w.store.journal, |w.log|;
    Written(j) ==>
      && n > 0 && j.active.value == w.log[n - 1]
      && (j.cursor == n % TERMINAL_COUNT || (j.cursor == (n - 1) % TERMINAL_COUNT && j.handoff.None?))
  }

  ghost predicate IdlePhase(w: World) {
    w.store.journal.active.None? ==> w.store.journal.cursor == |w.log| % TERMINAL_COUNT
  }

  /** The record whose result is being handed over, if any. */
  ghost predicate Settling(w: World, op: Operation) {
    var j := w.store.journal;
    (j.active == Some(op) && IsTerminal(op.state)) || (j.handoff.Some? && |w.log| > 0 && op == w.log[|w.log| - 1])
  }

  /** A terminal update of this boot whose contribution is still to be applied. */
  predicate Unapplied(j: Journal) {
    j.active.Some? && IsTerminal(j.active.value.state) && !Written(j) && !AppliedOnly(j)
    && IsUpdateOf(j.active.value, j.restart.bootId)
  }

  ghost predicate Clocks(w: World) {
    var j := w.store.journal;
    && (forall op :: Settling(w, op) && op.kind == Refresh ==>
          forall i :: Oldest(w.log) <= i < |w.log| && IsUpdateOf(w.log[i], j.restart.bootId) ==>
              Mono(w.log[i]) <= Mono(op))
    && (Unapplied(j) ==> Follows(w.log, j.active.value, j.restart.bootId))
  }

  ghost predicate OldBootClear(r: Restart, op: Operation) {
    op.kind == Update && !IsUpdateOf(op, r.bootId) ==> AllClear(r)
  }

  /** An update of another boot is only ever pending while no restart guidance is held. */
  ghost predicate OldBoots(w: World) {
    var j := w.store.journal;
    && (j.active.Some? ==> OldBootClear(j.restart, j.active.value))
    && (j.handoff.Some? && |w.log| > 0 ==> OldBootClear(j.restart, w.log[|w.log| - 1]))
  }

  ghost predicate BootsSeen(w: World) {
    var j := w.store.journal;
    && w.boot in w.boots
    && j.restart.bootId in w.boots
    && (j.active.Some? && j.active.value.bootId.Some? ==> j.active.value.bootId.value in w.boots)
    && (forall i :: 0 <= i < |w.log| && w.log[i].bootId.Some? ==> w.log[i].bootId.value in w.boots)
    && (j.restart.bootId != w.boot ==>
          && (j.active.Some? ==> !IsUpdateOf(j.active.value, w.boot))
          && (forall i :: !UpdateAt(w.log, i, w.boot)))
  }

  /** The ring is the end of the log. */
  ghost predicate Placed(w: World) {
    && LogSound(w.log) && RingOf(w.log, w.store.journal.terminals)
    && |w.store.sequences.terminals| == TERMINAL_COUNT
  }

  ghost predicate Phased(w: World) {
    IdlePhase(w) && LivePhase(w) && WrittenPhase(w) && HandoffPhase(w)
  }

  ghost predicate Timed(w: World) {
    Clocks(w) && OldBoots(w) && BootsSeen(w)
  }

  /** The relations between the records that every run keeps. */
  ghost predicate Consistent(w: World) {
    && Placed(w)
    && Phased(w)
    && Summarizes(w.store.journal.restart, Effective(w))
    && Timed(w)
  }

  // ---- the ring as a window of the log ----

  lemma SlotOfRing(log: seq<Operation>, terminals: seq<Option<Operation>>, s: nat) returns (i: nat)
    requires RingOf(log, terminals) && s < TERMINAL_COUNT && terminals[s].Some?
    ensures Oldest(log) <= i < |log| && i % TERMINAL_COUNT == s && terminals[s] == Some(log[i])
  {
    var n := |log|;
    assert EmptyAt(log, terminals, s);
    i := if n < TERMINAL_COUNT then s else n - 1 - (n - 1 - s) % TERMINAL_COUNT;
    assert HeldAt(log, terminals, i);
  }

  lemma RetainedIsWindow(log: seq<Operation>, j: Journal, op: Operation)
    requires RingOf(log, j.terminals)
    ensures op in Retained(j) <==> exists i :: Oldest(log) <= i < |log| && log[i] == op
  {
    if op in Retained(j) {
      var s :| 0 <= s < |j.terminals| && Filled(j, s) && j.terminals[s].value == op;
      var i := SlotOfRing(log, j.terminals, s);
    }
    if i :| Oldest(log) <= i < |log| && log[i] == op {
      assert HeldAt(log, j.terminals, i);
      assert Filled(j, i % TERMINAL_COUNT) && j.terminals[i % TERMINAL_COUNT].value == op;
    }
  }

  lemma FullRing(log: seq<Operation>, j: Journal)
    requires RingOf(log, j.terminals)
    ensures RingFull(j) <==> |log| >= TERMINAL_COUNT
  {
    if |log| < TERMINAL_COUNT {
      assert EmptyAt(log, j.terminals, |log|);
      assert !Filled(j, |log|);
    } else {
      forall s | 0 <= s < TERMINAL_COUNT
        ensures Filled(j, s)
      {
        var n := |log|;
        var i := n - 1 - (n - 1 - s) % TERMINAL_COUNT;
        assert i % TERMINAL_COUNT == s && HeldAt(log, j.terminals, i);
      }
    }
  }
}
