/** Every journal that satisfies the run invariant passes decode_journal_state. */
module Acceptance {
  import opened Results
  import opened Lifecycle
  import opened Records
  import opened Validator
  import opened Ledger
  import opened Runs
  import opened Invariant

  // ---- restart rules, from a summarized log whose tail the ring retains ----

  /** From index lo on, the summarized log is what applied_updates is drawn from. */
  ghost predicate Window(j: Journal, log: seq<Operation>, lo: nat) {
    && (RingFull(j) || lo == 0)
    && (forall i :: lo <= i && UpdateAt(log, i, j.restart.bootId) ==> log[i] in Applied(j))
    && (forall op :: op in Applied(j) ==> exists i :: lo <= i && UpdateAt(log, i, j.restart.bootId) && log[i] == op)
    && (forall i, k :: lo <= i < k < |log| ==> log[i].id != log[k].id)
  }

  /** The retained updates contain the newest one, or none at all. */
  lemma MatchingIsNewest(j: Journal, log: seq<Operation>, lo: nat, i: int)
    requires Window(j, log, lo) && Newest(log, i, j.restart.bootId)
    requires j.restart.lastApplied == Some(log[i].id)
    ensures i >= lo ==> Matching(j) == {log[i]}
    ensures i < lo ==> Applied(j) == {}
  {
    forall op | op in Applied(j)
      ensures i >= lo
      ensures op in Matching(j) ==> op == log[i]
    {
      var k :| lo <= k && UpdateAt(log, k, j.restart.bootId) && log[k] == op;
      assert k <= i;
    }
  }

  lemma SystemRules(j: Journal, log: seq<Operation>, lo: nat)
    requires Window(j, log, lo) && SystemOfLog(j.restart, log)
    ensures SystemBucketSound(j)
  {}

  /** Where an applied update stands in the log. */
  lemma IndexOf(j: Journal, log: seq<Operation>, lo: nat, op: Operation) returns (k: nat)
    requires Window(j, log, lo) && op in Applied(j)
    ensures lo <= k < |log| && log[k] == op && IsUpdateOf(op, j.restart.bootId)
  {
    k :| lo <= k && UpdateAt(log, k, j.restart.bootId) && log[k] == op;
  }

  /** Timestamps order the updates of a boot as the log does. */
  lemma MonoOrder(log: seq<Operation>, boot: string, k: nat, i: nat)
    requires Increasing(log, boot) && UpdateAt(log, k, boot) && UpdateAt(log, i, boot) && k <= i
    ensures Mono(log[k]) <= Mono(log[i]) && (k < i ==> Mono(log[k]) < Mono(log[i]))
  {}

  /** The newest update of the boot, when the record has an identity. */
  lemma NewestIndex(r: Restart, log: seq<Operation>) returns (i: nat)
    requires IdentityOf(r, log) && r.lastApplied.Some?
    ensures Newest(log, i, r.bootId) && r.lastApplied == Some(log[i].id)
  {
    i :| Newest(log, i, r.bootId) && log[i].id == r.lastApplied.value;
  }

  lemma MatchingBound(j: Journal, log: seq<Operation>, lo: nat, i: nat, m: Operation)
    requires Window(j, log, lo) && Increasing(log, j.restart.bootId) && IdentityOf(j.restart, log)
    requires UpdateAt(log, i, j.restart.bootId) && m in Matching(j)
    ensures Mono(log[i]) <= Mono(m)
    ensures Newest(log, i, j.restart.bootId) ==> m == log[i]
    ensures exists k :: i <= k && Newest(log, k, j.restart.bootId) && log[k] == m
  {
    var newest := NewestIndex(j.restart, log);
    MatchingIsNewest(j, log, lo, newest);
    MonoOrder(log, j.restart.bootId, i, newest);
  }

  /** The newest session contributor bounds every retained one. */
  lemma SessionBound(j: Journal, log: seq<Operation>, lo: nat, i: nat, op: Operation)
    requires Window(j, log, lo) && Increasing(log, j.restart.bootId)
    requires NewestSession(log, i, j.restart.bootId) && op in SessionContributors(j)
    ensures Mono(op) <= Mono(log[i]) && (Mono(op) == Mono(log[i]) ==> op == log[i])
  {
    var k := IndexOf(j, log, lo, op);
    MonoOrder(log, j.restart.bootId, k, i);
  }

  lemma SessionDerivation(j: Journal, log: seq<Operation>, i: nat)
    requires Window(j, log, 0) && Increasing(log, j.restart.bootId)
    requires j.restart.session != NoSession && SessionOfLog(j.restart, log)
    requires NewestSession(log, i, j.restart.bootId) && Mono(log[i]) == j.restart.sessionCutoff
    requires SessionStrength(SessionOf(log[i])) <= SessionStrength(j.restart.session)
    ensures SessionDerivable(j)
  {
    forall op | op in SessionContributors(j) && Mono(op) == j.restart.sessionCutoff
      ensures op == log[i]
    {
      SessionBound(j, log, 0, i, op);
    }
    var k :| UpdateAt(log, k, j.restart.bootId) && SessionOf(log[k]) == j.restart.session;
    assert log[i] in SessionContributors(j) && log[k] in SessionContributors(j);
  }

  lemma SessionRules(j: Journal, log: seq<Operation>, lo: nat)
    requires Window(j, log, lo)
    requires Increasing(log, j.restart.bootId) && IdentityOf(j.restart, log) && SessionOfLog(j.restart, log)
    ensures SessionSound(j)
  {
    var r := j.restart;
    if r.session != NoSession {
      var i :| NewestSession(log, i, r.bootId) && Mono(log[i]) == r.sessionCutoff
               && SessionStrength(SessionOf(log[i])) <= SessionStrength(r.session);
      assert r.sessionCutoff != 0;
      assert forall op :: op in SessionContributors(j) ==> Mono(op) <= r.sessionCutoff by {
        forall op | op in SessionContributors(j)
          ensures Mono(op) <= r.sessionCutoff
        {
          SessionBound(j, log, lo, i, op);
        }
      }
      forall m | m in Matching(j)
        ensures r.sessionCutoff <= Mono(m) && SessionStrength(SessionOf(m)) <= SessionStrength(r.session)
      {
        MatchingBound(j, log, lo, i, m);
        if SessionOf(m) != NoSession { SessionBound(j, log, lo, i, m); }
      }
      if !RingFull(j) { SessionDerivation(j, log, i); }
    }
  }

  lemma ApplicationRules(j: Journal, log: seq<Operation>, lo: nat)
    requires Window(j, log, lo)
    requires Increasing(log, j.restart.bootId) && IdentityOf(j.restart, log) && ApplicationOfLog(j.restart, log)
    ensures ApplicationSound(j)
  {
    var r := j.restart;
    if r.application {
      var i :| NewestApplication(log, i, r.bootId) && Mono(log[i]) == r.applicationCutoff;
      forall op | op in ApplicationContributors(j)
        ensures Mono(op) <= r.applicationCutoff
      {
        var k := IndexOf(j, log, lo, op);
        MonoOrder(log, r.bootId, k, i);
      }
      forall m | m in Matching(j)
        ensures r.applicationCutoff <= Mono(m)
      {
        MatchingBound(j, log, lo, i, m);
      }
      if !RingFull(j) { assert log[i] in ApplicationContributors(j); }
    }
  }

  /** Retained records that carry the restart identity are the newest update itself. */
  lemma IdentityRules(j: Journal, log: seq<Operation>, lo: nat)
    requires Window(j, log, lo)
    requires Increasing(log, j.restart.bootId) && IdentityOf(j.restart, log)
    requires RetainedInLog(j, log, lo)
    requires j.active.Some? && j.restart.lastApplied == Some(j.active.value.id)
             ==> IsUpdateOf(j.active.value, j.restart.bootId) && IsTerminal(j.active.value.state)
    ensures RestartIdentitySound(j)
  {
    var r := j.restart;
    if r.lastApplied.Some? {
      var i := NewestIndex(r, log);
      MatchingIsNewest(j, log, lo, i);
      forall op | op in Retained(j) && op.id == r.lastApplied.value
        ensures IsUpdateOf(op, r.bootId) && IsTerminal(op.state)
      {
        var k :| lo <= k < |log| && log[k] == op;
      }
      forall m, op | m in Matching(j) && op in Applied(j)
        ensures Mono(op) <= Mono(m)
      {
        var k := IndexOf(j, log, lo, op);
        MatchingBound(j, log, lo, k, m);
      }
    } else {
      forall op | op in RetainedUpdates(j)
        ensures false
      {
        var k := IndexOf(j, log, lo, op);
      }
    }
  }

  // ---- the invariant gives such a window ----

  /** Every retained record is a terminal one from the end of the log. */
  ghost predicate RetainedInLog(j: Journal, log: seq<Operation>, lo: nat) {
    forall op :: op in Retained(j) ==> IsTerminal(op.state) && exists i :: lo <= i < |log| && log[i] == op
  }

  lemma RingInLog(w: World)
    requires LogSound(w.log) && RingOf(w.log, w.store.journal.terminals)
    ensures RetainedInLog(w.store.journal, Effective(w), Oldest(w.log))
  {
    var j, log, all, lo := w.store.journal, w.log, Effective(w), Oldest(w.log);
    forall op | op in Retained(j)
      ensures IsTerminal(op.state) && exists i :: lo <= i < |all| && all[i] == op
    {
      RetainedIsWindow(log, j, op);
      var i :| lo <= i < |log| && log[i] == op;
      assert EntrySound(log, i) && all[i] == op;
    }
  }

  lemma WindowIds(w: World)
    requires LogSound(w.log) && LivePhase(w)
    ensures forall i, k :: Oldest(w.log) <= i < k < |Effective(w)| ==> Effective(w)[i].id != Effective(w)[k].id
  {
    forall i, k | Oldest(w.log) <= i < k < |Effective(w)|
      ensures Effective(w)[i].id != Effective(w)[k].id
    {
      assert Effective(w)[i] == w.log[i];
      assert k < |w.log| ==> Effective(w)[k] == w.log[k];
      assert DistinctIds(w.log, i, k);
    }
  }

  lemma WindowIsApplied(w: World, i: nat)
    requires RingOf(w.log, w.store.journal.terminals) && LivePhase(w)
    requires Oldest(w.log) <= i && UpdateAt(Effective(w), i, w.store.journal.restart.bootId)
    ensures Effective(w)[i] in Applied(w.store.journal)
  {
    if i < |w.log| {
      assert Effective(w)[i] == w.log[i];
      RetainedIsWindow(w.log, w.store.journal, w.log[i]);
    }
  }

  lemma AppliedIsInWindow(w: World, op: Operation)
    requires RetainedInLog(w.store.journal, Effective(w), Oldest(w.log)) && op in Applied(w.store.journal)
    ensures exists i ::
      Oldest(w.log) <= i && UpdateAt(Effective(w), i, w.store.journal.restart.bootId) && Effective(w)[i] == op
  {
    var j, all, lo := w.store.journal, Effective(w), Oldest(w.log);
    if op in Retained(j) {
      var i :| lo <= i < |all| && all[i] == op;
      assert UpdateAt(all, i, j.restart.bootId);
    } else {
      assert Written(j) ==> Filled(j, op.slot);
      assert UpdateAt(all, |w.log|, j.restart.bootId) && all[|w.log|] == op;
    }
  }

  lemma ConsistentWindow(w: World)
    requires LogSound(w.log) && RingOf(w.log, w.store.journal.terminals) && LivePhase(w)
    ensures Window(w.store.journal, Effective(w), Oldest(w.log))
    ensures RetainedInLog(w.store.journal, Effective(w), Oldest(w.log))
  {
    FullRing(w.log, w.store.journal);
    RingInLog(w);
    WindowIds(w);
    forall i | Oldest(w.log) <= i && UpdateAt(Effective(w), i, w.store.journal.restart.bootId)
      ensures Effective(w)[i] in Applied(w.store.journal)
    {
      WindowIsApplied(w, i);
    }
    forall op | op in Applied(w.store.journal)
      ensures exists i ::
        Oldest(w.log) <= i && UpdateAt(Effective(w), i, w.store.journal.restart.bootId) && Effective(w)[i] == op
    {
      AppliedIsInWindow(w, op);
    }
  }

  lemma RestartRules(j: Journal, log: seq<Operation>, lo: nat)
    requires Window(j, log, lo) && RetainedInLog(j, log, lo) && Summarizes(j.restart, log)
    requires j.active.Some? && j.restart.lastApplied == Some(j.active.value.id)
             ==> IsUpdateOf(j.active.value, j.restart.bootId) && IsTerminal(j.active.value.state)
    ensures RestartSound(j)
  {
    IdentityRules(j, log, lo);
    SystemRules(j, log, lo);
    SessionRules(j, log, lo);
    ApplicationRules(j, log, lo);
  }

  /** An active record that carries the restart identity is an applied terminal update. */
  lemma ActiveIdentity(w: World)
    requires Consistent(w)
    ensures var j := w.store.journal;
      j.active.Some? && j.restart.lastApplied == Some(j.active.value.id)
      ==> IsUpdateOf(j.active.value, j.restart.bootId) && IsTerminal(j.active.value.state)
  {
    var j, n := w.store.journal, |w.log|;
    if Written(j) && j.restart.lastApplied == Some(j.active.value.id) {
      var i := NewestIndex(j.restart, w.log);
      assert w.log[n - 1].id == w.log[i].id;
    }
  }

  lemma SlotsAccepted(w: World)
    requires Consistent(w)
    ensures SlotsSound(w.store.journal)
  {
    var j := w.store.journal;
    forall s | 0 <= s < |j.terminals| && Filled(j, s)
      ensures IsTerminal(j.terminals[s].value.state) && j.terminals[s].value.slot == s
    {
      var i := SlotOfRing(w.log, j.terminals, s);
      assert EntrySound(w.log, i);
    }
    forall s, t | 0 <= s < t < |j.terminals| && Filled(j, s) && Filled(j, t)
      ensures j.terminals[s].value.id != j.terminals[t].value.id
    {
      var i := SlotOfRing(w.log, j.terminals, s);
      var k := SlotOfRing(w.log, j.terminals, t);
      assert DistinctIds(w.log, i, k) && DistinctIds(w.log, k, i);
    }
  }

  lemma CursorAccepted(w: World)
    requires Consistent(w)
    ensures CursorFresh(w.store.journal)
  {
    var j, n := w.store.journal, |w.log|;
    forall f | f in FilledSlots(j) && FilledSlots(j) == {f} && j.active.None?
      ensures j.cursor == (f + 1) % TERMINAL_COUNT
    {
      assert EmptyAt(w.log, j.terminals, f) && HeldAt(w.log, j.terminals, n - 1);
      assert Filled(j, (n - 1) % TERMINAL_COUNT);
      assert (n - 1) % TERMINAL_COUNT in FilledSlots(j);
    }
  }

  /** A logged update of this boot that is newest in the log names the restart identity. */
  lemma LastUpdateIdentity(w: World)
    requires Consistent(w) && |w.log| > 0 && !AppliedOnly(w.store.journal)
    requires IsUpdateOf(w.log[|w.log| - 1], w.store.journal.restart.bootId)
    ensures w.store.journal.restart.lastApplied == Some(w.log[|w.log| - 1].id)
  {
    var r, n := w.store.journal.restart, |w.log|;
    assert UpdateAt(w.log, n - 1, r.bootId);
    var i :| Newest(w.log, i, r.bootId) && Some(w.log[i].id) == r.lastApplied;
    assert i == n - 1;
  }

  lemma LastRetained(w: World)
    requires RingOf(w.log, w.store.journal.terminals) && |w.log| > 0
    ensures w.store.journal.terminals[(|w.log| - 1) % TERMINAL_COUNT] == Some(w.log[|w.log| - 1])
  {
    assert HeldAt(w.log, w.store.journal.terminals, |w.log| - 1);
  }

  lemma HandoffRules(w: World)
    requires HandoffPhase(w) && LivePhase(w) && WrittenPhase(w) && OldBoots(w)
             && |w.store.journal.terminals| == TERMINAL_COUNT
    requires |w.log| > 0 ==> w.store.journal.terminals[(|w.log| - 1) % TERMINAL_COUNT] == Some(w.log[|w.log| - 1])
    requires w.store.journal.handoff.Some? && |w.log| > 0
             && IsUpdateOf(w.log[|w.log| - 1], w.store.journal.restart.bootId)
             ==> w.store.journal.restart.lastApplied == Some(w.log[|w.log| - 1].id)
    ensures HandoffSound(w.store.journal)
  {}

  lemma HandoffAccepted(w: World)
    requires Consistent(w)
    ensures HandoffSound(w.store.journal)
  {
    if w.store.journal.handoff.Some? {
      LastRetained(w);
      if IsUpdateOf(w.log[|w.log| - 1], w.store.journal.restart.bootId) { LastUpdateIdentity(w); }
      HandoffRules(w);
    }
  }

  lemma ActiveAccepted(w: World)
    requires Consistent(w)
    ensures TerminalActiveApplied(w.store.journal)
    ensures ActiveIdSound(w.store.journal)
    ensures OldBootActiveClear(w.store.journal)
  {
    var j, n := w.store.journal, |w.log|;
    if j.active.Some? {
      if Written(j) {
        if IsUpdateOf(j.active.value, j.restart.bootId) { LastUpdateIdentity(w); }
      } else if op :| op in Retained(j) && op.id == j.active.value.id {
        RetainedIsWindow(w.log, j, op);
        assert false;
      }
    }
  }

  /** No retained update of this boot is newer than the record being settled. */
  lemma SettlingIsNewest(w: World, a: Operation, op: Operation)
    requires Consistent(w) && Settling(w, a) && OnBootClock(w.store.journal, a)
    requires op in RetainedUpdates(w.store.journal) && op != a
    ensures Mono(op) <= Mono(a)
  {
    var j, n, boot := w.store.journal, |w.log|, w.store.journal.restart.bootId;
    RetainedIsWindow(w.log, j, op);
    var i :| Oldest(w.log) <= i < n && w.log[i] == op;
    assert Effective(w)[i] == op && UpdateAt(w.log, i, boot) && UpdateAt(Effective(w), i, boot);
    if a.kind != Refresh && !(j.active == Some(a) && Unapplied(j)) {
      if AppliedOnly(j) && j.active == Some(a) {
        assert Effective(w)[n] == a && UpdateAt(Effective(w), n, boot);
      } else {
        assert w.log[n - 1] == a && Effective(w)[n - 1] == a && UpdateAt(Effective(w), n - 1, boot);
      }
    }
  }

  lemma ClocksAccepted(w: World)
    requires Consistent(w)
    ensures ActiveNotStale(w.store.journal)
    ensures HandoffNotSuperseded(w.store.journal)
  {
    var j, n := w.store.journal, |w.log|;
    if j.active.Some? && OnBootClock(j, j.active.value) && IsTerminal(j.active.value.state) {
      forall op | op in RetainedUpdates(j) && op != j.active.value
        ensures Mono(op) <= Mono(j.active.value)
      {
        SettlingIsNewest(w, j.active.value, op);
      }
    }
    if j.handoff.Some? {
      var h := w.log[n - 1];
      LastRetained(w);
      if OnBootClock(j, h) {
        forall op | op in RetainedUpdates(j) && op.id != h.id
          ensures Mono(op) <= Mono(h)
        {
          SettlingIsNewest(w, h, op);
        }
      }
    }
  }

  lemma ConsistentAccepted(w: World)
    requires Consistent(w)
    ensures CrossChecked(w.store.journal)
  {
    SlotsAccepted(w);
    CursorAccepted(w);
    HandoffAccepted(w);
    ActiveAccepted(w);
    ClocksAccepted(w);
    ConsistentWindow(w);
    ActiveIdentity(w);
    RestartRules(w.store.journal, Effective(w), Oldest(w.log));
  }
}
