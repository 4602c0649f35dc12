/** complete_journal_terminal is resumable: after any of its commits, a rerun with the
    same evidence makes exactly the commits that were still to come. */
module Resumption {
  import opened Results
  import opened Lifecycle
  import opened Records
  import opened Validator
  import opened Operations

  lemma SatisfyIdempotent(r: Restart, started: Option<nat>)
    ensures SatisfySession(SatisfySession(r, started), started) == SatisfySession(r, started)
  {}

  lemma PruneIdempotent(r: Restart, boot: string, started: Option<nat>)
    ensures Pruned(Pruned(r, boot, started), boot, started) == Pruned(r, boot, started)
  {
    SatisfyIdempotent(r, started);
  }

  predicate Slotted(st: Store) {
    && |st.journal.terminals| == TERMINAL_COUNT && |st.sequences.terminals| == TERMINAL_COUNT
    && (st.journal.active.Some? ==> st.journal.active.value.slot < TERMINAL_COUNT)
  }

  lemma ContributedIsPruned(r: Restart, op: Operation, started: Option<nat>)
    ensures Pruned(Contributed(r, op, started), r.bootId, started) == Contributed(r, op, started)
  {}

  /** The restart half of the plan, one commit forward. */
  lemma RestartResumes(r: Restart, op: Operation, boot: Option<string>, started: Option<nat>)
    requires RestartPart(r, op, boot, started) != []
    ensures var cs := RestartPart(r, op, boot, started);
      cs[0].CommitRestart? && RestartPart(cs[0].restart, op, boot, started) == cs[1..]
  {
    PruneIdempotent(r, boot.value, started);
    if Pruned(r, boot.value, started) == r {
      ContributedIsPruned(r, op, started);
      assert PruneCommits(r, boot.value, started) == [];
    } else {
      assert PruneCommits(Pruned(r, boot.value, started), boot.value, started) == [];
    }
  }

  /** The ring half of the plan, one commit forward. */
  lemma RingResumes(st: Store, op: Operation)
    requires Slotted(st) && op.slot < TERMINAL_COUNT
    ensures var cs := RingCommits(st.journal, op);
      if cs[0] == CommitActive(None) then cs[1..] == []
      else
        && !cs[0].CommitActive? && !cs[0].CommitRestart?
        && RingCommits(Apply(st, cs[0]).journal, op) == cs[1..]
        && Apply(st, cs[0]).journal.active == st.journal.active
        && Apply(st, cs[0]).journal.restart == st.journal.restart
  {}

  lemma RingAfterRestart(st: Store, r: Restart, op: Operation)
    ensures var next := Apply(st, CommitRestart(r)).journal;
      next.active == st.journal.active && next.restart == r && RingCommits(next, op) == RingCommits(st.journal, op)
  {}

  lemma ConcatTail<T>(a: seq<T>, b: seq<T>)
    requires a != []
    ensures (a + b)[0] == a[0] && (a + b)[1..] == a[1..] + b
  {}

  lemma ResumeRestart(st: Store, op: Operation, boot: Option<string>, started: Option<nat>)
    requires st.journal.active == Some(op) && RestartPart(st.journal.restart, op, boot, started) != []
    ensures var cs := CompleteCommits(st.journal, boot, started);
      cs != [] && CompleteCommits(Apply(st, cs[0]).journal, boot, started) == cs[1..]
  {
    var first := RestartPart(st.journal.restart, op, boot, started);
    RestartResumes(st.journal.restart, op, boot, started);
    RingAfterRestart(st, first[0].restart, op);
    ConcatTail(first, RingCommits(st.journal, op));
  }

  lemma ResumeRing(st: Store, op: Operation, boot: Option<string>, started: Option<nat>)
    requires Slotted(st) && st.journal.active == Some(op) && RestartPart(st.journal.restart, op, boot, started) == []
    ensures var cs := CompleteCommits(st.journal, boot, started);
      cs == RingCommits(st.journal, op) && CompleteCommits(Apply(st, cs[0]).journal, boot, started) == cs[1..]
  {
    var ring := RingCommits(st.journal, op);
    assert RestartPart(st.journal.restart, op, boot, started) + ring == ring;
    RingResumes(st, op);
  }

  /** One commit forward, the remaining commits are the tail of the plan. */
  lemma ResumeStep(st: Store, boot: Option<string>, started: Option<nat>)
    requires Slotted(st) && CompleteCommits(st.journal, boot, started) != []
    ensures var cs := CompleteCommits(st.journal, boot, started);
      CompleteCommits(Apply(st, cs[0]).journal, boot, started) == cs[1..]
  {
    var op := st.journal.active.value;
    if RestartPart(st.journal.restart, op, boot, started) != [] {
      ResumeRestart(st, op, boot, started);
    } else {
      ResumeRing(st, op, boot, started);
    }
  }

  lemma PrefixTail<T>(s: seq<T>, k: nat)
    requires 0 < k <= |s|
    ensures s[..k][0] == s[0] && s[..k][1..] == s[1..][..k - 1] && s[1..][k - 1..] == s[k..]
  {}

  /** Stopped after k commits and rerun, the call makes exactly the commits k, k + 1, ... */
  lemma {:induction false} CompleteResumes(st: Store, boot: Option<string>, started: Option<nat>, k: nat)
    requires Slotted(st) && k <= |CompleteCommits(st.journal, boot, started)|
    ensures var cs := CompleteCommits(st.journal, boot, started);
      CompleteCommits(ApplyAll(st, cs[..k]).journal, boot, started) == cs[k..]
    decreases k
  {
    var cs := CompleteCommits(st.journal, boot, started);
    if k > 0 {
      ResumeStep(st, boot, started);
      CompleteResumes(Apply(st, cs[0]), boot, started, k - 1);
      PrefixTail(cs, k);
    }
  }

  lemma {:induction false} ApplyAllConcat(st: Store, a: seq<Commit>, b: seq<Commit>)
    ensures ApplyAll(st, a + b) == ApplyAll(ApplyAll(st, a), b)
    decreases a
  {
    if a == [] {
      assert a + b == b;
    } else {
      assert (a + b)[0] == a[0] && (a + b)[1..] == a[1..] + b;
      ApplyAllConcat(Apply(st, a[0]), a[1..], b);
    }
  }

  /** Crashed after any number of commits and rerun with the same evidence, completion
      ends in the very store of an uninterrupted call, frame sequences included. */
  lemma CrashedCompletionConverges(st: Store, boot: Option<string>, started: Option<nat>, k: nat)
    requires Slotted(st) && k <= |CompleteCommits(st.journal, boot, started)|
    ensures var cs := CompleteCommits(st.journal, boot, started);
      var crashed := ApplyAll(st, cs[..k]);
      ApplyAll(crashed, CompleteCommits(crashed.journal, boot, started)) == ApplyAll(st, cs)
  {
    var cs := CompleteCommits(st.journal, boot, started);
    CompleteResumes(st, boot, started, k);
    assert cs == cs[..k] + cs[k..];
    ApplyAllConcat(st, cs[..k], cs[k..]);
  }

  /** The restart record an uninterrupted completion ends with. */
  function FinalRestart(r: Restart, op: Operation, boot: Option<string>, started: Option<nat>): Restart {
    if op.kind != Update || boot.None? then r
    else
      var pruned := Pruned(r, boot.value, started);
      if op.bootId == boot && pruned.lastApplied != Some(op.id) then Contributed(pruned, op, started) else pruned
  }

  /** The journal an uninterrupted completion ends with: the record in its slot, named by
      the cursor and the handoff, the active record cleared, the contribution applied. */
  function Completed(j: Journal, boot: Option<string>, started: Option<nat>): Journal
    requires j.active.Some? && j.active.value.slot < |j.terminals|
  {
    var op := j.active.value;
    Journal((op.slot + 1) % TERMINAL_COUNT, FinalRestart(j.restart, op, boot, started), None,
            Some(Handoff(op.id, op.slot)), j.terminals[op.slot := Some(op)])
  }

  lemma RingEffect(st: Store, op: Operation)
    requires Slotted(st) && st.journal.active == Some(op)
    ensures ApplyAll(st, RingCommits(st.journal, op)).journal == Completed(st.journal, None, None)
    decreases |RingCommits(st.journal, op)|
  {
    var cs := RingCommits(st.journal, op);
    RingResumes(st, op);
    if cs[0] == CommitActive(None) {
      assert st.journal.terminals[op.slot := Some(op)] == st.journal.terminals;
    } else {
      RingEffect(Apply(st, cs[0]), op);
    }
  }

  lemma RestartEffect(st: Store, op: Operation, boot: Option<string>, started: Option<nat>)
    requires Slotted(st) && st.journal.active == Some(op) && RestartPart(st.journal.restart, op, boot, started) != []
    ensures var next := Apply(st, CompleteCommits(st.journal, boot, started)[0]);
      Slotted(next) && next.journal.active == Some(op)
      && Completed(next.journal, boot, started) == Completed(st.journal, boot, started)
  {
    var r := st.journal.restart;
    PruneIdempotent(r, boot.value, started);
    if Pruned(r, boot.value, started) == r { ContributedIsPruned(r, op, started); }
  }

  /** An uninterrupted completion reaches Completed. */
  lemma CompletionEffect(st: Store, boot: Option<string>, started: Option<nat>)
    requires Slotted(st) && st.journal.active.Some?
    ensures ApplyAll(st, CompleteCommits(st.journal, boot, started)).journal == Completed(st.journal, boot, started)
    decreases |CompleteCommits(st.journal, boot, started)|
  {
    var op := st.journal.active.value;
    if RestartPart(st.journal.restart, op, boot, started) != [] {
      ResumeRestart(st, op, boot, started);
      RestartEffect(st, op, boot, started);
      CompletionEffect(Apply(st, CompleteCommits(st.journal, boot, started)[0]), boot, started);
    } else {
      ResumeRing(st, op, boot, started);
      RingEffect(st, op);
    }
  }
}
