/** What the restart buckets hold over runs: the strongest request of the updates that were applied since
    the bucket was last empty, counted from the newest of them. */
module BucketRuns {
  import opened Results
  import opened Lifecycle
  import opened Records
  import opened Validator
  import opened Operations
  import opened Resumption
  import opened Runs
  import opened Buckets

  // ---- the history of a bucket, read off the commits ----

  /** The active update, when this commit is the one that names it. */
  function Named(j: Journal, c: Commit): seq<Operation> {
    if c.CommitRestart? && j.active.Some? && c.restart.lastApplied == Some(j.active.value.id)
       && j.restart.lastApplied != c.restart.lastApplied then [j.active.value] else []
  }

  /** The updates applied since each bucket was last empty, oldest first. */
  datatype Held = Held(session: seq<Operation>, application: seq<Operation>)

  function Holding(h: Held, j: Journal, c: Commit): Held {
    if !c.CommitRestart? then h
    else Held(if c.restart.session == NoSession then [] else h.session + Named(j, c),
              if !c.restart.application then [] else h.application + Named(j, c))
  }

  function HeldAfter(h: Held, st: Store, cs: seq<Commit>): Held
    decreases |cs|
  {
    if cs == [] then h else HeldAfter(Holding(h, st.journal, cs[0]), Apply(st, cs[0]), cs[1..])
  }

  function HeldByEvent(h: Held, w: World, e: Event): Held {
    match e
    case CallEvent(call, survived) =>
      var cs := CommitsOf(w, call);
      HeldAfter(h, w.store, cs[..Min(survived, |cs|)])
    case RebootEvent(_) => h
  }

  function HeldByRun(h: Held, w: World, events: seq<Event>): Held
    decreases |events|
  {
    if events == [] then h else HeldByRun(HeldByEvent(h, w, events[0]), Next(w, events[0]), events[1..])
  }

  // ---- what a bucket says of its updates ----

  ghost predicate Strongest(updates: seq<Operation>, session: SessionRestart) {
    && (forall op :: op in updates ==> SessionStrength(SessionOf(op)) <= SessionStrength(session))
    && (session == NoSession || exists op :: op in updates && SessionOf(op) == session)
  }

  /** The timestamp of the last update that asked for a session. */
  function LastSession(updates: seq<Operation>): nat {
    if updates == [] then 0
    else
      var last := updates[|updates| - 1];
      if SessionOf(last) != NoSession then Mono(last) else LastSession(updates[..|updates| - 1])
  }

  ghost predicate AnyApplication(updates: seq<Operation>, application: bool) {
    application <==> exists op :: op in updates && ApplicationOf(op)
  }

  function LastApplication(updates: seq<Operation>): nat {
    if updates == [] then 0
    else
      var last := updates[|updates| - 1];
      if ApplicationOf(last) then Mono(last) else LastApplication(updates[..|updates| - 1])
  }

  ghost predicate SessionSums(r: Restart, updates: seq<Operation>) {
    Strongest(updates, r.session) && r.sessionCutoff == LastSession(updates)
        && (r.session == NoSession ==> updates == [])
  }

  ghost predicate ApplicationSums(r: Restart, updates: seq<Operation>) {
    AnyApplication(updates, r.application) && r.applicationCutoff == LastApplication(updates)
    && (!r.application ==> updates == [])
  }

  ghost predicate Sums(r: Restart, h: Held) { SessionSums(r, h.session) && ApplicationSums(r, h.application) }

  // ---- one commit ----

  lemma PruneSums(h: Held, j: Journal, boot: string, started: Option<nat>, after: Restart)
    requires Sums(j.restart, h) && Pruning(j.restart, boot, started, after)
    ensures Sums(after, Holding(h, j, CommitRestart(after)))
  {
    if j.restart.bootId == boot { assert h.session + [] == h.session && h.application + [] == h.application; }
  }

  lemma SessionGrows(r: Restart, updates: seq<Operation>, op: Operation, started: Option<nat>, after: Restart)
    requires SessionSums(r, updates) && SessionJoins(r, op, started, after)
    requires Satisfied(started, r.sessionCutoff) ==> r.session == NoSession && r.sessionCutoff == 0
    ensures SessionSums(after, if after.session == NoSession then [] else updates + [op])
  {
    var more := updates + [op];
    assert more[..|updates|] == updates;
    if after.session != NoSession {
      if after.session == SessionOf(op) {
        assert op in more;
      } else {
        var u :| u in updates && SessionOf(u) == after.session;
        assert u in more;
      }
    }
  }

  lemma ApplicationGrows(r: Restart, updates: seq<Operation>, op: Operation, started: Option<nat>, after: Restart)
    requires ApplicationSums(r, updates) && ApplicationJoins(r, op, started, after)
    requires Satisfied(started, r.applicationCutoff) ==> !r.application && r.applicationCutoff == 0
    ensures ApplicationSums(after, if !after.application then [] else updates + [op])
  {
    var more := updates + [op];
    assert more[..|updates|] == updates;
    if after.application {
      if ApplicationOf(op) {
        assert op in more;
      } else {
        var u :| u in updates && ApplicationOf(u);
        assert u in more;
      }
    }
  }

  lemma JoinSums(h: Held, j: Journal, op: Operation, started: Option<nat>)
    requires Sums(j.restart, h) && j.active == Some(op) && j.restart.lastApplied != Some(op.id)
    requires Pruned(j.restart, j.restart.bootId, started) == j.restart
    ensures var after := Contributed(j.restart, op, started); Sums(after, Holding(h, j, CommitRestart(after)))
  {
    var r := j.restart;
    PrunedIs(r, r.bootId, started);
    JoinedIs(r, op, r.bootId, started);
    var after := Contributed(r, op, started);
    assert Named(j, CommitRestart(after)) == [op];
    SessionGrows(r, h.session, op, started, after);
    ApplicationGrows(r, h.application, op, started, after);
  }

  /** A restart commit that a call may make. */
  predicate Restarting(j: Journal, after: Restart, boot: string, started: Option<nat>) {
    || after == Pruned(j.restart, boot, started)
    || (j.active.Some? && j.restart.lastApplied != Some(j.active.value.id)
        && Pruned(j.restart, j.restart.bootId, started) == j.restart
        && after == Contributed(j.restart, j.active.value, started))
  }

  lemma CommitSums(h: Held, st: Store, c: Commit, boot: string, started: Option<nat>)
    requires Sums(st.journal.restart, h)
    requires c.CommitRestart? ==> Restarting(st.journal, c.restart, boot, started)
    ensures Sums(Apply(st, c).journal.restart, Holding(h, st.journal, c))
  {
    if c.CommitRestart? {
      if c.restart == Pruned(st.journal.restart, boot, started) {
        PrunedIs(st.journal.restart, boot, started);
        PruneSums(h, st.journal, boot, started, c.restart);
      } else {
        JoinSums(h, st.journal, st.journal.active.value, started);
      }
    }
  }

  // ---- a call, and a run ----

  lemma SlottedAfter(st: Store, c: Commit)
    requires Slotted(st) && (c.CommitActive? && c.active.Some? ==> c.active.value.slot < TERMINAL_COUNT)
    ensures Slotted(Apply(st, c))
  {}

  /** The first commit of a completion. */
  lemma CompletionStep(st: Store, boot: Option<string>, started: Option<nat>)
    requires Slotted(st) && CompleteCommits(st.journal, boot, started) != []
    ensures var c := CompleteCommits(st.journal, boot, started)[0];
      && (c.CommitRestart? ==> boot.Some? && Restarting(st.journal, c.restart, boot.value, started))
      && (c.CommitActive? && c.active.Some? ==> c.active.value.slot < TERMINAL_COUNT)
  {
    var j, op := st.journal, st.journal.active.value;
    var first, ring := RestartPart(j.restart, op, boot, started), RingCommits(j, op);
    if first == [] {
      assert first + ring == ring;
      RingResumes(st, op);
    } else {
      assert (first + ring)[0] == first[0];
      if Pruned(j.restart, boot.value, started) == j.restart {
        assert PruneCommits(j.restart, boot.value, started) == [];
        SameBoot(j.restart, boot.value, started);
      }
    }
  }

  lemma SameBoot(r: Restart, boot: string, started: Option<nat>)
    ensures Pruned(r, boot, started) == r ==> r.bootId == boot
  {}

  lemma FirstOfMany(h: Held, st: Store, cs: seq<Commit>, k: nat)
    requires 0 < k <= |cs|
    ensures ApplyAll(st, cs[..k]) == ApplyAll(Apply(st, cs[0]), cs[1..][..k - 1])
    ensures HeldAfter(h, st, cs[..k]) == HeldAfter(Holding(h, st.journal, cs[0]), Apply(st, cs[0]), cs[1..][..k - 1])
  {
    PrefixTail(cs, k);
  }

  lemma {:induction false} CompletionSums(h: Held, st: Store, boot: Option<string>, started: Option<nat>, k: nat)
    requires Slotted(st) && Sums(st.journal.restart, h) && k <= |CompleteCommits(st.journal, boot, started)|
    ensures var cs := CompleteCommits(st.journal, boot, started)[..k];
      Slotted(ApplyAll(st, cs)) && Sums(ApplyAll(st, cs).journal.restart, HeldAfter(h, st, cs))
    decreases k
  {
    if k > 0 {
      var cs := CompleteCommits(st.journal, boot, started);
      CompletionStep(st, boot, started);
      CommitSums(h, st, cs[0], if boot.Some? then boot.value else "", started);
      SlottedAfter(st, cs[0]);
      ResumeStep(st, boot, started);
      FirstOfMany(h, st, cs, k);
      CompletionSums(Holding(h, st.journal, cs[0]), Apply(st, cs[0]), boot, started, k - 1);
    }
  }

  lemma SingleSums(h: Held, st: Store, c: Commit, k: nat, boot: string, started: Option<nat>)
    requires k <= 1 && Slotted(st) && Sums(st.journal.restart, h)
    requires c.CommitRestart? ==> Restarting(st.journal, c.restart, boot, started)
    requires c.CommitActive? && c.active.Some? ==> c.active.value.slot < TERMINAL_COUNT
    ensures var cs := [c][..k];
      Slotted(ApplyAll(st, cs)) && Sums(ApplyAll(st, cs).journal.restart, HeldAfter(h, st, cs))
  {
    if k == 1 {
      CommitSums(h, st, c, boot, started);
      SlottedAfter(st, c);
      assert [c][..1] == [c] && [c][1..] == [];
      assert ApplyAll(st, [c]) == ApplyAll(Apply(st, c), []);
      assert HeldAfter(h, st, [c]) == HeldAfter(Holding(h, st.journal, c), Apply(st, c), []);
    }
  }

  lemma CallSums(h: Held, w: World, call: Call, k: nat)
    requires Slotted(w.store) && Sums(w.store.journal.restart, h) && k <= |CommitsOf(w, call)|
    ensures var cs := CommitsOf(w, call)[..k];
      Slotted(ApplyAll(w.store, cs)) && Sums(ApplyAll(w.store, cs).journal.restart, HeldAfter(h, w.store, cs))
  {
    var cs := CommitsOf(w, call);
    if cs != [] {
      match call {
        case CompleteCall(evidence, started) =>
          CompletionSums(h, w.store, if evidence then Some(w.boot) else None, started, k);
        case PruneCall(started) => SingleSums(h, w.store, cs[0], k, w.boot, started);
        case _ => SingleSums(h, w.store, cs[0], k, w.boot, None);
      }
    }
  }

  lemma {:induction false} RunSums(h: Held, w: World, events: seq<Event>)
    requires Slotted(w.store) && Sums(w.store.journal.restart, h)
    ensures Sums(Run(w, events).store.journal.restart, HeldByRun(h, w, events))
    decreases |events|
  {
    if events != [] {
      var e := events[0];
      if e.CallEvent? {
        var cs := CommitsOf(w, e.call);
        CallSums(h, w, e.call, Min(e.survived, |cs|));
        CommittedStore(w, cs[..Min(e.survived, |cs|)]);
      }
      RunSums(HeldByEvent(h, w, e), Next(w, e), events[1..]);
    }
  }

  /** In every run, crashes and reboots included, each bucket is exactly the strongest request of the
      updates applied since it was last empty, with the timestamp of the newest that asked. */
  lemma EveryRunSums(boot: string, events: seq<Event>)
    ensures Sums(Run(InitialWorld(boot), events).store.journal.restart,
                 HeldByRun(Held([], []), InitialWorld(boot), events))
  {
    RunSums(Held([], []), InitialWorld(boot), events);
  }
}
