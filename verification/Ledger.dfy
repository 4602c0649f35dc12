/** The restart record as a summary of the completed updates of its boot: what
    contributing, satisfying and clearing do to that summary. */
module Ledger {
  import opened Results
  import opened Lifecycle
  import opened Records
  import opened Validator
  import opened Operations

  predicate UpdateAt(log: seq<Operation>, i: int, boot: string) {
    0 <= i < |log| && IsUpdateOf(log[i], boot)
  }

  /** The boot's updates carry positive, strictly increasing timestamps. */
  ghost predicate Increasing(log: seq<Operation>, boot: string) {
    && (forall i :: UpdateAt(log, i, boot) ==> 0 < Mono(log[i]))
    && (forall i, k :: UpdateAt(log, i, boot) && UpdateAt(log, k, boot) && i < k ==> Mono(log[i]) < Mono(log[k]))
  }

  /** i is the boot's newest update, and its identity was not used again. */
  ghost predicate Newest(log: seq<Operation>, i: int, boot: string) {
    UpdateAt(log, i, boot)
    && forall k :: i < k < |log| ==> !IsUpdateOf(log[k], boot) && log[k].id != log[i].id
  }

  ghost predicate IdentityOf(r: Restart, log: seq<Operation>) {
    match r.lastApplied
    case None => AllClear(r) && forall i :: !UpdateAt(log, i, r.bootId)
    case Some(id) => exists i :: Newest(log, i, r.bootId) && log[i].id == id
  }

  ghost predicate SystemOfLog(r: Restart, log: seq<Operation>) {
    && (forall i :: UpdateAt(log, i, r.bootId) ==> SystemStrength(SystemOf(log[i])) <= SystemStrength(r.system))
    && (r.system == NoSystem || exists i :: UpdateAt(log, i, r.bootId) && SystemOf(log[i]) == r.system)
  }

  /** i is the newest update of the boot that asked for a session restart. */
  ghost predicate NewestSession(log: seq<Operation>, i: int, boot: string) {
    UpdateAt(log, i, boot) && SessionOf(log[i]) != NoSession
    && forall k :: i < k < |log| && IsUpdateOf(log[k], boot) ==> SessionOf(log[k]) == NoSession
  }

  ghost predicate SessionOfLog(r: Restart, log: seq<Operation>) {
    if r.session == NoSession then r.sessionCutoff == 0
    else
      && (exists i :: NewestSession(log, i, r.bootId) && Mono(log[i]) == r.sessionCutoff
                      && SessionStrength(SessionOf(log[i])) <= SessionStrength(r.session))
      && (exists i :: UpdateAt(log, i, r.bootId) && SessionOf(log[i]) == r.session)
  }

  ghost predicate NewestApplication(log: seq<Operation>, i: int, boot: string) {
    UpdateAt(log, i, boot) && ApplicationOf(log[i])
    && forall k :: i < k < |log| && IsUpdateOf(log[k], boot) ==> !ApplicationOf(log[k])
  }

  ghost predicate ApplicationOfLog(r: Restart, log: seq<Operation>) {
    if !r.application then r.applicationCutoff == 0
    else exists i :: NewestApplication(log, i, r.bootId) && Mono(log[i]) == r.applicationCutoff
  }

  ghost predicate Summarizes(r: Restart, log: seq<Operation>) {
    && Increasing(log, r.bootId)
    && IdentityOf(r, log)
    && SystemOfLog(r, log)
    && SessionOfLog(r, log)
    && ApplicationOfLog(r, log)
  }

  /** A terminal update that may join the summary next. */
  ghost predicate Follows(log: seq<Operation>, op: Operation, boot: string) {
    IsUpdateOf(op, boot) && 0 < Mono(op) && forall i :: UpdateAt(log, i, boot) ==> Mono(log[i]) < Mono(op)
  }

  lemma ClearSummarizes(log: seq<Operation>, boot: string)
    requires forall i :: !UpdateAt(log, i, boot)
    ensures Summarizes(ClearRestart(boot), log)
  {}

  lemma SatisfyKeeps(r: Restart, log: seq<Operation>, started: Option<nat>)
    requires Summarizes(r, log)
    ensures Summarizes(SatisfySession(r, started), log)
  {
    var s := SatisfySession(r, started);
    assert s.bootId == r.bootId && s.lastApplied == r.lastApplied && s.system == r.system;
    if s.session != NoSession { assert s.session == r.session && s.sessionCutoff == r.sessionCutoff; }
    if s.application { assert s.applicationCutoff == r.applicationCutoff; }
  }

  /** Operations of another kind or boot, with a new identity, leave the summary alone. */
  lemma OtherKeeps(r: Restart, log: seq<Operation>, op: Operation)
    requires Summarizes(r, log)
    requires !IsUpdateOf(op, r.bootId) && r.lastApplied != Some(op.id)
    ensures Summarizes(r, log + [op])
  {
    var more := log + [op];
    assert forall i :: 0 <= i < |log| ==> more[i] == log[i];
    assert forall i :: UpdateAt(more, i, r.bootId) <==> UpdateAt(log, i, r.bootId);
    if r.lastApplied.Some? {
      var i :| Newest(log, i, r.bootId) && log[i].id == r.lastApplied.value;
      assert Newest(more, i, r.bootId);
    }
    OtherKeepsBuckets(r, log, op);
  }

  lemma OtherKeepsBuckets(r: Restart, log: seq<Operation>, op: Operation)
    requires SystemOfLog(r, log) && SessionOfLog(r, log) && ApplicationOfLog(r, log) && !IsUpdateOf(op, r.bootId)
    ensures SystemOfLog(r, log + [op]) && SessionOfLog(r, log + [op]) && ApplicationOfLog(r, log + [op])
  {
    var more := log + [op];
    assert forall i :: UpdateAt(more, i, r.bootId) ==> UpdateAt(log, i, r.bootId) && more[i] == log[i];
    assert forall i :: UpdateAt(log, i, r.bootId) ==> UpdateAt(more, i, r.bootId) && more[i] == log[i];
    if r.session != NoSession {
      var i :| NewestSession(log, i, r.bootId) && Mono(log[i]) == r.sessionCutoff
               && SessionStrength(SessionOf(log[i])) <= SessionStrength(r.session);
      assert NewestSession(more, i, r.bootId);
    }
    if r.application {
      var i :| NewestApplication(log, i, r.bootId) && Mono(log[i]) == r.applicationCutoff;
      assert NewestApplication(more, i, r.bootId);
    }
  }

  /** The record an update leaves before session satisfaction is applied again. */
  function Joined(r: Restart, op: Operation): Restart { Contributed(r, op, None) }

  lemma JoinKeeps(r: Restart, log: seq<Operation>, op: Operation)
    requires Summarizes(r, log) && Follows(log, op, r.bootId)
    ensures Summarizes(Joined(r, op), log + [op])
  {
    var more, s, n := log + [op], Joined(r, op), |log|;
    assert more[n] == op;
    assert forall i :: 0 <= i < n ==> more[i] == log[i];
    assert forall i :: UpdateAt(more, i, r.bootId) <==> UpdateAt(log, i, r.bootId) || i == n;
    assert Newest(more, n, s.bootId);
    JoinKeepsSystem(r, log, op);
    JoinKeepsSession(r, log, op);
    JoinKeepsApplication(r, log, op);
  }

  lemma JoinKeepsSystem(r: Restart, log: seq<Operation>, op: Operation)
    requires SystemOfLog(r, log) && IsUpdateOf(op, r.bootId)
    ensures SystemOfLog(Joined(r, op), log + [op])
  {
    var more, s, n := log + [op], Joined(r, op), |log|;
    assert more[n] == op;
    assert forall i :: UpdateAt(more, i, r.bootId) ==> i == n || (UpdateAt(log, i, r.bootId) && more[i] == log[i]);
    if s.system == SystemOf(op) {
      assert UpdateAt(more, n, s.bootId);
    } else if r.system != NoSystem {
      var i :| UpdateAt(log, i, r.bootId) && SystemOf(log[i]) == r.system;
      assert UpdateAt(more, i, s.bootId) && more[i] == log[i];
    }
  }

  lemma JoinKeepsSession(r: Restart, log: seq<Operation>, op: Operation)
    requires SessionOfLog(r, log) && IsUpdateOf(op, r.bootId)
    ensures SessionOfLog(Joined(r, op), log + [op])
  {
    var more, s, n := log + [op], Joined(r, op), |log|;
    assert more[n] == op && UpdateAt(more, n, s.bootId);
    assert forall i :: 0 <= i < n ==> more[i] == log[i];
    if SessionOf(op) != NoSession {
      assert NewestSession(more, n, s.bootId);
    } else if r.session != NoSession {
      var i :| NewestSession(log, i, r.bootId) && Mono(log[i]) == r.sessionCutoff
               && SessionStrength(SessionOf(log[i])) <= SessionStrength(r.session);
      assert NewestSession(more, i, s.bootId);
    }
    if s.session != NoSession && s.session != SessionOf(op) {
      var k :| UpdateAt(log, k, r.bootId) && SessionOf(log[k]) == r.session;
      assert UpdateAt(more, k, s.bootId) && SessionOf(more[k]) == s.session;
    }
  }

  lemma JoinKeepsApplication(r: Restart, log: seq<Operation>, op: Operation)
    requires ApplicationOfLog(r, log) && IsUpdateOf(op, r.bootId)
    ensures ApplicationOfLog(Joined(r, op), log + [op])
  {
    var more, s, n := log + [op], Joined(r, op), |log|;
    assert more[n] == op && UpdateAt(more, n, s.bootId);
    assert forall i :: 0 <= i < n ==> more[i] == log[i];
    if ApplicationOf(op) {
      assert NewestApplication(more, n, s.bootId);
    } else if r.application {
      var i :| NewestApplication(log, i, r.bootId) && Mono(log[i]) == r.applicationCutoff;
      assert NewestApplication(more, i, s.bootId);
    }
  }

  /** Contributing extends the summarized log by exactly the contributing update. */
  lemma ContributionKeeps(r: Restart, log: seq<Operation>, op: Operation, started: Option<nat>)
    requires Summarizes(r, log) && Follows(log, op, r.bootId)
    ensures Summarizes(Contributed(r, op, started), log + [op])
  {
    JoinKeeps(r, log, op);
    SatisfyKeeps(Joined(r, op), log + [op], started);
  }
}
