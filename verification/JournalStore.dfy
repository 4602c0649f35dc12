/** The journal calls as the source runs them: step by step, against files that stop taking
    commits when the process is killed. Each call leaves exactly the prefix of the commits that
    Operations gives it, so that every theorem about runs is about these methods. */
module JournalStore {
  import opened Results
  import opened Lifecycle
  import opened Text
  import opened Records
  import opened Validator
  import opened Operations
  import opened Runs
  import opened Resumption
  import opened Buckets

  /** A call returns, raises, or is killed inside a commit. */
  datatype Outcome<T> = Returned(value: T) | Raised(refusal: Refusal) | Killed

  /** The store after as many of these commits as there is power for. */
  function Powered(st: Store, cs: seq<Commit>, power: nat): Store { ApplyAll(st, cs[..Min(power, |cs|)]) }

  /** The power left. */
  function Spent(cs: seq<Commit>, power: nat): nat { power - Min(power, |cs|) }

  lemma PoweredNone(st: Store, power: nat)
    ensures Powered(st, [], power) == st && Spent([], power) == power
  {}

  lemma PoweredWhole(st: Store, cs: seq<Commit>, power: nat)
    ensures power >= |cs| ==> Powered(st, cs, power) == ApplyAll(st, cs)
  {
    assert cs[..|cs|] == cs;
  }

  lemma PoweredHead(st: Store, c: Commit, rest: seq<Commit>, power: nat)
    ensures Powered(st, [c] + rest, power) == if power == 0 then st else Powered(Apply(st, c), rest, power - 1)
    ensures Spent([c] + rest, power) == if power == 0 then 0 else Spent(rest, power - 1)
  {
    var cs, k := [c] + rest, Min(power, |rest| + 1);
    assert cs[1..] == rest;
    if k > 0 { assert cs[..k][0] == c && cs[..k][1..] == rest[..k - 1]; }
  }

  class JournalFiles {
    var active: Option<Operation>
    var restart: Restart
    var handoff: Option<Handoff>
    var cursor: nat
    var terminals: seq<Option<Operation>>
    var sequences: Sequences
    /** How many more commits reach storage before the process is killed. */
    var power: nat

    function Journal(): Journal
      reads this
    {
      Validator.Journal(cursor, restart, active, handoff, terminals)
    }

    function Contents(): Store
      reads this
    {
      Store(Journal(), sequences)
    }

    /** initialize_journal_layout on an empty directory. */
    constructor (bootId: string, power: nat)
      ensures Contents() == InitialStore(bootId) && this.power == power
    {
      active, handoff, cursor := None, None, 0;
      restart := ClearRestart(bootId);
      terminals := seq(TERMINAL_COUNT, _ => None);
      sequences := Sequences(1, 1, 1, 1, seq(TERMINAL_COUNT, _ => 1));
      this.power := power;
    }

    /** commit_writable_journal_path, for any file. */
    method Commit(c: Commit) returns (durable: bool)
      modifies this
      ensures durable == (old(power) > 0)
      ensures Contents() == if durable then Apply(old(Contents()), c) else old(Contents())
      ensures power == if durable then old(power) - 1 else old(power)
    {
      if power == 0 { return false; }
      power := power - 1;
      match c {
        case CommitActive(a) =>
          active := a;
          sequences := sequences.(active := sequences.active + 1);
        case CommitRestart(r) =>
          restart := r;
          sequences := sequences.(restart := sequences.restart + 1);
        case CommitTerminal(slot, op) =>
          if slot < |terminals| && slot < |sequences.terminals| {
            terminals := terminals[slot := Some(op)];
            sequences := sequences.(terminals := sequences.terminals[slot := sequences.terminals[slot] + 1]);
          }
        case CommitCursor(n) =>
          cursor := n;
          sequences := sequences.(cursor := sequences.cursor + 1);
        case CommitHandoff(h) =>
          handoff := h;
          sequences := sequences.(handoff := sequences.handoff + 1);
      }
      return true;
    }

    // ---- begin ----

    /** generate_journal_operation_id: up to four draws. */
    method GenerateId(draws: seq<string>) returns (id: Option<string>)
      ensures id == FreshId(draws, RetainedIds(Journal()))
    {
      var taken := RetainedIds(Journal());
      var attempt := 0;
      while attempt < |draws|
        invariant 0 <= attempt <= |draws|
        invariant FreshId(draws, taken) == FreshId(draws[attempt..], taken)
      {
        if draws[attempt] !in taken { return Some(draws[attempt]); }
        assert draws[attempt..][1..] == draws[attempt + 1..];
        attempt := attempt + 1;
      }
      return None;
    }

    /** The slot search of prepare_journal_admission. */
    method FindSlot() returns (slot: Option<nat>)
      ensures slot == ReusableSlot(Contents(), 0)
    {
      var offset := 0;
      while offset < TERMINAL_COUNT
        invariant 0 <= offset <= TERMINAL_COUNT
        invariant ReusableSlot(Contents(), 0) == ReusableSlot(Contents(), offset)
      {
        var candidate := (cursor + offset) % TERMINAL_COUNT;
        if SlotHeadroom(sequences, candidate) { return Some(candidate); }
        offset := offset + 1;
      }
      return None;
    }

    /** begin_journal_operation. */
    method BeginOperation(request: Request, draws: seq<string>) returns (r: Outcome<Operation>)
      modifies this
      ensures match Begin(old(Contents()), request, draws)
        case Err(e) => r == Raised(e) && Contents() == old(Contents()) && power == old(power)
        case Ok(op) =>
          && r == (if old(power) == 0 then Killed else Returned(op))
          && Contents() == Powered(old(Contents()), [CommitActive(Some(op))], old(power))
          && power == Spent([CommitActive(Some(op))], old(power))
    {
      if !Accepted(Journal()) { return Raised(Malformed); }
      if active.Some? || handoff.Some? { return Raised(Blocked); }
      if !ControlHeadroom(sequences) { return Raised(NoHeadroom); }
      var slot := FindSlot();
      if slot.None? { return Raised(NoSlot); }
      var id := GenerateId(draws);
      if id.None? { return Raised(NoIdentity); }
      var op := PendingOperation(request, id.value, slot.value);
      if !OperationEncodable(op) { return Raised(Malformed); }
      if !IsNative(op.kind) && request.bootId != Some(restart.bootId) { return Raised(BootBoundary); }
      PoweredSingle(Contents(), CommitActive(Some(op)), power);
      var durable := Commit(CommitActive(Some(op)));
      return if durable then Returned(op) else Killed;
    }

    // ---- advance ----

    /** advance_journal_operation. */
    method AdvanceOperation(expected: Operation, following: Operation, recoveryBoot: Option<string>)
      returns (r: Outcome<Operation>)
      modifies this
      ensures match Advance(old(Journal()), expected, following, recoveryBoot)
        case Err(e) => r == Raised(e) && Contents() == old(Contents()) && power == old(power)
        case Ok(None) => r == Returned(following) && Contents() == old(Contents()) && power == old(power)
        case Ok(Some(op)) =>
          && op == following && r == (if old(power) == 0 then Killed else Returned(following))
          && Contents() == Powered(old(Contents()), [CommitActive(Some(following))], old(power))
          && power == Spent([CommitActive(Some(following))], old(power))
    {
      if !OperationEncodable(expected) || !OperationEncodable(following) { return Raised(Malformed); }
      if !Accepted(Journal()) { return Raised(Malformed); }
      if active != Some(expected) { return Raised(StaleObservation); }
      if following == expected { return Returned(following); }
      if !SameIdentity(expected, following) { return Raised(IdentityChanged); }
      var sameState := following.state == expected.state;
      if IsTerminal(expected.state) || (!sameState && following.state !in Transitions(expected.state)) {
        return Raised(BadTransition);
      }
      var replacement := false;
      if recoveryBoot.Some? {
        if !IsBootId(recoveryBoot.value) || expected.kind != Update || !IsTerminal(following.state) {
          return Raised(BadBoundary);
        }
        replacement := RecoveryReplacement(expected, following, recoveryBoot);
      }
      if expected.kind == Update && !replacement && Weakens(expected, following) { return Raised(Weakened); }
      if sameState && SameContribution(expected, following) { return Raised(NothingDurable); }
      if !Accepted(WithActive(Journal(), following)) { return Raised(Malformed); }
      PoweredSingle(Contents(), CommitActive(Some(following)), power);
      var durable := Commit(CommitActive(Some(following)));
      return if durable then Returned(following) else Killed;
    }

    // ---- prune ----

    /** prune_journal_restart. */
    method PruneRestart(bootId: Option<string>, sessionStarted: Option<nat>) returns (r: Outcome<Restart>)
      modifies this
      ensures match Prune(old(Journal()), bootId, sessionStarted)
        case Err(e) => r == Raised(e) && Contents() == old(Contents()) && power == old(power)
        case Ok(cs) =>
          && r == (if old(power) < |cs| then Killed else Returned(Pruned(old(restart), bootId.value, sessionStarted)))
          && Contents() == Powered(old(Contents()), cs, old(power)) && power == Spent(cs, old(power))
      ensures r.Returned? ==>
        r.value == restart && bootId.Some? && Pruning(old(restart), bootId.value, sessionStarted, restart)
    {
      if bootId.None? || !IsBootId(bootId.value) { return Raised(Malformed); }
      if sessionStarted.Some? && !IsUint64(sessionStarted.value) { return Raised(Malformed); }
      if !Accepted(Journal()) { return Raised(Malformed); }
      var pruned := restart;
      if restart.bootId != bootId.value {
        pruned := ClearRestart(bootId.value);
      } else if sessionStarted.Some? {
        if sessionStarted.value > restart.sessionCutoff { pruned := pruned.(session := NoSession, sessionCutoff := 0); }
        if sessionStarted.value > restart.applicationCutoff {
          pruned := pruned.(application := false, applicationCutoff := 0);
        }
      }
      PoweredNone(Contents(), power);
      PrunedIs(restart, bootId.value, sessionStarted);
      if pruned != restart {
        PoweredSingle(Contents(), CommitRestart(pruned), power);
        var durable := Commit(CommitRestart(pruned));
        if !durable { return Killed; }
      }
      return Returned(pruned);
    }

    // ---- complete ----

    /** Make one commit of a plan: what is left of the plan is what the rest of the call must make. */
    method Step(c: Commit, ghost rest: seq<Commit>) returns (durable: bool)
      modifies this
      ensures durable == (old(power) > 0)
      ensures durable ==> Contents() == Apply(old(Contents()), c) && power == old(power) - 1
      ensures !durable ==> Contents() == old(Contents()) && power == 0
      ensures Powered(Contents(), if durable then rest else [], power) ==
              Powered(old(Contents()), [c] + rest, old(power))
      ensures Spent(if durable then rest else [], power) == Spent([c] + rest, old(power))
    {
      PoweredHead(Contents(), c, rest, power);
      durable := Commit(c);
      PoweredNone(Contents(), power);
    }

    /** The contribution of an applied update, as complete_journal_terminal computes it. */
    method Contribute(r: Restart, op: Operation, sessionStarted: Option<nat>) returns (joined: Restart)
      ensures joined == Contributed(r, op, sessionStarted)
    {
      joined := r.(
        lastApplied := Some(op.id),
        system := StrongerSystem(r.system, SystemOf(op)),
        session := StrongerSession(r.session, SessionOf(op)),
        sessionCutoff := if SessionOf(op) != NoSession then Mono(op) else r.sessionCutoff,
        application := r.application || ApplicationOf(op),
        applicationCutoff := if ApplicationOf(op) then Mono(op) else r.applicationCutoff);
      if sessionStarted.Some? {
        var satisfied := joined;
        if sessionStarted.value > joined.sessionCutoff {
          satisfied := satisfied.(session := NoSession, sessionCutoff := 0);
        }
        if sessionStarted.value > joined.applicationCutoff {
          satisfied := satisfied.(application := false, applicationCutoff := 0);
        }
        joined := satisfied;
      }
    }

    /** The restart commits of complete_journal_terminal. */
    method ApplyContribution(op: Operation, bootId: string, sessionStarted: Option<nat>) returns (durable: bool)
      requires Accepted(Journal()) && EvidenceEncodable(Some(bootId), sessionStarted)
      modifies this
      ensures var cs := RestartCommits(old(restart), op, bootId, sessionStarted);
        && Contents() == Powered(old(Contents()), cs, old(power)) && power == Spent(cs, old(power))
        && durable == (old(power) >= |cs|)
    {
      PoweredConcat(Contents(), PruneCommits(restart, bootId, sessionStarted),
                    ContributionCommits(Pruned(restart, bootId, sessionStarted), op, bootId, sessionStarted), power);
      var pruned := PruneRestart(Some(bootId), sessionStarted);
      if pruned.Killed? { return false; }
      var r := pruned.value;
      PoweredNone(Contents(), power);
      durable := true;
      if op.bootId == Some(bootId) && r.lastApplied != Some(op.id) {
        var joined := Contribute(r, op, sessionStarted);
        PoweredSingle(Contents(), CommitRestart(joined), power);
        durable := Commit(CommitRestart(joined));
      }
    }

    /** The ring commits of complete_journal_terminal, against the state it loaded. */
    method HandOver(state: Journal, op: Operation) returns (durable: bool)
      requires op.slot < |state.terminals|
      modifies this
      ensures var cs := RingCommits(state, op);
        && Contents() == Powered(old(Contents()), cs, old(power)) && power == Spent(cs, old(power))
        && durable == (old(power) >= |cs|)
    {
      var next := (op.slot + 1) % TERMINAL_COUNT;
      var h := Some(Handoff(op.id, op.slot));
      assert [CommitHandoff(h)] + [CommitActive(None)] == [CommitHandoff(h), CommitActive(None)];
      assert [CommitActive(None)] + [] == [CommitActive(None)];
      if state.terminals[op.slot] != Some(op) {
        durable := Step(CommitTerminal(op.slot, op), CursorCommits(state.cursor, state.handoff, op));
        if !durable { return; }
      }
      if state.cursor != next {
        durable := Step(CommitCursor(next), HandoffCommits(state.handoff, op));
        if !durable { return; }
      }
      if state.handoff != h {
        durable := Step(CommitHandoff(h), [CommitActive(None)]);
        if !durable { return; }
      }
      durable := Step(CommitActive(None), []);
    }

    /** complete_journal_terminal. */
    method CompleteTerminal(bootId: Option<string>, sessionStarted: Option<nat>) returns (r: Outcome<Option<Operation>>)
      modifies this
      ensures match Complete(old(Journal()), bootId, sessionStarted)
        case Err(e) => r == Raised(e) && Contents() == old(Contents()) && power == old(power)
        case Ok(cs) =>
          && Contents() == Powered(old(Contents()), cs, old(power)) && power == Spent(cs, old(power))
          && r == if old(power) < |cs| then Killed
                  else if Accepted(Journal()) then Returned(old(active)) else Raised(Malformed)
      ensures r.Returned? && r.value.Some? && Slotted(old(Contents())) ==>
        Leaves(old(Journal()), r.value.value, bootId, sessionStarted, Journal())
    {
      var state := Journal();
      if !Accepted(state) { return Raised(Malformed); }
      PoweredNone(Contents(), power);
      if active.None? { return Returned(None); }
      var op := active.value;
      if !IsTerminal(op.state) { return Raised(NotTerminal); }
      PoweredConcat(Contents(), RestartPart(restart, op, bootId, sessionStarted), RingCommits(state, op), power);
      if op.kind == Update {
        if !EvidenceEncodable(bootId, sessionStarted) { return Raised(Malformed); }
        var applied := ApplyContribution(op, bootId.value, sessionStarted);
        if !applied { return Killed; }
      }
      var durable := HandOver(state, op);
      if !durable { return Killed; }
      PoweredWhole(old(Contents()), CompleteCommits(old(Journal()), bootId, sessionStarted), old(power));
      if Slotted(old(Contents())) { CompletionLeaves(old(Contents()), bootId, sessionStarted); }
      if !Accepted(Journal()) { return Raised(Malformed); }
      return Returned(Some(op));
    }

    // ---- acknowledge ----

    /** retained_journal_operation. */
    method RetainedTerminal(id: string) returns (r: Result<Operation, Refusal>)
      ensures r == RetainedOperation(Journal(), id)
    {
      var j := Journal();
      if !IsOperationId(id) || !Accepted(j) { return Err(Malformed); }
      if active.Some? { return Err(NeedsRecovery); }
      var slot := 0;
      while slot < |terminals|
        invariant 0 <= slot <= |terminals|
        invariant FindRetained(j, id, 0) == FindRetained(j, id, slot)
      {
        if terminals[slot].Some? && terminals[slot].value.id == id { return Ok(terminals[slot].value); }
        slot := slot + 1;
      }
      return Err(Unavailable);
    }

    /** acknowledge_journal_handoff. */
    method AcknowledgeHandoff(id: string) returns (r: Outcome<()>)
      modifies this
      ensures match Acknowledge(old(Journal()), id)
        case Err(e) => r == Raised(e) && Contents() == old(Contents()) && power == old(power)
        case Ok(cs) =>
          && Contents() == Powered(old(Contents()), cs, old(power)) && power == Spent(cs, old(power))
          && r == if old(power) < |cs| then Killed else Returned(())
    {
      var found := RetainedTerminal(id);
      if found.Err? { return Raised(found.error); }
      if handoff != Some(Handoff(id, found.value.slot)) { return Raised(Unavailable); }
      PoweredSingle(Contents(), CommitHandoff(None), power);
      var durable := Commit(CommitHandoff(None));
      return if durable then Returned(()) else Killed;
    }
  }

  lemma PoweredConcat(st: Store, a: seq<Commit>, b: seq<Commit>, power: nat)
    ensures Powered(st, a + b, power) == Powered(Powered(st, a, power), b, Spent(a, power))
    ensures Spent(a + b, power) == Spent(b, Spent(a, power))
  {
    if power <= |a| {
      assert (a + b)[..power] == a[..power];
      assert b[..0] == [];
    } else {
      var k := Min(power, |a| + |b|);
      assert a[..|a|] == a && (a + b)[..k] == a + b[..k - |a|];
      ApplyAllConcat(st, a, b[..k - |a|]);
    }
  }

  lemma PoweredSingle(st: Store, c: Commit, power: nat)
    ensures Powered(st, [c], power) == if power == 0 then st else Apply(st, c)
    ensures Spent([c], power) == if power == 0 then 0 else power - 1
  {
    PoweredHead(st, c, [], power);
    assert [c] + [] == [c];
    if power > 0 { PoweredNone(Apply(st, c), power - 1); }
  }

  /** A call event of a run leaves the store that the method for the call leaves. */
  lemma EventIsCall(w: World, call: Call, power: nat)
    ensures Next(w, CallEvent(call, power)).store == Powered(w.store, CommitsOf(w, call), power)
  {
    var cs := CommitsOf(w, call);
    CommittedStore(w, cs[..Min(power, |cs|)]);
  }
}
