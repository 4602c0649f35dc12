/** The commit budget of one admitted operation, and why admission headroom keeps
    every control file below its last sequence number. */
module Budget {
  import opened Results
  import opened Lifecycle
  import opened Text
  import opened Records
  import opened Validator
  import opened Operations
  import opened Runs
  import opened Resumption

  function Rank(s: State): nat {
    match s case Pending => 0 case Authorizing => 1 case Running => 2 case CancelRequested => 3 case _ => 4
  }

  /** The total restart strength of an operation, at most six. */
  function Strength(op: Operation): (n: nat)
    ensures n <= 6
  {
    SystemStrength(SystemOf(op)) + SessionStrength(SessionOf(op)) + if ApplicationOf(op) then 1 else 0
  }

  /** Commits the active file may still take for the operation it holds. */
  function ActiveLeft(j: Journal): nat {
    match j.active
    case None => 0
    case Some(op) => if IsTerminal(op.state) then 1 else 2 + (3 - Rank(op.state)) + (6 - Strength(op))
  }

  function HandoffLeft(j: Journal): nat {
    match j.active
    case None => if j.handoff.Some? then 1 else 0
    case Some(op) => if j.handoff == Some(Handoff(op.id, op.slot)) then 1 else 2
  }

  function CursorLeft(j: Journal): nat {
    if j.active.Some? && j.cursor != (j.active.value.slot + 1) % TERMINAL_COUNT then 1 else 0
  }

  function TerminalLeft(j: Journal, slot: nat): nat {
    if j.active.Some? && j.active.value.slot == slot && !Holds(j, slot, j.active.value) then 1 else 0
  }

  /** a's commits so far and still allowed are no more than b's, file by file (restart aside). */
  predicate Within(a: Store, b: Store) {
    && a.sequences.active + ActiveLeft(a.journal) <= b.sequences.active + ActiveLeft(b.journal)
    && a.sequences.handoff + HandoffLeft(a.journal) <= b.sequences.handoff + HandoffLeft(b.journal)
    && a.sequences.cursor + CursorLeft(a.journal) <= b.sequences.cursor + CursorLeft(b.journal)
    && |a.sequences.terminals| == |b.sequences.terminals|
    && forall s :: 0 <= s < |a.sequences.terminals| ==>
         a.sequences.terminals[s] + TerminalLeft(a.journal, s) <= b.sequences.terminals[s] + TerminalLeft(b.journal, s)
  }

  predicate Sized(st: Store) {
    |st.journal.terminals| == TERMINAL_COUNT && |st.sequences.terminals| == TERMINAL_COUNT
  }

  // ---- completion ----

  lemma RestartSpends(st: Store, r: Restart)
    ensures Within(Apply(st, CommitRestart(r)), st)
  {}

  lemma RingSpends(st: Store, op: Operation)
    requires Slotted(st) && st.journal.active == Some(op) && IsTerminal(op.state)
    ensures Within(Apply(st, RingCommits(st.journal, op)[0]), st)
  {}

  lemma CompleteStepSpends(st: Store, boot: Option<string>, started: Option<nat>)
    requires Slotted(st) && st.journal.active.Some? && IsTerminal(st.journal.active.value.state)
    ensures var cs := CompleteCommits(st.journal, boot, started);
      cs != [] && Within(Apply(st, cs[0]), st)
      && (Apply(st, cs[0]).journal.active.Some? ==> Apply(st, cs[0]).journal.active == st.journal.active)
  {
    var op := st.journal.active.value;
    var first, ring := RestartPart(st.journal.restart, op, boot, started), RingCommits(st.journal, op);
    if first != [] {
      RestartResumes(st.journal.restart, op, boot, started);
      ConcatTail(first, ring);
      RestartSpends(st, first[0].restart);
    } else {
      assert first + ring == ring;
      RingResumes(st, op);
      RingSpends(st, op);
    }
  }

  lemma {:induction false} CompleteSpends(w: World, boot: Option<string>, started: Option<nat>, k: nat)
    requires Slotted(w.store)
    requires w.store.journal.active.Some? ==> IsTerminal(w.store.journal.active.value.state)
    requires k <= |CompleteCommits(w.store.journal, boot, started)|
    ensures Within(CommittedAll(w, CompleteCommits(w.store.journal, boot, started)[..k]).store, w.store)
    decreases k
  {
    if k > 0 {
      var cs := CompleteCommits(w.store.journal, boot, started);
      CompleteStepSpends(w.store, boot, started);
      ResumeStep(w.store, boot, started);
      PrefixTail(cs, k);
      CompleteSpends(Committed(w, cs[0]), boot, started, k - 1);
    }
  }

  // ---- lifecycle ----

  lemma TransitionClimbs(a: State, b: State)
    requires b in Transitions(a) && b != a && !IsTerminal(b)
    ensures Rank(a) < Rank(b) <= 3
  {}

  /** Every advance that commits uses up at least one of the remaining active commits. */
  lemma AdvanceSpends(j: Journal, expected: Operation, following: Operation, recoveryBoot: Option<string>)
    requires Advance(j, expected, following, recoveryBoot) == Ok(Some(following))
    ensures ActiveLeft(WithActive(j, following)) < ActiveLeft(j)
    ensures SameIdentity(expected, following) && j.active == Some(expected)
    ensures forall s :: !Holds(j, s, expected)
  {
    assert !IsTerminal(expected.state);
    assert CrossRule(j, 0);
    assert forall s :: Filled(j, s) ==> j.terminals[s].value != expected;
    if !IsTerminal(following.state) {
      if following.state != expected.state { TransitionClimbs(expected.state, following.state); }
      if expected.kind == Update { assert !Weakens(expected, following); }
      assert following.state == expected.state ==> Strength(following) > Strength(expected);
    }
  }

  lemma AdvanceCommitSpends(st: Store, expected: Operation, following: Operation, recoveryBoot: Option<string>)
    requires Advance(st.journal, expected, following, recoveryBoot) == Ok(Some(following))
    ensures Within(Apply(st, CommitActive(Some(following))), st)
  {
    AdvanceSpends(st.journal, expected, following, recoveryBoot);
  }

  lemma AcknowledgeCommitSpends(st: Store, id: string)
    requires Acknowledge(st.journal, id).Ok?
    ensures Acknowledge(st.journal, id).value == [CommitHandoff(None)]
    ensures Within(Apply(st, CommitHandoff(None)), st)
  {}

  lemma WithinReflexive(st: Store)
    ensures Within(st, st)
  {}

  lemma PruneCallSpends(w: World, started: Option<nat>, k: nat)
    requires k <= |CommitsOf(w, PruneCall(started))|
    ensures Within(CommittedAll(w, CommitsOf(w, PruneCall(started))[..k]).store, w.store)
  {
    WithinReflexive(w.store);
    var r := Pruned(w.store.journal.restart, w.boot, started);
    SingleCommit(w, CommitRestart(r), if k <= 1 then k else 1);
    RestartSpends(w.store, r);
  }

  lemma CompleteCallSpends(w: World, evidence: bool, started: Option<nat>, k: nat)
    requires Sized(w.store) && k <= |CommitsOf(w, CompleteCall(evidence, started))|
    ensures Within(CommittedAll(w, CommitsOf(w, CompleteCall(evidence, started))[..k]).store, w.store)
  {
    WithinReflexive(w.store);
    if CommitsOf(w, CompleteCall(evidence, started)) != [] {
      CompleteSpends(w, if evidence then Some(w.boot) else None, started, k);
    }
  }

  /** Only admission adds to what the control files may take. */
  lemma CallSpends(w: World, call: Call, k: nat)
    requires Sized(w.store) && !call.BeginCall? && k <= |CommitsOf(w, call)|
    ensures Within(CommittedAll(w, CommitsOf(w, call)[..k]).store, w.store)
  {
    WithinReflexive(w.store);
    match call {
      case AdvanceCall(expected, following, recoveryBoot) =>
        if k > 0 {
          AdvanceCommitSpends(w.store, expected, following, recoveryBoot);
          SingleCommit(w, CommitActive(Some(following)), k);
        }
      case PruneCall(started) => PruneCallSpends(w, started, k);
      case CompleteCall(evidence, started) => CompleteCallSpends(w, evidence, started, k);
      case AcknowledgeCall(id) =>
        if k > 0 {
          AcknowledgeCommitSpends(w.store, id);
          SingleCommit(w, CommitHandoff(None), k);
        }
      case BeginCall(_, _) =>
    }
  }

  predicate IsBegin(e: Event) { e.CallEvent? && e.call.BeginCall? }

  lemma EventSpends(w: World, e: Event)
    requires Sized(w.store) && !IsBegin(e)
    ensures Within(Next(w, e).store, w.store) && Sized(Next(w, e).store)
  {
    WithinReflexive(w.store);
    if e.CallEvent? {
      var cs := CommitsOf(w, e.call);
      CallSpends(w, e.call, Min(e.survived, |cs|));
      PrefixSized(w, cs[..Min(e.survived, |cs|)]);
    }
  }

  lemma {:induction false} PrefixSized(w: World, cs: seq<Commit>)
    requires Sized(w.store)
    ensures Sized(CommittedAll(w, cs).store)
    decreases cs
  {
    if cs != [] { PrefixSized(Committed(w, cs[0]), cs[1..]); }
  }

  lemma WithinTransitive(a: Store, b: Store, c: Store)
    requires Within(a, b) && Within(b, c)
    ensures Within(a, c)
  {}

  lemma {:induction false} RunSpends(w: World, events: seq<Event>)
    requires Sized(w.store) && forall e :: e in events ==> !IsBegin(e)
    ensures Within(Run(w, events).store, w.store)
    decreases events
  {
    if events != [] {
      EventSpends(w, events[0]);
      RunSpends(Next(w, events[0]), events[1..]);
      WithinTransitive(Run(w, events).store, Next(w, events[0]).store, w.store);
    }
  }

  /** One admission allows at most 12 commits to active, 2 to handoff, 1 to cursor, and 1 to
      the reserved terminal slot, whatever calls, crashes and reboots follow it. */
  lemma CommitBudget(w: World, r: Request, draws: seq<string>, events: seq<Event>)
    requires Sized(w.store) && Begin(w.store, r, draws).Ok? && forall e :: e in events ==> !IsBegin(e)
    ensures var slot := Begin(w.store, r, draws).value.slot;
      var q, after := w.store.sequences, Run(w, [CallEvent(BeginCall(r, draws), 1)] + events).store.sequences;
      && after.active <= q.active + 12
      && after.handoff <= q.handoff + 2
      && after.cursor <= q.cursor + 1
      && |after.terminals| == |q.terminals|
      && (forall s :: 0 <= s < |q.terminals| ==> after.terminals[s] <= q.terminals[s] + if s == slot then 1 else 0)
  {
    var begin := CallEvent(BeginCall(r, draws), 1);
    var op := Begin(w.store, r, draws).value;
    SingleCommit(w, CommitActive(Some(op)), 1);
    assert ([begin] + events)[1..] == events;
    assert Next(w, begin) == Committed(w, CommitActive(Some(op)));
    RunSpends(Next(w, begin), events);
  }

  // ---- headroom ----

  /** No control or terminal frame is at, or can still be driven to, the exhausted sequence. */
  predicate Headroom(st: Store) {
    && st.sequences.active + ActiveLeft(st.journal) < SEQUENCE_MAX
    && st.sequences.handoff + HandoffLeft(st.journal) < SEQUENCE_MAX
    && st.sequences.cursor + CursorLeft(st.journal) < SEQUENCE_MAX
    && forall s :: 0 <= s < |st.sequences.terminals| ==>
         st.sequences.terminals[s] + TerminalLeft(st.journal, s) < SEQUENCE_MAX
  }

  lemma BeginHeadroom(st: Store, r: Request, draws: seq<string>)
    requires Sized(st) && Headroom(st) && Begin(st, r, draws).Ok?
    ensures Headroom(Apply(st, CommitActive(Some(Begin(st, r, draws).value))))
  {}

  lemma EventHeadroom(w: World, e: Event)
    requires Sized(w.store) && Headroom(w.store)
    ensures Sized(Next(w, e).store) && Headroom(Next(w, e).store)
  {
    if IsBegin(e) {
      var cs := CommitsOf(w, e.call);
      if cs != [] {
        SingleCommit(w, cs[0], Min(e.survived, 1));
        BeginHeadroom(w.store, e.call.request, e.call.draws);
      }
    } else {
      EventSpends(w, e);
    }
  }

  /** In every run, however its calls are interrupted, the frames of active, handoff, cursor
      and the terminal slots stay below the sequence that select_journal_frame rejects. */
  lemma {:induction false} EveryRunKeepsHeadroom(w: World, events: seq<Event>)
    requires Sized(w.store) && Headroom(w.store)
    ensures Sized(Run(w, events).store) && Headroom(Run(w, events).store)
    decreases events
  {
    if events != [] {
      EventHeadroom(w, events[0]);
      EveryRunKeepsHeadroom(Next(w, events[0]), events[1..]);
    }
  }
}
