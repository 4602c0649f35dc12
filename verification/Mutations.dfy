/** PackageKitMutation: the owner of one PackageKit operation, between whose locked intervals
    cancel controls, watchers and recovering observers may move the operation on, strengthen its
    restart requirement or conclude it. */
module Mutations {
  import opened Results
  import opened Lifecycle
  import opened Text
  import opened Records
  import opened Validator
  import opened Operations
  import opened Signals
  import opened Streams
  import opened Watchers

  // ---- what others may do to the active record while its owner does not hold the lock ----

  /** A watcher that saw the transaction wait for authorization, an observer that saw it run, a cancel
      control, an observer that heard a restart required, or one that concluded the operation. */
  datatype Interference =
    | Authorizes(detail: string)
    | Notices(detail: string)
    | Cancels(detail: string)
    | Strengthens(system: SystemRestart, session: SessionRestart, application: bool)
    | Concludes

  /** A nonterminal move of someone else's. */
  function MovedTo(op: Operation, from: set<State>, to: State, detail: string): Operation {
    if op.state in from && IsDetail(detail) then op.(state := to, detail := detail) else op
  }

  function Strengthened(op: Operation, system: SystemRestart, session: SessionRestart, application: bool): Operation {
    if op.kind != Update then op
    else op.(system := Some(StrongerSystem(SystemOf(op), system)),
             session := Some(StrongerSession(SessionOf(op), session)),
             application := Some(ApplicationOf(op) || application))
  }

  function Interfered(active: Option<Operation>, i: Interference): Option<Operation> {
    match active
    case None => None
    case Some(op) =>
      match i
      case Authorizes(detail) => Some(MovedTo(op, {Pending}, Authorizing, detail))
      case Notices(detail) => Some(MovedTo(op, {Pending, Authorizing}, Running, detail))
      case Cancels(detail) => Some(MovedTo(op, {Running}, CancelRequested, detail))
      case Strengthens(system, session, application) => Some(Strengthened(op, system, session, application))
      case Concludes => None
  }

  /** All that happens between two locked intervals of the owner. */
  function After(active: Option<Operation>, between: seq<Interference>): Option<Operation>
    decreases |between|
  {
    if between == [] then active else After(Interfered(active, between[0]), between[1..])
  }

  type Schedule = seq<seq<Interference>>

  function NextOf(schedule: Schedule): seq<Interference> { if schedule == [] then [] else schedule[0] }

  function RestOf(schedule: Schedule): Schedule { if schedule == [] then [] else schedule[1..] }

  /** The same operation, asking for no less restart work. */
  predicate Continues(a: Operation, b: Operation) { SameIdentity(a, b) && !Weakens(a, b) }

  /** What the owner knows of an operation it still owns: its own record, moved on and no weaker. */
  predicate MovedOn(known: Operation, op: Operation) {
    OperationEncodable(op) && Continues(known, op)
    && !IsTerminal(op.state) && Reaches(known.state, op.state)
  }

  predicate Knows(known: Operation, active: Option<Operation>) { active.Some? ==> MovedOn(known, active.value) }

  lemma WithDetail(op: Operation, state: State, detail: string)
    requires OperationEncodable(op) && !IsTerminal(op.state) && !IsTerminal(state) && IsDetail(detail)
    ensures OperationEncodable(op.(state := state, detail := detail))
  {
    var moved := op.(state := state, detail := detail);
    forall field | 0 <= field < 7 ensures FieldSound(moved, field) { assert FieldSound(op, field); }
  }

  lemma StrengthenedIsEncodable(op: Operation, system: SystemRestart, session: SessionRestart, application: bool)
    requires OperationEncodable(op)
    ensures OperationEncodable(Strengthened(op, system, session, application))
    ensures !Weakens(op, Strengthened(op, system, session, application))
  {
    var after := Strengthened(op, system, session, application);
    forall field | 0 <= field < 7 ensures FieldSound(after, field) { assert FieldSound(op, field); }
  }

  lemma MoveIsKnown(known: Operation, op: Operation, from: set<State>, to: State, detail: string)
    requires MovedOn(known, op) && !IsTerminal(to) && forall s :: s in from ==> to in Transitions(s)
    ensures MovedOn(known, MovedTo(op, from, to, detail))
  {
    if op.state in from && IsDetail(detail) {
      WithDetail(op, to, detail);
      ReachesIsClosure(known.state, op.state, to);
      ReachesIsClosure(op.state, to, to);
    }
  }

  /** Each of these is a step that advance_journal_operation accepts of anyone. */
  lemma InterferenceIsKnown(known: Operation, active: Option<Operation>, i: Interference)
    requires Knows(known, active)
    ensures Knows(known, Interfered(active, i))
  {
    if active.Some? {
      match i {
        case Authorizes(detail) => MoveIsKnown(known, active.value, {Pending}, Authorizing, detail);
        case Notices(detail) => MoveIsKnown(known, active.value, {Pending, Authorizing}, Running, detail);
        case Cancels(detail) => MoveIsKnown(known, active.value, {Running}, CancelRequested, detail);
        case Strengthens(system, session, application) => StrengthenedIsEncodable(active.value, system, session,
            application);
        case Concludes =>
      }
    }
  }

  lemma {:induction false} AfterIsKnown(known: Operation, active: Option<Operation>, between: seq<Interference>)
    requires Knows(known, active)
    ensures Knows(known, After(active, between))
    decreases |between|
  {
    if between != [] {
      InterferenceIsKnown(known, active, between[0]);
      AfterIsKnown(known, Interfered(active, between[0]), between[1..]);
    }
  }

  /** The operation is gone exactly when someone concluded it. */
  lemma {:induction false} GoneIff(active: Option<Operation>, between: seq<Interference>)
    ensures After(active, between).None? <==> active.None? || Concludes in between
    decreases |between|
  {
    if between != [] {
      GoneIff(Interfered(active, between[0]), between[1..]);
      assert between == [between[0]] + between[1..];
    }
  }

  /** Someone concludes it before one of the owner's next n looks. */
  predicate Taken(schedule: Schedule, n: nat) {
    n > 0 && (Concludes in NextOf(schedule) || Taken(RestOf(schedule), n - 1))
  }

  lemma TakenIn(schedule: Schedule)
    ensures Taken(schedule, 1) <==> Concludes in NextOf(schedule)
    ensures Taken(schedule, 2) <==> Taken(schedule, 1) || Concludes in NextOf(RestOf(schedule))
    ensures Taken(schedule, 3) <==> Taken(schedule, 2) || Concludes in NextOf(RestOf(RestOf(schedule)))
  {
    assert Taken(schedule, 1) <==> Concludes in NextOf(schedule) || Taken(RestOf(schedule), 0);
    assert Taken(schedule, 2) <==> Concludes in NextOf(schedule) || Taken(RestOf(schedule), 1);
    assert Taken(schedule, 3) <==> Concludes in NextOf(schedule) || Taken(RestOf(schedule), 2);
  }

  // ---- what the owner writes ----

  /** The checks of advance_journal_operation on the two records. */
  predicate Permitted(current: Operation, following: Operation) {
    || following == current
    || (OperationEncodable(following) && SameIdentity(current, following) && LegalTransition(current, following)
        && (current.kind == Update ==> !Weakens(current, following))
        && !(following.state == current.state && SameContribution(current, following)))
  }

  /** The changes a checkpoint asks for. */
  datatype Change = Change(state: Option<State>, detail: Option<string>,
                           system: Option<SystemRestart>, session: Option<SessionRestart>, application: bool)

  /** What before_send asks for. */
  function Sending(detail: string): Change { Change(Some(Authorizing), Some(detail), None, None, false) }

  function Moving(state: State): Change { Change(Some(state), None, None, None, false) }

  /** A request never takes a cancelled operation back to running, nor a running one to authorizing. */
  function Target(c: Change, current: State): State {
    match c.state
    case None => current
    case Some(s) =>
      if s in {Authorizing, Running} && current == CancelRequested then current
      else if s == Authorizing && current == Running then current
      else s
  }

  datatype Notes = Notes(processing: string, cancellation: string)

  predicate NotesOk(n: Notes) { IsDetail(n.processing) && IsDetail(n.cancellation) }

  /** The record _checkpoint writes over the current one. */
  function Following(current: Operation, c: Change, n: Notes): Operation {
    var state := Target(c, current.state);
    current.(state := state,
             detail := if c.detail.Some? then c.detail.value
                       else if state == current.state then current.detail
                       else if state == CancelRequested then n.cancellation else n.processing,
             system := if c.system.Some? then Some(StrongerSystem(SystemOf(current), c.system.value))
                 else current.system,
             session := if c.session.Some? then Some(StrongerSession(SessionOf(current), c.session.value))
                 else current.session,
             application := if c.application then Some(true) else current.application)
  }

  /** What the callbacks ask for: a nonterminal state, a sound detail, restarts only of updates. */
  predicate ChangeOk(c: Change, kind: Kind) {
    && (c.state.Some? ==> !IsTerminal(c.state.value)) && (c.detail.Some? ==> IsDetail(c.detail.value))
    && (kind != Update ==> c.system.None? && c.session.None? && !c.application)
  }

  /** The later of the state found and the state asked for, and the restart work of both. */
  predicate Combines(current: Operation, c: Change, n: Notes, f: Operation) {
    && f == current.(state := f.state, detail := f.detail, system := f.system, session := f.session,
                     application := f.application)
    && (c.state.None? ==> f.state == current.state)
    && (c.state in {Some(Authorizing), Some(Running), Some(CancelRequested)} ==>
          f.state in {current.state, c.state.value} && Reaches(current.state, f.state)
          && Reaches(c.state.value, f.state))
    && f.detail == (if c.detail.Some? then c.detail.value else if f.state == current.state then current.detail
                    else if f.state == CancelRequested then n.cancellation else n.processing)
    && (c.system.None? ==> f.system == current.system) && (c.session.None? ==> f.session == current.session)
    && (c.system.Some? ==>
          && SystemStrength(SystemOf(current)) <= SystemStrength(SystemOf(f))
          && SystemStrength(c.system.value) <= SystemStrength(SystemOf(f))
          && f.system in {Some(SystemOf(current)), c.system})
    && (c.session.Some? ==>
          && SessionStrength(SessionOf(current)) <= SessionStrength(SessionOf(f))
          && SessionStrength(c.session.value) <= SessionStrength(SessionOf(f))
          && f.session in {Some(SessionOf(current)), c.session})
    && f.application == if c.application then Some(true) else current.application
  }

  /** A checkpoint is accepted exactly when its state can follow and more than the detail changes. */
  lemma CheckpointPermittedIff(current: Operation, c: Change, n: Notes)
    requires OperationEncodable(current) && !IsTerminal(current.state) && ChangeOk(c, current.kind) && NotesOk(n)
    ensures var f := Following(current, c, n);
      && OperationEncodable(f) && SameIdentity(current, f) && !IsTerminal(f.state)
      && Combines(current, c, n, f)
      && (Permitted(current, f) <==>
            f == current || (f.state == current.state && !SameContribution(current, f))
            || (f.state != current.state && f.state in Transitions(current.state)))
  {
    var f := Following(current, c, n);
    forall field | 0 <= field < 7 ensures FieldSound(f, field) { assert FieldSound(current, field); }
  }

  /** Asking for running or, of a running operation, for cancellation is always accepted. */
  lemma MovingIsPermitted(current: Operation, state: State, n: Notes)
    requires OperationEncodable(current) && !IsTerminal(current.state) && NotesOk(n)
    requires state == Running || (state == CancelRequested && current.state in {Running, CancelRequested})
    ensures Permitted(current, Following(current, Moving(state), n))
    ensures Following(current, Moving(state), n).state == if current.state == CancelRequested then CancelRequested
            else state
  {
    CheckpointPermittedIff(current, Moving(state), n);
  }

  /** The record found under the lock with exactly what was signalled added to its restart work. */
  predicate RecordsSignal(found: Operation, value: int, op: Operation) {
    && op == found.(system := op.system, session := op.session, application := op.application)
    && Heard(ContributionOf(found), [value], ContributionOf(op))
  }

  /** What on_restart asks a checkpoint for. */
  predicate Asks(known: Operation, value: int, c: Change) {
    && c.state.None? && c.detail.None?
    && c.system == (if value in {1, 2, 3, 5} then None
                    else Some(StrongerSystem(SystemOf(known), RequiredSystem(value))))
    && c.session == (if value in {3, 5} then Some(StrongerSession(SessionOf(known), RequiredSession(value))) else None)
    && c.application == (value == 2)
  }

  /** The owner's own record already says it exactly when the change asks for nothing. */
  lemma HeardIsHeld(known: Operation, value: int)
    requires OperationEncodable(known) && known.kind == Update
    ensures Heard(ContributionOf(known), [value], ContributionOf(known)) <==>
      && (value == 2 ==> ApplicationOf(known))
      && (value in {3, 5} ==> StrongerSession(SessionOf(known), RequiredSession(value)) == SessionOf(known))
      && (value !in {1, 2, 3, 5} ==> StrongerSystem(SystemOf(known), RequiredSystem(value)) == SystemOf(known))
  {
    assert Unlisted([value]) <==> !(1 <= value <= 6) by { assert [value][0] == value; }
  }

  lemma SignalIsRecorded(known: Operation, found: Operation, value: int, c: Change, n: Notes)
    requires OperationEncodable(found) && found.kind == Update && !IsTerminal(found.state)
    requires !Weakens(known, found) && Asks(known, value, c)
    ensures Permitted(found, Following(found, c, n)) && RecordsSignal(found, value, Following(found, c, n))
  {
    var f := Following(found, c, n);
    forall field | 0 <= field < 7 ensures FieldSound(f, field) { assert FieldSound(found, field); }
    assert Unlisted([value]) <==> !(1 <= value <= 6) by { assert [value][0] == value; }
  }

  // ---- the terminal record ----

  datatype Conclusion = Conclusion(state: State, failure: Option<(ErrorCode, string)>, rejected: bool,
                                   finishedAt: string, cutoff: nat)

  predicate ConclusionOk(c: Conclusion) {
    && IsTerminal(c.state) && (c.failure.None? <==> c.state == Succeeded)
    && (c.failure.Some? ==> IsDetail(c.failure.value.1)) && IsTimestamp(c.finishedAt) && IsUint64(c.cutoff)
  }

  /** A transaction that never ran: refused authorization, a rejected call, or cancelled while waiting for it. */
  predicate Excluded(state: State, current: State, rejected: bool, lastStatus: nat) {
    state == PermissionDenied || (current in {Pending, Authorizing}
                                  && (rejected || (state == Canceled && lastStatus == 31)))
  }

  function TerminalRecord(current: Operation, state: State, c: Conclusion, sent: bool, lastStatus: nat,
                          completed: string): Operation {
    var unknown := current.kind == Update && sent && !Excluded(state, current.state, c.rejected, lastStatus)
                   && state != Succeeded && SystemOf(current) == NoSystem;
    current.(state := state, finishedAt := Some(c.finishedAt),
             errorCode := if c.failure.None? then None else Some(c.failure.value.0),
             detail := if c.failure.None? then completed else c.failure.value.1,
             system := if unknown then Some(UnknownSystem) else current.system,
             terminalMonotonic := Some(c.cutoff))
  }

  /** The record of a conclusion: what was found, with the result and its error, and a system restart
      that is unknown instead of none when the transaction was sent, may have run and did not succeed. */
  predicate ConcludedAs(found: Operation, state: State, c: Conclusion, sent: bool, lastStatus: nat, completed: string,
                        t: Operation) {
    var waiting := found.state in {Pending, Authorizing};
    var neverRan := state == PermissionDenied || (waiting && c.rejected)
                    || (waiting && state == Canceled && lastStatus == 31);
    && t == found.(state := state, finishedAt := Some(c.finishedAt), terminalMonotonic := Some(c.cutoff),
                   errorCode := t.errorCode, detail := t.detail, system := t.system)
    && (match c.failure
        case None => t.errorCode.None? && t.detail == completed
        case Some((code, detail)) => t.errorCode == Some(code) && t.detail == detail)
    && if found.kind == Update && SystemOf(found) == NoSystem && sent && state != Succeeded && !neverRan
       then t.system == Some(UnknownSystem) else t.system == found.system
  }

  lemma TerminalPermittedIff(current: Operation, state: State, c: Conclusion, sent: bool, lastStatus: nat,
                             completed: string)
    requires OperationEncodable(current) && !IsTerminal(current.state) && !IsNative(current.kind) && ConclusionOk(c)
    requires IsTerminal(state) && (state == Succeeded <==> c.state == Succeeded) && IsDetail(completed)
    ensures var t := TerminalRecord(current, state, c, sent, lastStatus, completed);
      OperationEncodable(t) && (Permitted(current, t) <==> state in Transitions(current.state))
      && ConcludedAs(current, state, c, sent, lastStatus, completed, t)
  {
    var t := TerminalRecord(current, state, c, sent, lastStatus, completed);
    forall field | 0 <= field < 7 ensures FieldSound(t, field) { assert FieldSound(current, field); }
  }

  /** The moves of others between the owner's last two looks that take its conclusion away. */
  predicate Overtaken(state: State, first: State, last: State) {
    first in {Pending, Authorizing}
    && ((state == PermissionDenied && last != Authorizing) || (state == Canceled && last == Running))
  }

  /** What the owner writes instead of a refused authorization, once the transaction ran. */
  function Outcome(state: State, first: State): State {
    if state == PermissionDenied && first in {Running, CancelRequested} then Failed else state
  }

  /** The state that finish first moves the record to. */
  function Bridge(state: State, first: State): Option<State> {
    if state == Succeeded then Some(Running)
    else if state == Canceled && first == Running then Some(CancelRequested)
    else None
  }

  /** After the bridge, only an overtaken conclusion cannot follow. */
  lemma OutcomeFollowsIff(state: State, first: State, bridged: State, last: State)
    requires IsTerminal(state) && !IsTerminal(first) && !IsTerminal(last) && Reaches(bridged, last)
    requires match Bridge(state, first)
      case None => bridged == first
      case Some(s) => bridged == s || bridged == CancelRequested
    ensures Outcome(state, first) in Transitions(last) <==> !Overtaken(state, first, last)
  {}

  /** An observer that notices the transaction running overtakes a refused authorization. */
  lemma NoticeOvertakesDenial(op: Operation, detail: string)
    requires op.state == Authorizing && IsDetail(detail)
    ensures var after := After(Some(op), [Notices(detail)]);
      after.Some? && after.value.state == Running && Overtaken(PermissionDenied, op.state, after.value.state)
  {
    assert [Notices(detail)][1..] == [];
    assert After(Some(op), [Notices(detail)]) == After(Interfered(Some(op), Notices(detail)), []);
  }

  /** A refused authorization of a record that the owner still knew as pending, and a watcher moved on. */
  predicate Unannounced(state: State, first: State, last: State) {
    state == PermissionDenied && first == Pending && last == Authorizing
  }

  /** What the journal accepts the stream, which is where the owner last saw the record, accepts too,
      but for that case. */
  lemma OutcomeIsPublishableIff(state: State, first: State, bridged: State, last: State)
    requires IsTerminal(state) && !IsTerminal(first) && !IsTerminal(last) && Reaches(bridged, last)
    requires match Bridge(state, first)
      case None => bridged == first
      case Some(s) => bridged == s || bridged == CancelRequested
    requires !Overtaken(state, first, last)
    ensures Outcome(state, first) in Transitions(bridged) <==> !Unannounced(state, first, last)
  {}

  lemma ContinuesOn(a: Operation, b: Operation, c: Operation)
    requires Continues(a, b) && Continues(b, c)
    ensures Continues(a, c)
  {}

  /** A concluded update that was sent and may have run does not go on record as needing no restart. */
  predicate RestartRecorded(record: Operation, sent: bool, last: State) {
    record.kind == Update && sent && record.state in {Failed, Interrupted} && last in {Running, CancelRequested}
    ==> SystemOf(record) != NoSystem
  }

  // ---- the owner ----

  /** The active record, and what will happen to it before each time it is locked. */
  class ActiveRecord {
    var active: Option<Operation>
    var schedule: Schedule

    constructor (op: Operation, schedule: Schedule)
      ensures active == Some(op) && this.schedule == schedule
    {
      active, this.schedule := Some(op), schedule;
    }

    /** Taking the directory lock. */
    method Lock()
      modifies this
      ensures active == After(old(active), NextOf(old(schedule)))
      ensures schedule == RestOf(old(schedule))
    {
      active := After(active, NextOf(schedule));
      schedule := RestOf(schedule);
    }
  }

  /** A persistence_error: the operation is no longer the owner's, or the journal refused an advance. */
  datatype Fault = Lost | Refused

  class PackageKitMutation {
    const journal: ActiveRecord
    const stream: OperationStream
    const notes: Notes
    var operation: Operation
    var sent: bool
    var lastStatus: nat
    var persistence: Option<Fault>
    var output: bool
    var terminal: Option<Operation>

    /** The record as the owner knows it. */
    ghost predicate RecordOk()
      reads this, stream
    {
      && OperationEncodable(operation) && !IsNative(operation.kind) && !IsTerminal(operation.state) && NotesOk(notes)
      && stream.topic == Topic(operation.id, operation.action, operation.startedAt)
    }

    ghost predicate StreamOk()
      reads this, stream
    {
      Streams.Sound(stream.Contents()) && output == stream.faulted
    }

    /** Until the end the stream is open and, unless its writer failed, exactly where the record is. */
    ghost predicate Valid()
      reads this, journal, stream
    {
      && RecordOk() && StreamOk() && (stream.closed ==> terminal.Some?)
      && (terminal.None? ==> Knows(operation, journal.active) && (output || stream.state == operation.state))
    }

    /** PackageKitMutation.__init__, just after the admission. */
    constructor (journal: ActiveRecord, operation: Operation, notes: Notes, writes: nat)
      requires journal.active == Some(operation) && operation.state == Pending && OperationEncodable(operation)
      requires !IsNative(operation.kind) && NotesOk(notes)
      requires Open(Topic(operation.id, operation.action, operation.startedAt), operation.detail).Ok?
      ensures Valid() && this.journal == journal && this.operation == operation && this.notes == notes && fresh(stream)
      ensures persistence == None && !output && terminal == None && !sent
    {
      OpenSound(Topic(operation.id, operation.action, operation.startedAt), operation.detail);
      this.journal, this.operation, this.notes := journal, operation, notes;
      sent, lastStatus, persistence, output, terminal := false, 0, None, false, None;
      stream := new OperationStream(Topic(operation.id, operation.action, operation.startedAt), operation.detail,
                                    writes);
    }

    /** _output around one transition: a failed write is remembered, any other error would be raised. */
    method Emit(to: State, detail: string) returns (raised: bool)
      requires StreamOk() && !stream.closed
      requires to in Transitions(stream.state) && !IsTerminal(to) && IsDetail(detail)
      modifies `output, stream
      ensures !raised && StreamOk() && !stream.closed
      ensures output || (stream.state == to && (to != old(stream.state) ==> stream.lastProgress == Idle(detail)))
      ensures old(output) ==> output && stream.state == old(stream.state)
    {
      if output { return false; }
      StepAccepted(stream.Contents(), to, Idle(detail));
      var r := stream.Transition(to, Idle(detail));
      if r.Err? {
        if !stream.faulted { return true; }
        output := true;
      }
      return false;
    }

    /** _sync_stream: the stream catches up with the journal, and the protocol is never violated. */
    method Sync() returns (raised: bool)
      requires StreamOk() && !stream.closed && NotesOk(notes)
      requires OperationEncodable(operation) && !IsTerminal(operation.state)
      requires output || Reaches(stream.state, operation.state)
      modifies `output, stream
      ensures !raised && StreamOk() && !stream.closed
      ensures output || stream.state == operation.state
      ensures !output && stream.state != old(stream.state) ==>
        stream.lastProgress == Idle(if operation.state == Authorizing then operation.detail
                                    else if operation.state == Running then notes.processing else notes.cancellation)
    {
      if output || operation.state == stream.state { return false; }
      assert FieldSound(operation, 3);
      if operation.state == Authorizing {
        raised := Emit(Authorizing, operation.detail);
      } else {
        if stream.state in {Pending, Authorizing} { raised := Emit(Running, notes.processing); }
        if !output && operation.state == CancelRequested && stream.state != CancelRequested {
          raised := Emit(CancelRequested, notes.cancellation);
        }
      }
      return false;
    }

    /** _current, under the lock. */
    method Reload() returns (owned: bool)
      requires terminal.None? && Knows(operation, journal.active)
      modifies journal, `persistence
      ensures journal.active == After(old(journal.active), NextOf(old(journal.schedule)))
      ensures journal.schedule == RestOf(old(journal.schedule))
      ensures owned == journal.active.Some? && Knows(operation, journal.active)
      ensures persistence == if owned then old(persistence) else Some(Lost)
    {
      AfterIsKnown(operation, journal.active, NextOf(journal.schedule));
      journal.Lock();
      owned := journal.active.Some?;
      if !owned { persistence := Some(Lost); }
    }

    /** The locked part of _checkpoint. */
    method Advance(c: Change)
      requires RecordOk() && terminal.None? && persistence.None? && Knows(operation, journal.active)
               && ChangeOk(c, operation.kind)
      modifies `operation, `persistence, journal
      ensures RecordOk() && Knows(operation, journal.active) && Reaches(old(operation).state, operation.state)
      ensures Continues(old(operation), operation)
      ensures operation != old(operation) ==> persistence.None?
      ensures journal.schedule == RestOf(old(journal.schedule))
      ensures match After(old(journal.active), NextOf(old(journal.schedule)))
        case None => persistence == Some(Lost) && journal.active.None?
        case Some(found) =>
          if Permitted(found, Following(found, c, notes))
          then persistence.None? && operation == Following(found, c, notes) && journal.active == Some(operation)
          else persistence == Some(Refused) && journal.active == Some(found)
    {
      ReachesIsClosure(operation.state, operation.state, operation.state);
      var owned := Reload();
      if !owned { return; }
      var current := journal.active.value;
      var following := Following(current, c, notes);
      CheckpointPermittedIff(current, c, notes);
      if !Permitted(current, following) {
        persistence := Some(Refused);
        return;
      }
      ReachesIsClosure(operation.state, current.state, following.state);
      ReachesIsClosure(current.state, following.state, following.state);
      ReachesIsClosure(following.state, following.state, following.state);
      journal.active, operation := Some(following), following;
    }

    /** _checkpoint. */
    method Checkpoint(c: Change) returns (raised: bool)
      requires Valid() && terminal.None? && ChangeOk(c, operation.kind)
      modifies `operation, `persistence, `output, journal, stream
      ensures !raised && Valid() && Continues(old(operation), operation)
      ensures old(operation.state) != Pending ==> operation.state != Pending
      ensures old(persistence).Some? ==>
        && persistence == old(persistence) && operation == old(operation)
        && journal.active == old(journal.active) && journal.schedule == old(journal.schedule)
      ensures old(persistence).None? ==> journal.schedule == RestOf(old(journal.schedule))
      ensures old(persistence).None? ==>
        match After(old(journal.active), NextOf(old(journal.schedule)))
        case None => persistence == Some(Lost) && journal.active.None?
        case Some(found) =>
          if Permitted(found, Following(found, c, notes))
          then persistence.None? && operation == Following(found, c, notes) && journal.active == Some(operation)
          else persistence == Some(Refused) && journal.active == Some(found)
    {
      if persistence.Some? { return false; }
      Advance(c);
      if persistence.Some? { return false; }
      raised := Sync();
    }

    /** before_send: nothing is sent before the authorizing record is durable and published. */
    method BeforeSend(detail: string) returns (send: bool)
      requires Valid() && terminal.None? && IsDetail(detail)
      modifies this, journal, stream
      ensures Valid() && terminal == old(terminal)
      ensures send ==>
        sent && persistence.None? && !output && operation.state != Pending && stream.state == operation.state
      ensures !send ==> sent == old(sent) && (persistence.Some? || output)
      ensures old(persistence).None? ==>
        match After(old(journal.active), NextOf(old(journal.schedule)))
        case None => persistence == Some(Lost)
        case Some(found) =>
          && persistence == (if found.state == Pending || found.detail == detail then None else Some(Refused))
          && (persistence.None? ==>
                operation == found.(state := if found.state == Pending then Authorizing
                                    else found.state, detail := detail))
    {
      SendingPermitted(operation, journal, detail);
      var raised := Checkpoint(Sending(detail));
      if persistence.Some? || output { return false; }
      sent := true;
      return true;
    }

    /** on_restart: what a RequireRestart signal asks of the record. */
    method OnRestart(value: int) returns (raised: bool)
      requires Valid() && terminal.None?
      modifies `operation, `persistence, `output, journal, stream
      ensures !raised && Valid() && (old(operation.state) != Pending ==> operation.state != Pending)
      ensures old(operation).kind != Update || old(persistence).Some? ==>
        && operation == old(operation) && persistence == old(persistence)
        && journal.active == old(journal.active) && journal.schedule == old(journal.schedule)
      ensures old(operation).kind == Update && old(persistence).None? ==>
        if Heard(ContributionOf(old(operation)), [value], ContributionOf(old(operation))) then
          && operation == old(operation) && persistence.None?
          && journal.active == old(journal.active) && journal.schedule == old(journal.schedule)
        else match After(old(journal.active), NextOf(old(journal.schedule)))
          case None => persistence == Some(Lost)
          case Some(found) =>
            && persistence.None? && journal.active == Some(operation) && RecordsSignal(found, value, operation)
    {
      raised := false;
      if operation.kind != Update || persistence.Some? { return; }
      var c := Change(None, None, None, None, false);
      if value == 2 {
        c := c.(application := true);
      } else if value in {3, 5} {
        c := c.(session := Some(StrongerSession(SessionOf(operation), RequiredSession(value))));
      } else if value != 1 {
        c := c.(system := Some(StrongerSystem(SystemOf(operation), RequiredSystem(value))));
      }
      var held := operation.(system := if c.system.Some? then c.system else operation.system,
                             session := if c.session.Some? then c.session else operation.session,
                             application := if c.application then Some(true) else operation.application);
      HeardIsHeld(operation, value);
      if held != operation {
        ghost var known, found := operation, After(journal.active, NextOf(journal.schedule));
        AfterIsKnown(operation, journal.active, NextOf(journal.schedule));
        if found.Some? { SignalIsRecorded(known, found.value, value, c, notes); }
        raised := Checkpoint(c);
      }
    }

    /** The owner's first look in finish: the record found becomes its own. */
    method Look() returns (raised: bool)
      requires Valid() && terminal.None? && persistence.None?
      modifies `operation, `persistence, `output, journal, stream
      ensures !raised && Valid()
      ensures journal.active == After(old(journal.active), NextOf(old(journal.schedule)))
      ensures journal.schedule == RestOf(old(journal.schedule))
      ensures persistence == if journal.active.Some? then None else Some(Lost)
      ensures journal.active.Some? ==> Some(operation) == journal.active && Continues(old(operation), operation)
                                       && (operation.state == Pending ==> old(operation.state) == Pending)
    {
      var owned := Reload();
      if !owned { return false; }
      raised := Adopt();
    }

    /** The move that makes the owner's conclusion reachable. */
    method Reach(to: State) returns (raised: bool)
      requires Valid() && terminal.None? && persistence.None? && journal.active == Some(operation)
      requires to == Running || (to == CancelRequested && operation.state == Running)
      modifies `operation, `persistence, `output, journal, stream
      ensures !raised && Valid() && Continues(old(operation), operation)
      ensures persistence == if Concludes in NextOf(old(journal.schedule)) then Some(Lost) else None
      ensures persistence.None? ==> journal.active == Some(operation) && operation.state in {to, CancelRequested}
      ensures journal.schedule == RestOf(old(journal.schedule))
    {
      BridgePermitted(operation, journal, to);
      GoneIff(journal.active, NextOf(journal.schedule));
      raised := Checkpoint(Moving(to));
    }

    /** That look, and the move if one is needed. */
    method Prepare(state: State) returns (raised: bool, ghost first: State)
      requires Valid() && terminal.None? && persistence.None? && IsTerminal(state)
      modifies `operation, `persistence, `output, journal, stream
      ensures !raised && Valid() && persistence != Some(Refused) && !IsTerminal(first)
      ensures persistence.None? ==>
        && Continues(old(operation), operation) && (first == Pending ==> old(operation.state) == Pending)
        && journal.active == Some(operation)
        && match Bridge(state, first)
           case None => operation.state == first && journal.schedule == RestOf(old(journal.schedule))
           case Some(to) =>
             operation.state in {to, CancelRequested} && journal.schedule == RestOf(RestOf(old(journal.schedule)))
      ensures persistence == Some(Lost) <==>
        old(journal.active).None? || Taken(old(journal.schedule), if Bridge(state, first).Some? then 2 else 1)
    {
      GoneIff(journal.active, NextOf(journal.schedule));
      TakenIn(journal.schedule);
      raised := Look();
      first := Pending;
      if persistence.Some? { return; }
      first := operation.state;
      var bridge := Bridge(state, operation.state);
      if bridge.Some? {
        ghost var found := operation;
        raised := Reach(bridge.value);
        ContinuesOn(old(operation), found, operation);
      }
    }

    /** The record found under the lock becomes the owner's own, and the stream follows. */
    method Adopt() returns (raised: bool)
      requires RecordOk() && StreamOk() && !stream.closed && terminal.None?
      requires journal.active.Some? && Knows(operation, journal.active) && (output || stream.state == operation.state)
      modifies `operation, `output, stream
      ensures !raised && Valid() && Some(operation) == journal.active
    {
      operation := journal.active.value;
      ReachesIsClosure(operation.state, operation.state, operation.state);
      raised := Sync();
    }

    /** A record that has left pending takes no new detail alone. */
    lemma SendingPermitted(known: Operation, record: ActiveRecord, detail: string)
      requires Knows(known, record.active) && OperationEncodable(known) && NotesOk(notes) && IsDetail(detail)
      ensures match After(record.active, NextOf(record.schedule))
        case None => true
        case Some(found) =>
          var f := Following(found, Sending(detail), notes);
          && f == found.(state := if found.state == Pending then Authorizing else found.state, detail := detail)
          && (Permitted(found, f) <==> found.state == Pending || found.detail == detail)
    {
      AfterIsKnown(known, record.active, NextOf(record.schedule));
      var found := After(record.active, NextOf(record.schedule));
      if found.Some? { CheckpointPermittedIff(found.value, Sending(detail), notes); }
    }

    lemma BridgePermitted(known: Operation, record: ActiveRecord, state: State)
      requires Knows(known, record.active) && OperationEncodable(known) && NotesOk(notes)
      requires state == Running || (state == CancelRequested && known.state == Running)
      ensures match After(record.active, NextOf(record.schedule))
        case None => true
        case Some(found) =>
          && Permitted(found, Following(found, Moving(state), notes))
          && Following(found, Moving(state), notes).state == if found.state == CancelRequested then CancelRequested
             else state
    {
      AfterIsKnown(known, record.active, NextOf(record.schedule));
      var found := After(record.active, NextOf(record.schedule));
      if found.Some? { MovingIsPermitted(found.value, state, notes); }
    }

    /** The last locked interval of finish: the terminal record, completed under the same lock. */
    method Conclude(outcome: State, c: Conclusion, completed: string) returns (ghost last: State)
      requires RecordOk() && terminal.None? && persistence.None? && Knows(operation, journal.active)
      requires ConclusionOk(c) && IsTerminal(outcome) && (outcome == Succeeded <==> c.state == Succeeded)
               && IsDetail(completed)
      modifies `persistence, `terminal, journal
      ensures match After(old(journal.active), NextOf(old(journal.schedule)))
        case None => persistence == Some(Lost) && terminal.None?
        case Some(found) =>
          && last == found.state && Reaches(operation.state, last) && !IsTerminal(last)
          && if outcome in Transitions(last)
             then persistence.None? && journal.active.None? && terminal.Some?
                 && RestartRecorded(terminal.value, sent, last)
                  && OperationEncodable(terminal.value) && Continues(operation, terminal.value)
                  && ConcludedAs(found, outcome, c, sent, lastStatus, completed, terminal.value)
             else persistence == Some(Refused) && terminal.None?
    {
      var owned := Reload();
      last := operation.state;
      if !owned { return; }
      var current := journal.active.value;
      last := current.state;
      TerminalPermittedIff(current, outcome, c, sent, lastStatus, completed);
      var record := TerminalRecord(current, outcome, c, sent, lastStatus, completed);
      if !Permitted(current, record) {
        persistence := Some(Refused);
        return;
      }
      journal.active, terminal := None, Some(record);
    }

    /** The terminal bundle. */
    method Publish(record: Operation, detail: string) returns (raised: bool)
      requires StreamOk() && !stream.closed && OperationEncodable(record) && IsDetail(detail)
               && IsTerminal(record.state)
      requires Topic(record.id, record.action, record.startedAt) == stream.topic
      modifies `output, stream
      ensures raised == (!old(output) && record.state !in Transitions(old(stream.state)))
      ensures (old(output) ==> output) && (raised ==> !output)
      ensures StreamOk() && (output || raised || (stream.closed && Ended(stream.rows, record, detail)))
    {
      if output { return false; }
      if record.state !in Transitions(stream.state) {
        var refused := stream.Finish(record, detail);
        return true;
      }
      FinishSound(stream.Contents(), record, detail) by { assert FinishTo(stream.Contents(), record, detail).Ok?; }
      var r := stream.Finish(record, detail);
      if r.Err? {
        if !stream.faulted { return true; }
        output := true;
      }
      return false;
    }

    /** What the owner is left with: an operation lost, refused because it was overtaken, or
        concluded in the journal and then published. */
    ghost predicate Settled(known: Operation, c: Conclusion, detail: string, first: State, last: State)
      reads this, journal, stream
    {
      var state := c.state;
      match persistence
      case Some(Lost) => terminal.None?
      case Some(Refused) => terminal.None? && Overtaken(state, first, last)
      case None =>
        && !Overtaken(state, first, last) && journal.active.None? && terminal.Some?
        && terminal.value.state == (if state == PermissionDenied && first in {Running, CancelRequested} then Failed
                                    else state)
        && terminal.value.finishedAt == Some(c.finishedAt) && terminal.value.terminalMonotonic == Some(c.cutoff)
        && (c.failure.Some? <==> terminal.value.errorCode.Some?)
        && (c.failure.Some? ==> c.failure == Some((terminal.value.errorCode.value, terminal.value.detail)))
        && RestartRecorded(terminal.value, sent, last)
        && Continues(known, terminal.value)
        && (output || Unannounced(state, first, last) || (stream.closed && Ended(stream.rows, terminal.value, detail)))
    }

    /** finish, after its first look. */
    method Settle(c: Conclusion, ghost known: Operation, ghost first: State, completed: string, detail: string)
      returns (raised: bool, ghost last: State)
      requires Valid() && terminal.None? && persistence.None? && !IsTerminal(first)
      requires journal.active == Some(operation) && Continues(known, operation)
      requires ConclusionOk(c) && IsDetail(completed) && IsDetail(detail)
      requires match Bridge(c.state, first)
        case None => operation.state == first
        case Some(s) => operation.state in {s, CancelRequested}
      modifies `persistence, `terminal, `output, journal, stream
      ensures Settled(known, c, detail, first, last)
      ensures persistence == Some(Lost) <==> Concludes in NextOf(old(journal.schedule))
      ensures raised <==> persistence.None? && !output && Unannounced(c.state, first, last)
    {
      var outcome := if c.state == PermissionDenied && operation.state in {Running, CancelRequested} then Failed
          else c.state;
      assert outcome == Outcome(c.state, first);
      raised := false;
      GoneIff(journal.active, NextOf(journal.schedule));
      last := Conclude(outcome, c, completed);
      if persistence == Some(Lost) { return; }
      OutcomeFollowsIff(c.state, first, operation.state, last);
      if persistence.Some? { return; }
      OutcomeIsPublishableIff(c.state, first, operation.state, last);
      ContinuesOn(known, operation, terminal.value);
      raised := Publish(terminal.value, detail);
    }

    /** finish, of an operation that the owner still holds. */
    method FinishHeld(c: Conclusion, completed: string, detail: string)
        returns (raised: bool, ghost first: State, ghost last: State)
      requires Valid() && persistence.None? && terminal.None? && ConclusionOk(c) && IsDetail(completed)
               && IsDetail(detail)
      modifies this, journal, stream
      ensures Settled(old(operation), c, detail, first, last)
      ensures raised <==> persistence.None? && !output && Unannounced(c.state, first, last)
      ensures raised ==> old(operation.state) == Pending
      ensures persistence == Some(Lost) <==>
        old(journal.active).None? || Taken(old(journal.schedule), if Bridge(c.state, first).Some? then 3 else 2)
    {
      TakenIn(journal.schedule);
      raised, first := Prepare(c.state);
      last := Pending;
      if persistence.Some? { return; }
      raised, last := Settle(c, old(operation), first, completed, detail);
    }

    /** finish: whatever others did in between, a protocol error is raised only for a refused
        authorization that came before the owner had left pending; before_send rules that out. */
    method Finish(c: Conclusion, completed: string, detail: string)
        returns (raised: bool, ghost first: State, ghost last: State)
      requires Valid() && ConclusionOk(c) && IsDetail(completed) && IsDetail(detail)
      modifies this, journal, stream
      ensures old(operation.state) != Pending ==> !raised
      ensures old(persistence).Some? || old(terminal).Some? ==>
        persistence == old(persistence) && terminal == old(terminal) && journal.active == old(journal.active)
            && stream.rows == old(stream.rows)
      ensures raised <==> old(persistence).None? && old(terminal).None? && persistence.None? && !output
                          && Unannounced(c.state, first, last)
      ensures old(persistence).None? && old(terminal).None? ==>
        && Settled(old(operation), c, detail, first, last)
        && (persistence == Some(Lost) <==>
              old(journal.active).None? || Taken(old(journal.schedule), if Bridge(c.state, first).Some? then 3 else 2))
    {
      raised, first, last := false, Pending, Pending;
      if persistence.Some? || terminal.Some? { return; }
      raised, first, last := FinishHeld(c, completed, detail);
    }
  }
}
