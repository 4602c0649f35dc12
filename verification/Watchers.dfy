/** Observers of the journal: what they publish from the states they happen to sample. */
module Watchers {
  import opened Results
  import opened Lifecycle
  import opened Text
  import opened Records
  import opened Operations
  import opened Streams

  // ---- which states can follow which ----

  /** Some steps of the transition table lead from one state to the other. */
  predicate Reaches(a: State, b: State) {
    match a
    case Pending => true
    case Authorizing => b != Pending
    case Running => b != Pending && b != Authorizing && b != PermissionDenied
    case CancelRequested => b in {CancelRequested, Canceled, Failed, Interrupted, Succeeded}
    case _ => b == a
  }

  /** Reaches is exactly reachability in the transition table. */
  lemma ReachesIsClosure(a: State, b: State, c: State)
    ensures Reaches(a, a)
    ensures b in Transitions(a) ==> Reaches(a, b)
    ensures Reaches(a, b) && Reaches(b, c) ==> Reaches(a, c)
    ensures Reaches(a, b) && a != b ==> exists m :: m in Transitions(a) && m != a && Reaches(m, b)
  {
    if Reaches(a, b) && a != b {
      var m := if b in Transitions(a) then b
               else if a == Pending && b == PermissionDenied then Authorizing
               else if a == Running then CancelRequested else Running;
      assert m in Transitions(a) && m != a && Reaches(m, b);
    }
  }

  /** An operation's history: each entry a legal advance of the one before. */
  ghost predicate AdvancesAt(history: seq<Operation>, i: int) {
    0 < i < |history| ==> SameIdentity(history[i - 1], history[i]) && LegalTransition(history[i - 1], history[i])
  }

  ghost predicate History(history: seq<Operation>) {
    && (forall i :: AdvancesAt(history, i))
    && forall i :: 0 <= i < |history| ==> OperationEncodable(history[i])
  }

  lemma {:induction false} HistoryReaches(history: seq<Operation>, i: nat, k: nat)
    requires History(history) && i <= k < |history|
    ensures SameIdentity(history[i], history[k]) && Reaches(history[i].state, history[k].state)
    decreases k - i
  {
    if i < k {
      HistoryReaches(history, i, k - 1);
      assert AdvancesAt(history, k);
      ReachesIsClosure(history[i].state, history[k - 1].state, history[k].state);
      ReachesIsClosure(history[k - 1].state, history[k].state, history[k].state);
    }
  }

  // ---- watch_native_journal_operation ----

  function Idle(detail: string): Progress { Progress(Unknown, false, detail) }

  /** The transition, if any, that makes the sampled state reachable in one more step. */
  function Bridged(s: Stream, current: Operation): Result<Stream, StreamError> {
    if current.state == Succeeded && s.state in {Pending, Authorizing}
    then TransitionTo(s, Running, Idle(current.detail))
    else if current.state == PermissionDenied && s.state == Pending
    then TransitionTo(s, Authorizing, Idle(current.detail))
    else if current.state == Canceled && s.state == Running then TransitionTo(s, CancelRequested, Idle(current.detail))
    else if current.state == CancelRequested && s.state in {Pending, Authorizing}
      then TransitionTo(s, Running, Idle(current.detail))
    else Ok(s)
  }

  /** One turn of the watch loop, on the record it sampled. */
  function Observe(s: Stream, current: Operation): Result<Stream, StreamError> {
    match Bridged(s, current)
    case Err(e) => Err(e)
    case Ok(t) =>
      if IsTerminal(current.state) then FinishTo(t, current, current.detail)
      else if current.state != t.state then TransitionTo(t, current.state, Idle(current.detail))
      else ProgressTo(t, Idle(current.detail))
  }

  /** The whole loop: it returns when it has finished the stream. */
  function Watch(s: Stream, samples: seq<Operation>): Result<Stream, StreamError>
    decreases samples
  {
    if samples == [] then Ok(s)
    else match Observe(s, samples[0])
      case Err(e) => Err(e)
      case Ok(t) => if t.closed then Ok(t) else Watch(t, samples[1..])
  }

  /** A sound open stream of this operation that has not passed the sampled state. */
  ghost predicate Behind(s: Stream, op: Operation) {
    Sound(s) && !s.closed && s.topic == Topic(op.id, op.action, op.startedAt) && Reaches(s.state, op.state)
  }

  /** The state to pass through, if any. */
  function Via(s: Stream, current: Operation): Option<State> {
    if current.state in {Succeeded, CancelRequested} && s.state in {Pending, Authorizing} then Some(Running)
    else if current.state == PermissionDenied && s.state == Pending then Some(Authorizing)
    else if current.state == Canceled && s.state == Running then Some(CancelRequested)
    else None
  }

  lemma BridgedVia(s: Stream, current: Operation)
    ensures Bridged(s, current)
         == if Via(s, current).Some? then TransitionTo(s, Via(s, current).value, Idle(current.detail)) else Ok(s)
  {}

  lemma BridgedSound(s: Stream, current: Operation)
    requires Behind(s, current) && OperationEncodable(current)
    ensures Bridged(s, current).Ok? && Behind(Bridged(s, current).value, current)
    ensures current.state == Bridged(s, current).value.state
            || current.state in Transitions(Bridged(s, current).value.state)
  {
    assert FieldSound(current, 3);
    BridgedVia(s, current);
    if Via(s, current).Some? { TransitionSound(s, Via(s, current).value, Idle(current.detail)); }
  }

  /** One turn never fails: the stream catches up with the sampled state, and closes exactly on a terminal one. */
  lemma ObserveCatchesUp(s: Stream, current: Operation)
    requires Behind(s, current) && OperationEncodable(current)
    ensures Observe(s, current).Ok?
    ensures var t := Observe(s, current).value;
      && Sound(t) && t.state == current.state && t.topic == s.topic && (t.closed <==> IsTerminal(current.state))
      && (t.closed ==> Ended(t.rows, current, current.detail))
      && (!t.closed ==> t.last == Idle(current.detail) || t.records == MAX_PROGRESS_RECORDS)
  {
    BridgedSound(s, current);
    var t := Bridged(s, current).value;
    assert FieldSound(current, 3);
    if IsTerminal(current.state) {
      FinishSound(t, current, current.detail);
    } else if current.state != t.state {
      TransitionSound(t, current.state, Idle(current.detail));
    } else {
      ProgressSound(t, Idle(current.detail));
    }
  }

  /** The samples are entries of the history, at times that never go back. */
  ghost predicate Sampled(history: seq<Operation>, samples: seq<Operation>, times: seq<nat>) {
    && |times| == |samples|
    && (forall i :: 0 <= i < |times| ==> times[i] < |history| && samples[i] == history[times[i]])
    && forall i, k :: 0 <= i < k < |times| ==> times[i] <= times[k]
  }

  /** Whatever an observer samples, its stream stays sound and is never ahead of the journal. */
  lemma {:induction false} WatchKeepsUp(history: seq<Operation>, s: Stream, samples: seq<Operation>, times: seq<nat>,
                                        now: nat)
    requires History(history) && Sampled(history, samples, times) && now < |history|
    requires Behind(s, history[now]) && forall i :: 0 <= i < |times| ==> now <= times[i]
    ensures Watch(s, samples).Ok? && Sound(Watch(s, samples).value)
    ensures Watch(s, samples).value.closed <==> exists i :: 0 <= i < |samples| && IsTerminal(samples[i].state)
    ensures Watch(s, samples).value.state == s.state
            || exists i :: 0 <= i < |samples| && Watch(s, samples).value.state == samples[i].state
    ensures Watch(s, samples).value.closed ==> EndedBy(Watch(s, samples).value.rows, samples)
    decreases |samples|
  {
    if samples != [] {
      HistoryReaches(history, now, times[0]);
      ReachesIsClosure(s.state, history[now].state, samples[0].state);
      ObserveCatchesUp(s, samples[0]);
      var t := Observe(s, samples[0]).value;
      if !t.closed {
        ReachesIsClosure(t.state, t.state, t.state);
        WatchKeepsUp(history, t, samples[1..], times[1..], times[0]);
        var w := Watch(t, samples[1..]).value;
        assert Watch(s, samples).value == w;
        forall i | 0 <= i < |samples[1..]| ensures samples[1..][i] == samples[i + 1] {}
        TailTerminal(samples);
        TailEnded(w.rows, samples);
      } else {
        assert IsTerminal(samples[0].state);
      }
    }
  }

  /** The terminal bundle is that of a sampled record. */
  ghost predicate EndedBy(rows: seq<Row>, samples: seq<Operation>) {
    exists op :: op in samples && Ended(rows, op, op.detail)
  }

  lemma TailEnded(rows: seq<Row>, samples: seq<Operation>)
    requires samples != []
    ensures EndedBy(rows, samples[1..]) ==> EndedBy(rows, samples)
  {}

  lemma TailTerminal(samples: seq<Operation>)
    requires samples != [] && !IsTerminal(samples[0].state)
    ensures (exists i :: 0 <= i < |samples| && IsTerminal(samples[i].state))
       <==> (exists i :: 0 <= i < |samples[1..]| && IsTerminal(samples[1..][i].state))
  {
    if i :| 0 <= i < |samples| && IsTerminal(samples[i].state) { assert samples[1..][i - 1] == samples[i]; }
    if i :| 0 <= i < |samples[1..]| && IsTerminal(samples[1..][i].state) { assert samples[i + 1] == samples[1..][i]; }
  }

  /** For any history of legal advances, sampled at any times from where the observer attached: it
      opens, never raises a protocol error, publishes a path of the transition table with at most
      252 repeated rows, and writes its one terminal bundle exactly when it sampled the result. */
  lemma EveryWatchIsSound(history: seq<Operation>, samples: seq<Operation>, times: seq<nat>)
    requires History(history) && history != [] && Sampled(history, samples, times)
    ensures var op := history[0];
      var start := Open(Topic(op.id, op.action, op.startedAt), op.detail);
      && start.Ok? && Watch(start.value, samples).Ok? && Sound(Watch(start.value, samples).value)
      && (Watch(start.value, samples).value.closed <==> exists i :: 0 <= i < |samples| && IsTerminal(samples[i].state))
      && (Watch(start.value, samples).value.closed ==> EndedBy(Watch(start.value, samples).value.rows, samples))
  {
    var op := history[0];
    assert FieldSound(op, 0) && FieldSound(op, 1) && FieldSound(op, 3);
    OpenSound(Topic(op.id, op.action, op.startedAt), op.detail);
    WatchKeepsUp(history, Open(Topic(op.id, op.action, op.startedAt), op.detail).value, samples, times, 0);
  }

  /** One turn of the loop on the stream itself: it raises what Observe raises, or a write fails. */
  method WatchTurn(stream: OperationStream, current: Operation) returns (r: Result<bool, StreamError>)
    requires !stream.faulted
    modifies stream
    ensures r.Ok? ==> !stream.faulted && Observe(old(stream.Contents()), current) == Ok(stream.Contents())
    ensures r.Err? && r.error != WriteFailed ==> Observe(old(stream.Contents()), current) == Err(r.error)
  {
    ghost var before := stream.Contents();
    var bridge := if current.state == Succeeded && stream.state in {Pending, Authorizing} then Some(Running)
                  else if current.state == PermissionDenied && stream.state == Pending then Some(Authorizing)
                  else if current.state == Canceled && stream.state == Running then Some(CancelRequested)
                  else if current.state == CancelRequested && stream.state in {Pending, Authorizing} then Some(Running)
                  else None;
    if bridge.Some? {
      r := stream.Transition(bridge.value, Idle(current.detail));
      if r.Err? { return; }
    }
    assert Bridged(before, current) == Ok(stream.Contents());
    if IsTerminal(current.state) {
      r := stream.Finish(current, current.detail);
    } else if current.state != stream.state {
      r := stream.Transition(current.state, Idle(current.detail));
    } else {
      r := stream.ReportProgress(Idle(current.detail));
    }
  }

  /** The watch loop over the records it samples. */
  method WatchOperation(stream: OperationStream, samples: seq<Operation>) returns (r: Result<bool, StreamError>)
    requires !stream.faulted
    modifies stream
    ensures r.Ok? ==> Watch(old(stream.Contents()), samples) == Ok(stream.Contents())
    ensures r.Err? && r.error != WriteFailed ==> Watch(old(stream.Contents()), samples) == Err(r.error)
  {
    ghost var start := stream.Contents();
    var i := 0;
    while i < |samples|
      invariant 0 <= i <= |samples| && !stream.faulted
      invariant Watch(start, samples) == Watch(stream.Contents(), samples[i..])
    {
      assert samples[i..][0] == samples[i] && samples[i..][1..] == samples[i + 1..];
      var turn := WatchTurn(stream, samples[i]);
      if turn.Err? { return turn; }
      i := i + 1;
      if stream.closed { return Ok(true); }
    }
    return Ok(false);
  }

  // ---- replay_terminal_operation ----

  /** The opened stream, brought to where the result is one step away. */
  function ReplayStart(op: Operation, note: string, authorized: string, completed: string)
    : Result<Stream, StreamError>
  {
    match Open(Topic(op.id, op.action, op.startedAt), note)
    case Err(e) => Err(e)
    case Ok(s) =>
      if op.state == PermissionDenied then TransitionTo(s, Authorizing, Idle(authorized))
      else if op.state == Succeeded then TransitionTo(s, Running, Idle(completed))
      else Ok(s)
  }

  /** The rows of a retained result, with the fixed texts of the replay. */
  function Replay(op: Operation, note: string, authorized: string, completed: string): Result<Stream, StreamError> {
    if !OperationEncodable(op) || !IsTerminal(op.state) then Err(BadTerminal)
    else match ReplayStart(op, note, authorized, completed)
      case Err(e) => Err(e)
      case Ok(t) => FinishTo(t, op, op.detail)
  }

  lemma ReplayStarts(op: Operation, note: string, authorized: string, completed: string)
    requires IsOperationId(op.id) && IsTimestamp(op.startedAt) && IsTerminal(op.state)
    requires IsDetail(note) && IsDetail(authorized) && IsDetail(completed)
    ensures var t := ReplayStart(op, note, authorized, completed);
      && t.Ok? && Sound(t.value) && !t.value.closed && t.value.topic == Topic(op.id, op.action, op.startedAt)
      && op.state in Transitions(t.value.state)
  {
    var topic := Topic(op.id, op.action, op.startedAt);
    OpenSound(topic, note);
    var s := Open(topic, note).value;
    if op.state == PermissionDenied {
      FirstStep(s, Authorizing, authorized);
    } else if op.state == Succeeded {
      FirstStep(s, Running, completed);
    }
  }

  lemma FirstStep(s: Stream, to: State, detail: string)
    requires Sound(s) && s.state == Pending && !s.closed && to in {Authorizing, Running} && IsDetail(detail)
    ensures var t := TransitionTo(s, to, Idle(detail));
      t.Ok? && Sound(t.value) && !t.value.closed && t.value.topic == s.topic && t.value.state == to
  {
    TransitionSound(s, to, Idle(detail));
  }

  function FirstRows(op: Operation, note: string, authorized: string, completed: string): seq<Row> {
    [HelloRow, OperationRow(Pending, Idle(note))]
    + if op.state == PermissionDenied then [OperationRow(Authorizing, Idle(authorized))]
      else if op.state == Succeeded then [OperationRow(Running, Idle(completed))] else []
  }

  lemma ReplayRows(op: Operation, note: string, authorized: string, completed: string)
    requires ReplayStart(op, note, authorized, completed).Ok?
    ensures ReplayStart(op, note, authorized, completed).value.rows == FirstRows(op, note, authorized, completed)
  {}

  /** Before its bundle a replay shows pending, and then the one state that the result needs. */
  predicate ReplayedFrom(rows: seq<Row>, op: Operation, note: string, authorized: string, completed: string) {
    FirstRows(op, note, authorized, completed) <= rows
    && |rows| == |FirstRows(op, note, authorized, completed)| + if op.errorCode.Some? then 4 else 3
  }

  /** Every retained terminal replays as a sound, closed stream ending in its own state. */
  lemma EveryReplayIsSound(op: Operation, note: string, authorized: string, completed: string)
    requires OperationEncodable(op) && IsTerminal(op.state)
    requires IsDetail(note) && IsDetail(authorized) && IsDetail(completed)
    ensures var r := Replay(op, note, authorized, completed);
      r.Ok? && Sound(r.value) && r.value.closed && r.value.state == op.state && Ended(r.value.rows, op, op.detail)
      && ReplayedFrom(r.value.rows, op, note, authorized, completed)
  {
    ReplayRows(op, note, authorized, completed);
    assert FieldSound(op, 0) && FieldSound(op, 1) && FieldSound(op, 3);
    ReplayStarts(op, note, authorized, completed);
    var start := ReplayStart(op, note, authorized, completed).value;
    FinishSound(start, op, op.detail);
    assert |TerminalRows(op, op.detail)| == if op.errorCode.Some? then 4 else 3;
    assert Replay(op, note, authorized, completed).value.rows == start.rows + TerminalRows(op, op.detail);
  }
}
