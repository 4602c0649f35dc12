/** OperationStream: the rows one operation publishes, and the observers that publish them from
    sampled journal states. */
module Streams {
  import opened Results
  import opened Lifecycle
  import opened Text
  import opened Records

  const MAX_PROGRESS_RECORDS := 252
  const MAX_ITEM_RECORDS := 4096

  datatype Percent = Unknown | Known(value: nat)

  /** The varying fields of an operation row. */
  datatype Progress = Progress(percent: Percent, cancelable: bool, detail: string)

  datatype Row =
    | HelloRow
    | OperationRow(state: State, progress: Progress)
    | ItemRow(name: string, phase: string, percent: Percent)
    | ErrorRow(code: ErrorCode, detail: string)
    | AuditRow(state: State, finishedAt: string, detail: string)
    | CompleteRow

  datatype StreamError = NotWritable | BadIdentity | BadProgress | BadDetail | BadTerminal | WriteFailed

  /** What a stream is about. */
  datatype Topic = Topic(id: string, action: Action, startedAt: string)

  datatype Stream = Stream(
    topic: Topic,
    state: State,
    records: nat,
    items: nat,
    last: Progress,
    lastItem: Option<Row>,
    closed: bool,
    rows: seq<Row>)

  // ---- what each call does ----

  function Open(topic: Topic, detail: string): Result<Stream, StreamError> {
    if !IsOperationId(topic.id) || !IsTimestamp(topic.startedAt) then Err(BadIdentity)
    else if !IsDetail(detail) then Err(BadDetail)
    else
      var first := Progress(Unknown, false, detail);
      Ok(Stream(topic, Pending, 0, 0, first, None, false, [HelloRow, OperationRow(Pending, first)]))
  }

  predicate PercentOk(p: Percent) { p.Known? ==> p.value <= 100 }

  /** transition: a reached state; repeated rows are coalesced and capped. */
  function TransitionTo(s: Stream, state: State, p: Progress): Result<Stream, StreamError> {
    if s.closed then Err(NotWritable)
    else if state !in Transitions(s.state) || IsTerminal(state) || !PercentOk(p.percent) then Err(BadProgress)
    else if !IsDetail(p.detail) then Err(BadDetail)
    else if state == s.state && (p == s.last || s.records >= MAX_PROGRESS_RECORDS) then Ok(s)
    else Ok(s.(state := state, last := p, records := if state == s.state then s.records + 1 else s.records,
               rows := s.rows + [OperationRow(state, p)]))
  }

  /** progress: new fields in the same state. */
  function ProgressTo(s: Stream, p: Progress): Result<Stream, StreamError> {
    if s.closed then Err(NotWritable)
    else if !PercentOk(p.percent) then Err(BadProgress)
    else if !IsDetail(p.detail) then Err(BadDetail)
    else if p == s.last || s.records >= MAX_PROGRESS_RECORDS then Ok(s)
    else Ok(s.(last := p, records := s.records + 1, rows := s.rows + [OperationRow(s.state, p)]))
  }

  /** item_progress: bounded display rows; at the bound, one row that clears the display. */
  function ItemTo(s: Stream, name: string, phase: string, percent: Percent): Result<Stream, StreamError> {
    if s.closed then Err(NotWritable)
    else if !IsDetail(name) then Err(BadDetail)
    else if IsNative(KindOf(s.topic.action)) || s.state !in {Running, CancelRequested}
            || phase !in {"working", "downloading", "installing", "updating", "removing", "cleaning"}
               || !PercentOk(percent)
      then Err(BadProgress)
    else
      var item := ItemRow(name, phase, percent);
      if s.lastItem == Some(item) || s.items > MAX_ITEM_RECORDS then Ok(s)
      else
        var row := if s.items == MAX_ITEM_RECORDS then ItemRow("", "working", Unknown) else item;
        Ok(s.(items := s.items + 1, lastItem := Some(row), rows := s.rows + [row]))
  }

  function TerminalRows(op: Operation, detail: string): seq<Row>
    requires op.finishedAt.Some?
  {
    (if op.errorCode.Some? then [ErrorRow(op.errorCode.value, op.detail)] else [])
    + [OperationRow(op.state, Progress(Unknown, false, detail)), AuditRow(op.state, op.finishedAt.value, detail),
       CompleteRow]
  }

  /** finish: the terminal bundle, in one write. */
  function FinishTo(s: Stream, op: Operation, detail: string): Result<Stream, StreamError> {
    if s.closed then Err(NotWritable)
    else if !OperationEncodable(op) || Topic(op.id, op.action, op.startedAt) != s.topic
            || !IsTerminal(op.state) || op.state !in Transitions(s.state) then Err(BadTerminal)
    else if !IsDetail(detail) then Err(BadDetail)
    else Ok(s.(state := op.state, closed := true, rows := s.rows + TerminalRows(op, detail)))
  }

  // ---- what a reader of the rows can rely on ----

  /** The states the operation rows report, in order. */
  function States(rows: seq<Row>): seq<State> {
    if rows == [] then []
    else
      var last := rows[|rows| - 1];
      States(rows[..|rows| - 1]) + if last.OperationRow? then [last.state] else []
  }

  /** One reported state after another: the same again, or a step of the transition table. */
  predicate StepAt(states: seq<State>, i: int) {
    0 < i < |states| ==> states[i] == states[i - 1] || states[i] in Transitions(states[i - 1])
  }

  function Repeats(states: seq<State>): nat {
    if |states| < 2 then 0
    else Repeats(states[..|states| - 1]) + if states[|states| - 1] == states[|states| - 2] then 1 else 0
  }

  function Items(rows: seq<Row>): nat {
    if rows == [] then 0 else Items(rows[..|rows| - 1]) + if rows[|rows| - 1].ItemRow? then 1 else 0
  }

  /** A row that may stand before the terminal bundle. */
  predicate Ongoing(row: Row) { (row.OperationRow? && !IsTerminal(row.state)) || row.ItemRow? || row.HelloRow? }

  /** The rows before the terminal bundle of a closed stream, all rows of an open one. */
  ghost predicate Published(s: Stream) {
    var states := States(s.rows);
    && |states| > 0 && states[0] == Pending && states[|states| - 1] == s.state
    && (forall i :: StepAt(states, i))
    && Repeats(states) == s.records <= MAX_PROGRESS_RECORDS
    && Items(s.rows) == s.items <= MAX_ITEM_RECORDS + 1
  }

  ghost predicate Unfinished(rows: seq<Row>) { forall i :: 0 <= i < |rows| ==> Ongoing(rows[i]) }

  /** The rows end in the one terminal bundle of this record: its error if it has one, its result, the
      audit of the result and the completion, with nothing after it. */
  ghost predicate Ended(rows: seq<Row>, op: Operation, detail: string) {
    var n, bundle := |rows|, if op.errorCode.Some? then 4 else 3;
    && n >= bundle && Unfinished(rows[..n - bundle]) && IsTerminal(op.state)
    && (op.errorCode.Some? ==> rows[n - 4] == ErrorRow(op.errorCode.value, op.detail))
    && rows[n - 3] == OperationRow(op.state, Progress(Unknown, false, detail))
    && op.finishedAt.Some? && rows[n - 2] == AuditRow(op.state, op.finishedAt.value, detail)
    && rows[n - 1] == CompleteRow
  }

  /** A closed stream ends in exactly one terminal bundle. */
  ghost predicate Concluded(rows: seq<Row>) { exists op, detail :: Ended(rows, op, detail) }

  /** The operation row that a reader sees last. */
  function Shown(rows: seq<Row>): Option<Row> {
    if rows == [] then None
    else if rows[|rows| - 1].OperationRow? then Some(rows[|rows| - 1]) else Shown(rows[..|rows| - 1])
  }

  ghost predicate Sound(s: Stream) {
    Published(s)
    && if s.closed then Concluded(s.rows) && IsTerminal(s.state)
       else Unfinished(s.rows) && !IsTerminal(s.state) && Shown(s.rows) == Some(OperationRow(s.state, s.last))
  }

  lemma StatesSnoc(rows: seq<Row>, row: Row)
    ensures States(rows + [row]) == if row.OperationRow? then States(rows) + [row.state] else States(rows)
    ensures Items(rows + [row]) == Items(rows) + if row.ItemRow? then 1 else 0
    ensures Shown(rows + [row]) == if row.OperationRow? then Some(row) else Shown(rows)
  {
    assert (rows + [row])[..|rows|] == rows && States(rows) + [] == States(rows);
  }

  lemma RepeatsSnoc(states: seq<State>, state: State)
    requires states != []
    ensures Repeats(states + [state]) == Repeats(states) + if state == states[|states| - 1] then 1 else 0
  {
    assert (states + [state])[..|states|] == states;
  }

  /** Appending the row of a state that may follow. */
  lemma StateFollows(s: Stream, t: Stream, row: Row)
    requires Published(s) && row.OperationRow? && t.rows == s.rows + [row] && t.state == row.state && t.items == s.items
    requires row.state == s.state || row.state in Transitions(s.state)
    requires t.records == s.records + (if row.state == s.state then 1 else 0) && t.records <= MAX_PROGRESS_RECORDS
    ensures Published(t) && Shown(t.rows) == Some(row)
  {
    var states := States(s.rows);
    StatesSnoc(s.rows, row);
    RepeatsSnoc(states, row.state);
    forall i ensures StepAt(States(t.rows), i) { assert StepAt(states, i); }
  }

  lemma OpenSound(topic: Topic, detail: string)
    requires Open(topic, detail).Ok?
    ensures Sound(Open(topic, detail).value) && Open(topic, detail).value.state == Pending
  {
    var first := OperationRow(Pending, Progress(Unknown, false, detail));
    var rows := [HelloRow, first];
    assert rows == [HelloRow] + [first] && [HelloRow] == [] + [HelloRow];
    StatesSnoc([], HelloRow);
    StatesSnoc([HelloRow], first);
    assert States(rows) == [Pending];
  }

  /** A report adds one row at most, behind those that are there. */
  predicate AddsRow(s: Stream, t: Stream, row: Row) { t.rows == s.rows + [row] && t.topic == s.topic && !t.closed }

  /** A state that may follow, with sound fields, is never refused on an open stream and always shown; its
      fields are, too, but for a repeated state past the cap. */
  lemma TransitionSound(s: Stream, state: State, p: Progress)
    requires Sound(s)
    ensures TransitionTo(s, state, p).Ok? <==>
      !s.closed && state in Transitions(s.state) && !IsTerminal(state)
      && (p.percent.Known? ==> p.percent.value <= 100) && IsDetail(p.detail)
    ensures TransitionTo(s, state, p).Ok? ==>
      var t := TransitionTo(s, state, p).value;
      && Sound(t) && t.state == state && t.topic == s.topic
      && if state == s.state && (p == s.last || s.records == MAX_PROGRESS_RECORDS) then t == s
         else AddsRow(s, t, OperationRow(state, p)) && t.last == p
  {
    if TransitionTo(s, state, p).Err? { return; }
    var t := TransitionTo(s, state, p).value;
    if t != s { StateFollows(s, t, OperationRow(state, p)); }
  }

  /** A step of the lifecycle is never refused. */
  lemma StepAccepted(s: Stream, state: State, p: Progress)
    requires Sound(s) && !s.closed && state in Transitions(s.state) && !IsTerminal(state)
    requires PercentOk(p.percent) && IsDetail(p.detail)
    ensures TransitionTo(s, state, p).Ok?
    ensures var t := TransitionTo(s, state, p).value; Sound(t) && t.state == state && !t.closed && t.topic == s.topic
    ensures state != s.state ==> TransitionTo(s, state, p).value.last == p
  {
    TransitionSound(s, state, p);
  }

  /** New fields are shown, up to the cap, and the same ones are not repeated. */
  lemma ProgressSound(s: Stream, p: Progress)
    requires Sound(s)
    ensures ProgressTo(s, p).Ok? <==> !s.closed && (p.percent.Known? ==> p.percent.value <= 100) && IsDetail(p.detail)
    ensures ProgressTo(s, p).Ok? ==>
      var t := ProgressTo(s, p).value;
      && Sound(t) && t.state == s.state && t.topic == s.topic
      && if p == s.last || s.records == MAX_PROGRESS_RECORDS then t == s
         else AddsRow(s, t, OperationRow(s.state, p)) && t.last == p
  {
    if ProgressTo(s, p).Err? { return; }
    var t := ProgressTo(s, p).value;
    if t != s { StateFollows(s, t, OperationRow(s.state, p)); }
  }

  lemma ItemAdded(s: Stream, row: Row)
    requires Sound(s) && !s.closed && row.ItemRow? && s.items <= MAX_ITEM_RECORDS
    ensures Sound(s.(items := s.items + 1, lastItem := Some(row), rows := s.rows + [row]))
  {
    StatesSnoc(s.rows, row);
  }

  /** A new item is shown while there is room, at the bound an empty one in its place, and none after it. */
  lemma ItemSound(s: Stream, name: string, phase: string, percent: Percent)
    requires Sound(s)
    ensures ItemTo(s, name, phase, percent).Ok? <==>
      && !s.closed && IsDetail(name) && s.state in {Running, CancelRequested}
      && s.topic.action in {UpdatesRefresh, UpdatesInstallAll}
      && phase in {"working", "downloading", "installing", "updating", "removing", "cleaning"}
      && (percent.Known? ==> percent.value <= 100)
    ensures ItemTo(s, name, phase, percent).Ok? ==>
      var t, item := ItemTo(s, name, phase, percent).value, ItemRow(name, phase, percent);
      && Sound(t)
      && if s.lastItem == Some(item) || s.items == MAX_ITEM_RECORDS + 1 then t == s
         else AddsRow(s, t, if s.items < MAX_ITEM_RECORDS then item else ItemRow("", "working", Unknown))
  {
    if ItemTo(s, name, phase, percent).Err? { return; }
    if ItemTo(s, name, phase, percent) != Ok(s) {
      ItemAdded(s, if s.items == MAX_ITEM_RECORDS then ItemRow("", "working", Unknown)
                else ItemRow(name, phase, percent));
    }
  }

  /** Error, audit and completion rows report no state. */
  lemma SilentRow(s: Stream, row: Row)
    requires Published(s) && (row.ErrorRow? || row.AuditRow? || row.CompleteRow?)
    ensures Published(s.(rows := s.rows + [row]))
  {
    StatesSnoc(s.rows, row);
  }

  lemma WarnedPublished(s: Stream, op: Operation) returns (t: Stream)
    requires Published(s)
    ensures t == s.(rows := s.rows + (if op.errorCode.Some? then [ErrorRow(op.errorCode.value, op.detail)] else []))
    ensures Published(t)
  {
    t := s;
    if op.errorCode.Some? {
      SilentRow(s, ErrorRow(op.errorCode.value, op.detail));
      t := s.(rows := s.rows + [ErrorRow(op.errorCode.value, op.detail)]);
    } else {
      assert s.rows + [] == s.rows;
    }
  }

  lemma FinishPublished(s: Stream, op: Operation, detail: string)
    requires Published(s) && op.state in Transitions(s.state) && op.state != s.state && op.finishedAt.Some?
    ensures Published(s.(state := op.state, closed := true, rows := s.rows + TerminalRows(op, detail)))
  {
    var row, audit := OperationRow(op.state, Progress(Unknown, false, detail)),
        AuditRow(op.state, op.finishedAt.value, detail);
    var warned := WarnedPublished(s, op);
    var reached := warned.(rows := warned.rows + [row], state := op.state);
    StateFollows(warned, reached, row);
    SilentRow(reached, audit);
    SilentRow(reached.(rows := reached.rows + [audit]), CompleteRow);
    assert s.rows + TerminalRows(op, detail) == reached.rows + [audit] + [CompleteRow];
  }

  /** The terminal record of the operation, one step from the state shown, is never refused on an open
      stream, and ends it with its own bundle. */
  lemma FinishSound(s: Stream, op: Operation, detail: string)
    requires Sound(s)
    ensures FinishTo(s, op, detail).Ok? <==>
      !s.closed && OperationEncodable(op) && op.id == s.topic.id && op.action == s.topic.action
      && op.startedAt == s.topic.startedAt && IsTerminal(op.state) && op.state in Transitions(s.state)
      && IsDetail(detail)
    ensures FinishTo(s, op, detail).Ok? ==>
      var t := FinishTo(s, op, detail).value;
      Sound(t) && t.closed && Ended(t.rows, op, detail) && s.rows <= t.rows
  {
    if FinishTo(s, op, detail).Err? { return; }
    FinishPublished(s, op, detail);
    var rows := FinishTo(s, op, detail).value.rows;
    assert rows[..|s.rows|] == s.rows;
    assert Ended(rows, op, detail);
  }

  // ---- the stream itself ----

  /** What a call that sends at most once leaves: a stream, its fault flag and the writer's patience. */
  predicate Leaves(s: Stream, faulted: bool, writes: nat, outcome: Result<Stream, StreamError>,
                   r: Result<bool, StreamError>, s': Stream, faulted': bool, writes': nat) {
    match if faulted then Err(NotWritable) else outcome
    case Err(e) => r == Err(e) && s' == s && faulted' == faulted && writes' == writes
    case Ok(next) =>
      if next == s then r == Ok(false) && s' == s && !faulted' && writes' == writes
      else if writes == 0 then r == Err(WriteFailed) && s' == s && faulted' && writes' == 0
      else r == Ok(true) && s' == next && !faulted' && writes' == writes - 1
  }

  /** The writer takes so many more bundles, then fails. */
  class OperationStream {
    const topic: Topic
    var state: State
    var progressRecords: nat
    var itemRecords: nat
    var lastProgress: Progress
    var lastItem: Option<Row>
    var closed: bool
    var faulted: bool
    var rows: seq<Row>
    var writes: nat

    function Contents(): Stream
      reads this
    {
      Stream(topic, state, progressRecords, itemRecords, lastProgress, lastItem, closed, rows)
    }

    /** A stream whose first bundle was taken. */
    constructor (topic: Topic, detail: string, writes: nat)
      requires Open(topic, detail).Ok?
      ensures Contents() == Open(topic, detail).value && !faulted && this.writes == writes
    {
      this.topic, state, progressRecords, itemRecords := topic, Pending, 0, 0;
      lastProgress, lastItem, closed, faulted := Progress(Unknown, false, detail), None, false, false;
      rows, this.writes := [HelloRow, OperationRow(Pending, Progress(Unknown, false, detail))], writes;
    }

    /** _send: a failing writer faults the stream for good. */
    method Send(bundle: seq<Row>) returns (sent: bool)
      requires !closed && !faulted
      modifies `rows, `writes, `faulted
      ensures sent == (old(writes) > 0) && faulted == !sent
      ensures rows == (if sent then old(rows) + bundle else old(rows))
      ensures writes == if sent then old(writes) - 1 else 0
    {
      if writes == 0 {
        faulted := true;
        return false;
      }
      rows, writes := rows + bundle, writes - 1;
      return true;
    }

    method Transition(to: State, p: Progress) returns (r: Result<bool, StreamError>)
      modifies this
      ensures Leaves(old(Contents()), old(faulted), old(writes), TransitionTo(old(Contents()), to, p), r, Contents(),
                     faulted, writes)
    {
      if closed || faulted { return Err(NotWritable); }
      if to !in Transitions(state) || IsTerminal(to) || !PercentOk(p.percent) { return Err(BadProgress); }
      if !IsDetail(p.detail) { return Err(BadDetail); }
      var repeated := to == state;
      if repeated && (p == lastProgress || progressRecords >= MAX_PROGRESS_RECORDS) { return Ok(false); }
      Longer(rows, [OperationRow(to, p)]);
      var sent := Send([OperationRow(to, p)]);
      if !sent { return Err(WriteFailed); }
      state, lastProgress := to, p;
      if repeated { progressRecords := progressRecords + 1; }
      return Ok(true);
    }

    method ReportProgress(p: Progress) returns (r: Result<bool, StreamError>)
      modifies this
      ensures Leaves(old(Contents()), old(faulted), old(writes), ProgressTo(old(Contents()), p), r, Contents(), faulted,
                     writes)
    {
      if closed || faulted { return Err(NotWritable); }
      if !PercentOk(p.percent) { return Err(BadProgress); }
      if !IsDetail(p.detail) { return Err(BadDetail); }
      if p == lastProgress || progressRecords >= MAX_PROGRESS_RECORDS { return Ok(false); }
      Longer(rows, [OperationRow(state, p)]);
      var sent := Send([OperationRow(state, p)]);
      if !sent { return Err(WriteFailed); }
      lastProgress, progressRecords := p, progressRecords + 1;
      return Ok(true);
    }

    method ReportItem(name: string, phase: string, percent: Percent) returns (r: Result<bool, StreamError>)
      modifies this
      ensures Leaves(old(Contents()), old(faulted), old(writes), ItemTo(old(Contents()), name, phase, percent), r,
                     Contents(), faulted, writes)
    {
      if closed || faulted { return Err(NotWritable); }
      if !IsDetail(name) { return Err(BadDetail); }
      if IsNative(KindOf(topic.action)) || state !in {Running, CancelRequested}
         || phase !in {"working", "downloading", "installing", "updating", "removing", "cleaning"}
            || !PercentOk(percent) {
        return Err(BadProgress);
      }
      var item := ItemRow(name, phase, percent);
      if lastItem == Some(item) || itemRecords > MAX_ITEM_RECORDS { return Ok(false); }
      if itemRecords == MAX_ITEM_RECORDS { item := ItemRow("", "working", Unknown); }
      Longer(rows, [item]);
      var sent := Send([item]);
      if !sent { return Err(WriteFailed); }
      lastItem, itemRecords := Some(item), itemRecords + 1;
      return Ok(true);
    }

    method Finish(op: Operation, detail: string) returns (r: Result<bool, StreamError>)
      modifies this
      ensures Leaves(old(Contents()), old(faulted), old(writes), FinishTo(old(Contents()), op, detail), r, Contents(),
                     faulted, writes)
    {
      if closed || faulted { return Err(NotWritable); }
      if !OperationEncodable(op) || Topic(op.id, op.action, op.startedAt) != topic || !IsTerminal(op.state)
         || op.state !in Transitions(state) {
        return Err(BadTerminal);
      }
      if !IsDetail(detail) { return Err(BadDetail); }
      var bundle: seq<Row> := [];
      if op.errorCode.Some? { bundle := bundle + [ErrorRow(op.errorCode.value, op.detail)]; }
      bundle := bundle + [OperationRow(op.state, Progress(Unknown, false, detail)),
                          AuditRow(op.state, op.finishedAt.value, detail), CompleteRow];
      assert bundle == TerminalRows(op, detail);
      var sent := Send(bundle);
      if !sent { return Err(WriteFailed); }
      state, closed := op.state, true;
      return Ok(true);
    }
  }

  lemma Longer(rows: seq<Row>, more: seq<Row>)
    requires more != []
    ensures rows + more != rows
  {
    assert |rows + more| > |rows|;
  }
}
