/** The control records of the journal and the conditions under which the
    source's encoders accept them. */
module Records {
  import opened Results
  import opened Lifecycle
  import opened Text

  const TERMINAL_COUNT := 32

  datatype Handoff = Handoff(operationId: string, slot: nat)

  datatype Restart = Restart(
    bootId: string,
    lastApplied: Option<string>,
    system: SystemRestart,
    session: SessionRestart,
    sessionCutoff: nat,
    application: bool,
    applicationCutoff: nat)

  datatype Operation = Operation(
    id: string,
    action: Action,
    startedAt: string,
    finishedAt: Option<string>,
    kind: Kind,
    state: State,
    errorCode: Option<ErrorCode>,
    detail: string,
    generation: Option<string>,
    transactionPath: Option<string>,
    system: Option<SystemRestart>,
    session: Option<SessionRestart>,
    application: Option<bool>,
    bootId: Option<string>,
    terminalMonotonic: Option<nat>,
    slot: nat)

  predicate IsUint64(n: nat) { n <= SEQUENCE_MAX }

  predicate HandoffEncodable(h: Handoff) {
    IsOperationId(h.operationId) && h.slot < TERMINAL_COUNT
  }

  /** The textual fields of a restart record, by position. */
  predicate RestartFieldSound(r: Restart, field: nat) {
    match field
    case 0 => IsBootId(r.bootId)
    case 1 => r.lastApplied.Some? ==> IsOperationId(r.lastApplied.value)
    case _ => true
  }

  predicate RestartEncodable(r: Restart) {
    && (forall field :: 0 <= field < 2 ==> RestartFieldSound(r, field))
    && IsUint64(r.sessionCutoff)
    && IsUint64(r.applicationCutoff)
  }

  /** The textual fields of an operation, by position. */
  predicate FieldSound(op: Operation, field: nat) {
    match field
    case 0 => IsOperationId(op.id)
    case 1 => IsTimestamp(op.startedAt)
    case 2 => op.finishedAt.Some? ==> IsTimestamp(op.finishedAt.value)
    case 3 => IsDetail(op.detail)
    case 4 => op.generation.Some? ==> IsGeneration(op.generation.value)
    case 5 => op.transactionPath.Some? ==> IsPackageKitPath(op.transactionPath.value)
    case 6 => op.bootId.Some? ==> IsBootId(op.bootId.value)
    case _ => true
  }

  /** Which typed fields each kind carries. */
  predicate TypedFields(op: Operation) {
    match op.kind
    case Update =>
      op.generation.Some? && op.transactionPath.Some? && op.system.Some? && op.session.Some? && op.application.Some?
      && op.bootId.Some?
    case Refresh =>
      op.generation.None? && op.system.None? && op.session.None? && op.application.None? && op.bootId.None?
      && op.transactionPath.Some?
    case _ =>
      op.generation.None? && op.transactionPath.None? && op.system.None? && op.session.None?
      && op.application.None? && op.bootId.None? && op.terminalMonotonic.None?
  }

  /** The fields agree with the action, kind and state. */
  predicate Shaped(op: Operation) {
    && op.kind == KindOf(op.action)
    && op.finishedAt.Some? == IsTerminal(op.state)
    && (!IsTerminal(op.state) || op.state == Succeeded ==> op.errorCode.None?)
    && (op.state == Failed ==> op.errorCode.Some?)
    && TypedFields(op)
    && (!IsNative(op.kind) ==> op.terminalMonotonic.Some? == IsTerminal(op.state))
    && (op.terminalMonotonic.Some? ==> IsUint64(op.terminalMonotonic.value))
    && op.slot < TERMINAL_COUNT
  }

  /** _journal_operation_fields accepts exactly these records. */
  predicate OperationEncodable(op: Operation) {
    Shaped(op) && forall field :: 0 <= field < 7 ==> FieldSound(op, field)
  }

  predicate AllClear(r: Restart) {
    && r.lastApplied.None?
    && r.system == NoSystem
    && r.session == NoSession && r.sessionCutoff == 0
    && !r.application && r.applicationCutoff == 0
  }

  function ClearRestart(bootId: string): Restart {
    Restart(bootId, None, NoSystem, NoSession, 0, false, 0)
  }

  /** An update whose terminal result belongs to the given boot. */
  predicate IsUpdateOf(op: Operation, bootId: string) {
    op.kind == Update && op.bootId == Some(bootId)
  }
}
