/** The closed vocabularies of the operation journal: actions, kinds, lifecycle
    states, error codes and restart strengths (shared.py). */
module Lifecycle {

  datatype Action =
    | UpdatesRefresh | UpdatesInstallAll | TimezoneSet | NtpSet | LocaleSet
    | AccountsOpen | PasswordOpen | PrintersOpen | SourcesOpen

  datatype Kind = Refresh | Update | Timezone | Ntp | Locale | Delegate

  datatype State =
    | Pending | Authorizing | Running | CancelRequested
    | PermissionDenied | Canceled | Failed | Interrupted | Succeeded

  datatype ErrorCode =
    | NetworkError | RepositoryError | ConflictError | SignatureError | PackageError
    | UnsupportedError | MalformedError | MissingProviderError | PermissionDeniedError
    | CanceledError | TimeoutError | InterruptedError | InternalError

  datatype SystemRestart = NoSystem | UnknownSystem | System | SecuritySystem

  datatype SessionRestart = NoSession | Session | SecuritySession

  function KindOf(action: Action): Kind {
    match action
    case UpdatesRefresh => Refresh
    case UpdatesInstallAll => Update
    case TimezoneSet => Timezone
    case NtpSet => Ntp
    case LocaleSet => Locale
    case _ => Delegate
  }

  /** PackageKit runs refreshes and updates; every other kind has a native owner. */
  predicate IsNative(kind: Kind) { kind != Refresh && kind != Update }

  predicate IsTerminal(state: State) {
    state in {PermissionDenied, Canceled, Failed, Interrupted, Succeeded}
  }

  function SystemStrength(s: SystemRestart): nat {
    match s case NoSystem => 0 case UnknownSystem => 1 case System => 2 case SecuritySystem => 3
  }

  function SessionStrength(s: SessionRestart): nat {
    match s case NoSession => 0 case Session => 1 case SecuritySession => 2
  }

  /** Python's max with a strength key: the first argument wins a tie. */
  function StrongerSystem(a: SystemRestart, b: SystemRestart): SystemRestart {
    if SystemStrength(b) > SystemStrength(a) then b else a
  }

  function StrongerSession(a: SessionRestart, b: SessionRestart): SessionRestart {
    if SessionStrength(b) > SessionStrength(a) then b else a
  }

  /** JOURNAL_TRANSITIONS, the states one lifecycle step may reach. */
  function Transitions(state: State): set<State> {
    match state
    case Pending => {Authorizing, Running, Canceled, Failed, Interrupted}
    case Authorizing => {Running, PermissionDenied, Canceled, Failed, Interrupted}
    case Running => {Running, CancelRequested, Succeeded, Failed, Interrupted}
    case CancelRequested => {CancelRequested, Canceled, Succeeded, Failed, Interrupted}
    case _ => {}
  }
}
