/** The textual forms of the journal's control records, and their decoders. */
module Codecs {
  import opened Results
  import opened Lifecycle
  import opened Text
  import opened Fields
  import opened Frames
  import opened Records

  // ---- vocabularies ----

  function ActionText(a: Action): string {
    match a
    case UpdatesRefresh => "updates-refresh" case UpdatesInstallAll => "updates-install-all"
    case TimezoneSet => "timezone-set" case NtpSet => "ntp-set" case LocaleSet => "locale-set"
    case AccountsOpen => "accounts-open" case PasswordOpen => "password-open"
    case PrintersOpen => "printers-open" case SourcesOpen => "sources-open"
  }

  function ParseAction(s: string): Option<Action> {
    if s == "updates-refresh" then Some(UpdatesRefresh) else if s == "updates-install-all" then Some(UpdatesInstallAll)
    else if s == "timezone-set" then Some(TimezoneSet) else if s == "ntp-set" then Some(NtpSet)
    else if s == "locale-set" then Some(LocaleSet) else if s == "accounts-open" then Some(AccountsOpen)
    else if s == "password-open" then Some(PasswordOpen) else if s == "printers-open" then Some(PrintersOpen)
    else if s == "sources-open" then Some(SourcesOpen) else None
  }

  function KindText(k: Kind): string {
    match k
    case Refresh => "refresh" case Update => "update" case Timezone => "timezone" case Ntp => "ntp"
    case Locale => "locale" case Delegate => "delegate"
  }

  function ParseKind(s: string): Option<Kind> {
    if s == "refresh" then Some(Refresh) else if s == "update" then Some(Update)
    else if s == "timezone" then Some(Timezone) else if s == "ntp" then Some(Ntp)
    else if s == "locale" then Some(Locale) else if s == "delegate" then Some(Delegate) else None
  }

  function StateText(st: State): string {
    match st
    case Pending => "pending" case Authorizing => "authorizing" case Running => "running"
    case CancelRequested => "cancel-requested" case PermissionDenied => "permission-denied"
    case Canceled => "canceled" case Failed => "failed" case Interrupted => "interrupted" case Succeeded => "succeeded"
  }

  function ParseState(s: string): Option<State> {
    if s == "pending" then Some(Pending) else if s == "authorizing" then Some(Authorizing)
    else if s == "running" then Some(Running) else if s == "cancel-requested" then Some(CancelRequested)
    else if s == "permission-denied" then Some(PermissionDenied) else if s == "canceled" then Some(Canceled)
    else if s == "failed" then Some(Failed) else if s == "interrupted" then Some(Interrupted)
    else if s == "succeeded" then Some(Succeeded) else None
  }

  function ErrorText(e: ErrorCode): string {
    match e
    case NetworkError => "network" case RepositoryError => "repository" case ConflictError => "conflict"
    case SignatureError => "signature" case PackageError => "package" case UnsupportedError => "unsupported"
    case MalformedError => "malformed" case MissingProviderError => "missing-provider"
    case PermissionDeniedError => "permission-denied" case CanceledError => "canceled"
    case TimeoutError => "timeout" case InterruptedError => "interrupted" case InternalError => "internal"
  }

  function ParseError(s: string): Option<ErrorCode> {
    if s == "network" then Some(NetworkError) else if s == "repository" then Some(RepositoryError)
    else if s == "conflict" then Some(ConflictError) else if s == "signature" then Some(SignatureError)
    else if s == "package" then Some(PackageError) else if s == "unsupported" then Some(UnsupportedError)
    else if s == "malformed" then Some(MalformedError) else if s == "missing-provider" then Some(MissingProviderError)
    else if s == "permission-denied" then Some(PermissionDeniedError) else if s == "canceled" then Some(CanceledError)
    else if s == "timeout" then Some(TimeoutError) else if s == "interrupted" then Some(InterruptedError)
    else if s == "internal" then Some(InternalError) else None
  }

  function SystemText(s: SystemRestart): string {
    match s
    case NoSystem => "none"
    case UnknownSystem => "unknown"
    case System => "system"
    case SecuritySystem => "security-system"
  }

  function ParseSystem(s: string): Option<SystemRestart> {
    if s == "none" then Some(NoSystem) else if s == "unknown" then Some(UnknownSystem)
    else if s == "system" then Some(System) else if s == "security-system" then Some(SecuritySystem) else None
  }

  function SessionText(s: SessionRestart): string {
    match s case NoSession => "none" case Session => "session" case SecuritySession => "security-session"
  }

  function ParseSession(s: string): Option<SessionRestart> {
    if s == "none" then Some(NoSession) else if s == "session" then Some(Session)
    else if s == "security-session" then Some(SecuritySession) else None
  }

  function YesNo(b: bool): string { if b then "yes" else "no" }

  // ---- cursor and handoff ----

  predicate PayloadOk(payload: string) { PayloadFits(payload) }

  /** f"{slot:02d}". */
  function CursorText(slot: nat): string
    requires slot < TERMINAL_COUNT
  {
    [DigitChar(slot / 10), DigitChar(slot % 10)]
  }

  /** (?:0[0-9]|[12][0-9]|3[01]) */
  function ParseCursor(s: string): Option<nat> {
    if |s| == 2 && IsDigit(s[0]) && IsDigit(s[1]) && TwoDigits(s, 0) < TERMINAL_COUNT then Some(TwoDigits(s, 0))
        else None
  }

  function DecodeCursor(payload: string): Option<nat> {
    if !PayloadOk(payload) then None else ParseCursor(payload)
  }

  function HandoffText(h: Option<Handoff>): string
    requires h.Some? ==> HandoffEncodable(h.value)
  {
    match h case None => "" case Some(r) => Join([r.operationId, CursorText(r.slot)])
  }

  /** None when the decoder raises; otherwise the decoded, possibly absent, handoff. */
  function DecodeHandoff(payload: string): Option<Option<Handoff>> {
    if !PayloadOk(payload) then None
    else if payload == "" then Some(None)
    else
      var fields := Split(payload);
      if |fields| != 2 || !IsOperationId(fields[0]) || DecodeCursor(fields[1]).None? then None
      else Some(Some(Handoff(fields[0], DecodeCursor(fields[1]).value)))
  }

  // ---- restart ----

  function RestartFields(r: Restart): seq<string> {
    [r.bootId, if r.lastApplied.Some? then r.lastApplied.value else "-", SystemText(r.system), SessionText(r.session),
     Decimal(r.sessionCutoff), YesNo(r.application), Decimal(r.applicationCutoff)]
  }

  function RestartText(r: Restart): string { Join(RestartFields(r)) }

  function DecodeRestart(payload: string): Option<Restart> {
    if !PayloadOk(payload) then None
    else
      var f := Split(payload);
      if |f| != 7 || !IsBootId(f[0]) || (f[1] != "-" && !IsOperationId(f[1])) || ParseSystem(f[2]).None?
         || ParseSession(f[3]).None? || (f[5] != "yes" && f[5] != "no")
         || ParseUint64(f[4]).None? || ParseUint64(f[6]).None? then None
      else Some(Restart(f[0], if f[1] == "-" then None else Some(f[1]), ParseSystem(f[2]).value,
                        ParseSession(f[3]).value,
                        ParseUint64(f[4]).value, f[5] == "yes", ParseUint64(f[6]).value))
  }

  // ---- operation ----

  function OrDash(s: Option<string>): string { if s.Some? then s.value else "-" }

  function MonotonicText(op: Operation): string {
    if IsNative(op.kind) then "-"
    else if op.terminalMonotonic.Some? then Decimal(op.terminalMonotonic.value) else "pending"
  }

  function OperationFields(op: Operation): seq<string>
    requires op.slot < TERMINAL_COUNT
  {
    [op.id, ActionText(op.action), op.startedAt, if op.finishedAt.Some? then op.finishedAt.value else "pending",
     KindText(op.kind), StateText(op.state), if op.errorCode.Some? then ErrorText(op.errorCode.value) else "-",
     op.detail,
     OrDash(op.generation), OrDash(op.transactionPath),
     if op.system.Some? then SystemText(op.system.value) else "-",
     if op.session.Some? then SessionText(op.session.value) else "-",
     if op.application.Some? then YesNo(op.application.value) else "-",
     OrDash(op.bootId), MonotonicText(op), CursorText(op.slot)]
  }

  function OperationText(op: Operation): string
    requires op.slot < TERMINAL_COUNT
  { Join(OperationFields(op)) }

  function DashOr(s: string): Option<string> { if s == "-" then None else Some(s) }

  /** An optional vocabulary word: None when neither a dash nor a word of it. */
  function DashOrSystem(s: string): Option<Option<SystemRestart>> {
    if s == "-" then Some(None) else if ParseSystem(s).Some? then Some(ParseSystem(s)) else None
  }

  function DashOrSession(s: string): Option<Option<SessionRestart>> {
    if s == "-" then Some(None) else if ParseSession(s).Some? then Some(ParseSession(s)) else None
  }

  function DashOrError(s: string): Option<Option<ErrorCode>> {
    if s == "-" then Some(None) else if ParseError(s).Some? then Some(ParseError(s)) else None
  }

  /** decode_journal_operation: parse, then require that the record re-encodes to the same payload.
      A word outside its vocabulary fails in that re-encoding. */
  function DecodeOperation(payload: string): Option<Operation> {
    if !PayloadOk(payload) then None
    else
      var f := Split(payload);
      if |f| != 16 then None
      else
        var action, kind, state := ParseAction(f[1]), ParseKind(f[4]), ParseState(f[5]);
        var error, system, session := DashOrError(f[6]), DashOrSystem(f[10]), DashOrSession(f[11]);
        var slot := DecodeCursor(f[15]);
        if action.None? || kind.None? || state.None? || error.None? || system.None? || session.None?
            || slot.None? then None
        else
          var timed := !IsNative(kind.value) && IsTerminal(state.value);
          if timed && ParseUint64(f[14]).None? then None
          else
            var op := Operation(f[0], action.value, f[2], if f[3] == "pending" then None
                                else Some(f[3]), kind.value, state.value,
                                error.value, f[7], DashOr(f[8]), DashOr(f[9]), system.value, session.value,
                                if f[12] == "-" then None else Some(f[12] == "yes"), DashOr(f[13]),
                                if timed then ParseUint64(f[14]) else None, slot.value);
            if OperationEncodable(op) && OperationText(op) == payload then Some(op) else None
  }

  // ---- the vocabularies are exact ----

  lemma ActionExact(s: string, a: Action)
    ensures ParseAction(s) == Some(a) <==> s == ActionText(a)
  {}

  lemma KindExact(s: string, k: Kind)
    ensures ParseKind(s) == Some(k) <==> s == KindText(k)
  {}

  lemma StateExact(s: string, st: State)
    ensures ParseState(s) == Some(st) <==> s == StateText(st)
  {}

  lemma ErrorExact(s: string, e: ErrorCode)
    ensures ParseError(s) == Some(e) <==> s == ErrorText(e)
  {}

  lemma SystemExact(s: string, r: SystemRestart)
    ensures ParseSystem(s) == Some(r) <==> s == SystemText(r)
  {}

  lemma SessionExact(s: string, r: SessionRestart)
    ensures ParseSession(s) == Some(r) <==> s == SessionText(r)
  {}

  // ---- the fields of each record ----

  /** A field of at most 100 characters, so of at most 400 bytes. */
  predicate Short(s: string) { IsField(s) && |s| <= 100 }

  lemma HexIsField(s: string, from: nat)
    requires from <= |s| && IsField(s[..from]) && forall i :: from <= i < |s| ==> IsHex(s[i]) || s[i] == '-'
    ensures IsField(s)
  {
    forall c | c in s
      ensures c !in "\t\r\n\0"
    {
      var i :| 0 <= i < |s| && s[i] == c;
      if i < from { assert s[..from][i] == c; }
    }
  }

  lemma IdsAreShort(s: string)
    ensures IsOperationId(s) ==> Short(s)
    ensures IsBootId(s) || IsGeneration(s) ==> Short(s)
  {
    if IsOperationId(s) {
      assert s[..3] == "op-";
      HexIsField(s, 3);
    }
    if IsBootId(s) || IsGeneration(s) {
      assert s[..0] == "";
      HexIsField(s, 0);
    }
  }

  lemma WordsAreField(s: string)
    requires forall i :: 0 <= i < |s| ==> IsWord(s[i]) || s[i] in "/-:TZ"
    ensures IsField(s)
  {}

  lemma PathsAreShort(s: string)
    requires IsPackageKitPath(s)
    ensures Short(s)
  {
    WordsAreField(s);
  }

  lemma TimestampsAreShort(s: string)
    requires IsTimestamp(s)
    ensures Short(s) && s != "pending"
  {
    WordsAreField(s);
  }

  lemma DecimalsAreShort(n: nat)
    requires IsUint64(n)
    ensures Short(Decimal(n))
  {
    DecimalDigits(n);
    WordsAreField(Decimal(n));
  }

  /** Every character is past the blank. */
  predicate Visible(s: string) { |s| <= 100 && forall i :: 0 <= i < |s| ==> s[i] > ' ' }

  lemma VisibleIsShort(s: string)
    requires Visible(s)
    ensures Short(s)
  {}

  lemma ActionVisible(a: Action)
    ensures Visible(ActionText(a))
  {}

  lemma KindVisible(k: Kind)
    ensures Visible(KindText(k))
  {}

  lemma StateVisible(st: State)
    ensures Visible(StateText(st))
  {}

  lemma ErrorVisible(e: ErrorCode)
    ensures Visible(ErrorText(e))
  {}

  lemma RestartWordsVisible(y: SystemRestart, n: SessionRestart, b: bool)
    ensures Visible(SystemText(y)) && Visible(SessionText(n)) && Visible(YesNo(b))
    ensures Visible("-") && Visible("pending")
  {}

  lemma RestartWordsAreShort(y: SystemRestart, n: SessionRestart, b: bool)
    ensures Short(SystemText(y)) && Short(SessionText(n)) && Short(YesNo(b))
    ensures Short("-") && Short("pending")
  {
    RestartWordsVisible(y, n, b);
    VisibleIsShort(SystemText(y));
    VisibleIsShort(SessionText(n));
    VisibleIsShort(YesNo(b));
    VisibleIsShort("-");
    VisibleIsShort("pending");
  }

  lemma WordsAreShort(a: Action, k: Kind, st: State)
    ensures Short(ActionText(a)) && Short(KindText(k)) && Short(StateText(st))
  {
    ActionVisible(a);
    KindVisible(k);
    StateVisible(st);
    VisibleIsShort(ActionText(a));
    VisibleIsShort(KindText(k));
    VisibleIsShort(StateText(st));
  }

  lemma CursorTextExact(slot: nat)
    requires slot < TERMINAL_COUNT
    ensures Short(CursorText(slot)) && ParseCursor(CursorText(slot)) == Some(slot)
  {}

  lemma CursorCanonical(s: string)
    requires ParseCursor(s).Some?
    ensures ParseCursor(s).value < TERMINAL_COUNT && CursorText(ParseCursor(s).value) == s
  {}

  /** Joined fields, all short but for one bounded detail, are a payload that splits back. */
  lemma JoinedPayload(fields: seq<string>, detail: int)
    requires 0 < |fields| <= 16
    requires forall i :: 0 <= i < |fields| ==> IsField(fields[i]) && if i == detail then IsDetail(fields[i])
             else Short(fields[i])
    ensures Split(Join(fields)) == fields && PayloadOk(Join(fields))
  {
    SplitJoin(fields);
    JoinIsLine(fields);
    JoinBytes(fields, detail, MAX_TEXT_BYTES);
  }

  lemma ShortPayload(s: string)
    requires Short(s)
    ensures PayloadOk(s)
  {}

  // ---- cursor ----

  lemma CursorRoundTrip(slot: nat)
    requires slot < TERMINAL_COUNT
    ensures DecodeCursor(CursorText(slot)) == Some(slot)
  {
    CursorTextExact(slot);
    ShortPayload(CursorText(slot));
  }

  // ---- handoff ----

  lemma HandoffRoundTrip(h: Option<Handoff>)
    requires h.Some? ==> HandoffEncodable(h.value)
    ensures DecodeHandoff(HandoffText(h)) == Some(h)
  {
    if h.Some? {
      var fields := [h.value.operationId, CursorText(h.value.slot)];
      IdsAreShort(h.value.operationId);
      CursorTextExact(h.value.slot);
      CursorRoundTrip(h.value.slot);
      JoinedPayload(fields, -1);
      assert Join(fields) != "";
    }
  }

  lemma HandoffCanonical(payload: string)
    requires DecodeHandoff(payload).Some?
    ensures var h := DecodeHandoff(payload).value;
      (h.Some? ==> HandoffEncodable(h.value)) && HandoffText(h) == payload
  {
    if payload != "" {
      var fields := Split(payload);
      JoinSplit(payload);
      CursorCanonical(fields[1]);
      assert fields == [fields[0], fields[1]];
    }
  }

  // ---- restart ----

  lemma RestartFieldsShort(r: Restart)
    requires RestartEncodable(r)
    ensures forall i :: 0 <= i < 7 ==> Short(RestartFields(r)[i])
  {
    assert RestartFieldSound(r, 0) && RestartFieldSound(r, 1);
    IdsAreShort(r.bootId);
    if r.lastApplied.Some? { IdsAreShort(r.lastApplied.value); }
    RestartWordsAreShort(r.system, r.session, r.application);
    DecimalsAreShort(r.sessionCutoff);
    DecimalsAreShort(r.applicationCutoff);
  }

  lemma RestartFieldsExact(r: Restart)
    requires IsUint64(r.sessionCutoff) && IsUint64(r.applicationCutoff)
    ensures var f := RestartFields(r);
      && ParseSystem(f[2]) == Some(r.system) && ParseSession(f[3]) == Some(r.session)
      && ParseUint64(f[4]) == Some(r.sessionCutoff) && ParseUint64(f[6]) == Some(r.applicationCutoff)
  {
    SystemExact(SystemText(r.system), r.system);
    SessionExact(SessionText(r.session), r.session);
    ParseUint64Exact(Decimal(r.sessionCutoff), r.sessionCutoff);
    ParseUint64Exact(Decimal(r.applicationCutoff), r.applicationCutoff);
  }

  lemma RestartPayload(r: Restart)
    requires RestartEncodable(r)
    ensures Split(RestartText(r)) == RestartFields(r) && PayloadOk(RestartText(r))
  {
    RestartFieldsShort(r);
    JoinedPayload(RestartFields(r), -1);
  }

  lemma RestartRoundTrip(r: Restart)
    requires RestartEncodable(r)
    ensures DecodeRestart(RestartText(r)) == Some(r)
  {
    RestartPayload(r);
    RestartFieldsExact(r);
    assert RestartFieldSound(r, 0) && RestartFieldSound(r, 1);
  }

  lemma RestartCanonical(payload: string)
    requires DecodeRestart(payload).Some?
    ensures RestartEncodable(DecodeRestart(payload).value) && RestartText(DecodeRestart(payload).value) == payload
  {
    var f, r := Split(payload), DecodeRestart(payload).value;
    JoinSplit(payload);
    SystemExact(f[2], r.system);
    SessionExact(f[3], r.session);
    ParseUint64Exact(f[4], r.sessionCutoff);
    ParseUint64Exact(f[6], r.applicationCutoff);
    assert f == RestartFields(r);
  }

  // ---- operation ----

  lemma OptionsAreShort(op: Operation)
    requires OperationEncodable(op)
    ensures Short(OrDash(op.generation)) && Short(OrDash(op.transactionPath)) && Short(OrDash(op.bootId))
    ensures Short(MonotonicText(op))
    ensures op.finishedAt.Some? ==> Short(op.finishedAt.value)
  {
    RestartWordsAreShort(NoSystem, NoSession, false);
    assert FieldSound(op, 2) && FieldSound(op, 4) && FieldSound(op, 5) && FieldSound(op, 6);
    if op.generation.Some? { IdsAreShort(op.generation.value); }
    if op.transactionPath.Some? { PathsAreShort(op.transactionPath.value); }
    if op.bootId.Some? { IdsAreShort(op.bootId.value); }
    if op.finishedAt.Some? { TimestampsAreShort(op.finishedAt.value); }
    if op.terminalMonotonic.Some? { DecimalsAreShort(op.terminalMonotonic.value); }
  }

  lemma ErrorIsShort(e: Option<ErrorCode>)
    ensures Short(if e.Some? then ErrorText(e.value) else "-")
  {
    RestartWordsAreShort(NoSystem, NoSession, false);
    if e.Some? {
      ErrorVisible(e.value);
      VisibleIsShort(ErrorText(e.value));
    }
  }

  lemma ContributionIsShort(op: Operation)
    ensures Short(if op.system.Some? then SystemText(op.system.value) else "-")
    ensures Short(if op.session.Some? then SessionText(op.session.value) else "-")
    ensures Short(if op.application.Some? then YesNo(op.application.value) else "-")
  {
    RestartWordsAreShort(if op.system.Some? then op.system.value else NoSystem,
                         if op.session.Some? then op.session.value else NoSession,
                         op.application.Some? && op.application.value);
  }

  lemma IdentityFieldsShort(op: Operation)
    requires OperationEncodable(op)
    ensures Short(op.id) && Short(op.startedAt) && IsDetail(op.detail) && Short(CursorText(op.slot))
  {
    assert FieldSound(op, 0) && FieldSound(op, 1) && FieldSound(op, 3);
    IdsAreShort(op.id);
    TimestampsAreShort(op.startedAt);
    CursorTextExact(op.slot);
  }

  predicate FieldsFit(f: seq<string>) {
    |f| == 16 && IsDetail(f[7]) && forall i :: 0 <= i < 16 && i != 7 ==> Short(f[i])
  }

  lemma SixteenFields(a: string, b: string, c: string, d: string, e: string, f: string, g: string, h: string,
                      i: string, j: string, k: string, l: string, m: string, n: string, o: string, p: string)
    requires Short(a) && Short(b) && Short(c) && Short(d) && Short(e) && Short(f) && Short(g) && IsDetail(h)
    requires Short(i) && Short(j) && Short(k) && Short(l) && Short(m) && Short(n) && Short(o) && Short(p)
    ensures FieldsFit([a, b, c, d, e, f, g, h, i, j, k, l, m, n, o, p])
  {}

  lemma OperationFieldsShort(op: Operation)
    requires OperationEncodable(op)
    ensures FieldsFit(OperationFields(op))
  {
    IdentityFieldsShort(op);
    WordsAreShort(op.action, op.kind, op.state);
    ErrorIsShort(op.errorCode);
    ContributionIsShort(op);
    OptionsAreShort(op);
    RestartWordsAreShort(NoSystem, NoSession, false);
    var f := OperationFields(op);
    SixteenFields(f[0], f[1], f[2], f[3], f[4], f[5], f[6], f[7], f[8], f[9], f[10], f[11], f[12], f[13], f[14], f[15]);
    assert f == [f[0], f[1], f[2], f[3], f[4], f[5], f[6], f[7], f[8], f[9], f[10], f[11], f[12], f[13], f[14], f[15]];
  }

  lemma DashesExact(op: Operation)
    requires OperationEncodable(op)
    ensures DashOr(OrDash(op.generation)) == op.generation
    ensures DashOr(OrDash(op.transactionPath)) == op.transactionPath
    ensures DashOr(OrDash(op.bootId)) == op.bootId
    ensures op.finishedAt.Some? ==> op.finishedAt.value != "pending"
  {
    assert FieldSound(op, 2) && FieldSound(op, 4) && FieldSound(op, 5) && FieldSound(op, 6);
    if op.finishedAt.Some? { TimestampsAreShort(op.finishedAt.value); }
  }

  lemma OptionalWordsExact(e: Option<ErrorCode>, y: Option<SystemRestart>, n: Option<SessionRestart>)
    ensures DashOrError(if e.Some? then ErrorText(e.value) else "-") == Some(e)
    ensures DashOrSystem(if y.Some? then SystemText(y.value) else "-") == Some(y)
    ensures DashOrSession(if n.Some? then SessionText(n.value) else "-") == Some(n)
  {
    if e.Some? { ErrorExact(ErrorText(e.value), e.value); }
    if y.Some? { SystemExact(SystemText(y.value), y.value); }
    if n.Some? { SessionExact(SessionText(n.value), n.value); }
  }

  lemma MonotonicExact(op: Operation)
    requires OperationEncodable(op)
    ensures var timed := !IsNative(op.kind) && IsTerminal(op.state);
      && (timed ==> ParseUint64(MonotonicText(op)) == op.terminalMonotonic && op.terminalMonotonic.Some?)
      && (!timed ==> op.terminalMonotonic.None?)
  {
    if op.terminalMonotonic.Some? {
      ParseUint64Exact(Decimal(op.terminalMonotonic.value), op.terminalMonotonic.value);
    }
  }

  /** What the decoder reads back from the fields of an encodable operation: its words, ... */
  lemma WordFieldsExact(op: Operation)
    ensures ParseAction(ActionText(op.action)) == Some(op.action)
    ensures ParseKind(KindText(op.kind)) == Some(op.kind) && ParseState(StateText(op.state)) == Some(op.state)
  {
    ActionExact(ActionText(op.action), op.action);
    KindExact(KindText(op.kind), op.kind);
    StateExact(StateText(op.state), op.state);
  }

  /** ... its optional words and its slot, ... */
  lemma OptionFieldsExact(op: Operation)
    requires op.slot < TERMINAL_COUNT
    ensures var f := OperationFields(op);
      && DashOrError(f[6]) == Some(op.errorCode) && DashOrSystem(f[10]) == Some(op.system)
      && DashOrSession(f[11]) == Some(op.session) && DecodeCursor(f[15]) == Some(op.slot)
      && op.application == (if f[12] == "-" then None else Some(f[12] == "yes"))
  {
    OptionalWordsExact(op.errorCode, op.system, op.session);
    CursorRoundTrip(op.slot);
  }

  /** ... and its optional values. */
  lemma ValueFieldsExact(op: Operation)
    requires OperationEncodable(op)
    ensures var f := OperationFields(op);
      && op.finishedAt == (if f[3] == "pending" then None else Some(f[3]))
      && DashOr(f[8]) == op.generation && DashOr(f[9]) == op.transactionPath && DashOr(f[13]) == op.bootId
      && (!IsNative(op.kind) && IsTerminal(op.state) ==>
            ParseUint64(f[14]).Some? && ParseUint64(f[14]) == op.terminalMonotonic)
      && (!(!IsNative(op.kind) && IsTerminal(op.state)) ==> op.terminalMonotonic.None?)
  {
    DashesExact(op);
    MonotonicExact(op);
  }

  lemma OperationRoundTrip(op: Operation)
    requires OperationEncodable(op)
    ensures DecodeOperation(OperationText(op)) == Some(op)
  {
    OperationFieldsShort(op);
    JoinedPayload(OperationFields(op), 7);
    WordFieldsExact(op);
    OptionFieldsExact(op);
    ValueFieldsExact(op);
  }

  lemma OperationCanonical(payload: string)
    requires DecodeOperation(payload).Some?
    ensures OperationEncodable(DecodeOperation(payload).value)
            && OperationText(DecodeOperation(payload).value) == payload
  {}
}
