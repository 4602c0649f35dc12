/** Runs of the journal: calls of any process, each stopped by a crash after any
    number of its commits, and reboots. */
module Runs {
  import opened Results
  import opened Lifecycle
  import opened Records
  import opened Operations
  import opened Ledger

  /** The journal, the boots seen so far, and every operation whose terminal slot was committed. */
  datatype World = World(store: Store, boot: string, boots: set<string>, log: seq<Operation>)

  datatype Call =
    | BeginCall(request: Request, draws: seq<string>)
    | AdvanceCall(expected: Operation, following: Operation, recoveryBoot: Option<string>)
    | PruneCall(sessionStarted: Option<nat>)
    | CompleteCall(bootEvidence: bool, sessionStarted: Option<nat>)
    | AcknowledgeCall(id: string)

  /** A call that survives for some of its commits, or a reboot. */
  datatype Event = CallEvent(call: Call, survived: nat) | RebootEvent(boot: string)

  function OkOr<T>(r: Result<seq<T>, Refusal>): seq<T> { if r.Ok? then r.value else [] }

  /** The commits a call would make if it were not interrupted; a refused call makes none. */
  function CommitsOf(w: World, call: Call): seq<Commit> {
    var st, j := w.store, w.store.journal;
    match call
    case BeginCall(r, draws) =>
      (match Begin(st, r, draws) case Ok(op) => [CommitActive(Some(op))] case Err(_) => [])
    case AdvanceCall(expected, following, recoveryBoot) =>
      (match Advance(j, expected, following, recoveryBoot)
       case Ok(Some(op)) => [CommitActive(Some(op))]
       case _ => [])
    case PruneCall(started) => OkOr(Prune(j, Some(w.boot), started))
    case CompleteCall(evidence, started) => OkOr(Complete(j, if evidence then Some(w.boot) else None, started))
    case AcknowledgeCall(id) => OkOr(Acknowledge(j, id))
  }

  function Committed(w: World, c: Commit): World {
    w.(store := Apply(w.store, c), log := if c.CommitTerminal? then w.log + [c.operation] else w.log)
  }

  function CommittedAll(w: World, cs: seq<Commit>): World
    decreases cs
  {
    if cs == [] then w else CommittedAll(Committed(w, cs[0]), cs[1..])
  }

  lemma {:induction false} CommittedStore(w: World, cs: seq<Commit>)
    ensures CommittedAll(w, cs).store == ApplyAll(w.store, cs)
    decreases cs
  {
    if cs != [] { CommittedStore(Committed(w, cs[0]), cs[1..]); }
  }

  lemma SingleCommit(w: World, c: Commit, k: nat)
    requires k <= 1
    ensures CommittedAll(w, [c][..k]) == if k == 0 then w else Committed(w, c)
  {
    if k == 1 {
      assert [c][..k] == [c];
      assert CommittedAll(w, [c]) == CommittedAll(Committed(w, c), []);
    }
  }

  lemma {:induction false} CommittedSnoc(w: World, cs: seq<Commit>, k: nat)
    requires k < |cs|
    ensures CommittedAll(w, cs[..k + 1]) == Committed(CommittedAll(w, cs[..k]), cs[k])
    decreases k
  {
    if k == 0 {
      assert cs[..1] == [cs[0]] && cs[..1][1..] == [] && cs[..0] == [];
    } else {
      CommittedSnoc(Committed(w, cs[0]), cs[1..], k - 1);
      assert cs[..k + 1][1..] == cs[1..][..k] && cs[..k][1..] == cs[1..][..k - 1];
    }
  }

  function Min(a: nat, b: nat): nat { if a < b then a else b }

  function Next(w: World, e: Event): World {
    match e
    case CallEvent(call, survived) =>
      var cs := CommitsOf(w, call);
      CommittedAll(w, cs[..Min(survived, |cs|)])
    case RebootEvent(boot) => w.(boot := boot, boots := w.boots + {boot})
  }

  /** What the environment promises about one event:
      boot identities never recur and are read from the running kernel, the cursor's
      slot can still be rewritten, and an update's terminal timestamp is positive and
      newer than those of the boot's completed updates. */
  ghost predicate Admissible(w: World, e: Event) {
    match e
    case RebootEvent(boot) => Text.IsBootId(boot) && boot !in w.boots
    case CallEvent(BeginCall(r, _), _) =>
      && SlotHeadroom(w.store.sequences, w.store.journal.cursor)
      && (r.bootId.Some? ==> r.bootId.value == w.boot)
    case CallEvent(AdvanceCall(_, following, _), _) =>
      IsTerminal(following.state) && IsUpdateOf(following, w.store.journal.restart.bootId)
      ==> Follows(w.log, following, w.store.journal.restart.bootId)
    case _ => true
  }

  function InitialWorld(boot: string): World { World(InitialStore(boot), boot, {boot}, []) }

  function Run(w: World, events: seq<Event>): World
    decreases events
  {
    if events == [] then w else Run(Next(w, events[0]), events[1..])
  }

  ghost predicate AdmissibleRun(w: World, events: seq<Event>)
    decreases events
  {
    events == [] || (Admissible(w, events[0]) && AdmissibleRun(Next(w, events[0]), events[1..]))
  }
}
