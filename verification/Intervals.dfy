/** Several journal calls under one directory lock, by a process that may be killed inside any of
    their commits. The lemmas hold for any book of which commits a call makes. */
module Intervals {
  import opened Operations
  import opened Runs

  /** The commits each call makes where it is called. */
  type Book = (World, Call) -> seq<Commit>

  const JOURNAL: Book := (w: World, call: Call) => CommitsOf(w, call)

  function Made(book: Book, w: World, call: Call): seq<Commit> { book(w, call) }

  /** One call, of which at most k commits reach storage. */
  function Played(book: Book, w: World, call: Call, k: nat): World {
    CommittedAll(w, Made(book, w, call)[..Min(k, |Made(book, w, call)|)])
  }

  /** The calls of an interval, the process being killed when the power runs out. */
  function IntervalBy(book: Book, w: World, calls: seq<Call>, power: nat): World
    decreases calls
  {
    if calls == [] then w
    else
      var n := |Made(book, w, calls[0])|;
      if power < n then Played(book, w, calls[0], power)
      else IntervalBy(book, Played(book, w, calls[0], n), calls[1..], power - n)
  }

  /** The process survives the interval. */
  predicate SurvivesBy(book: Book, w: World, calls: seq<Call>, power: nat)
    decreases calls
  {
    calls == [] ||
    var n := |Made(book, w, calls[0])|;
    n <= power && SurvivesBy(book, Played(book, w, calls[0], n), calls[1..], power - n)
  }

  function PlayedAll(book: Book, w: World, calls: seq<Call>): World
    decreases calls
  {
    if calls == [] then w else PlayedAll(book, Played(book, w, calls[0], |Made(book, w, calls[0])|), calls[1..])
  }

  /** A process that survives has made all its calls. */
  lemma {:induction false} SurvivorPlaysAll(book: Book, w: World, calls: seq<Call>, power: nat)
    requires SurvivesBy(book, w, calls, power)
    ensures IntervalBy(book, w, calls, power) == PlayedAll(book, w, calls)
    decreases calls
  {
    if calls != [] {
      var n := |Made(book, w, calls[0])|;
      SurvivorPlaysAll(book, Played(book, w, calls[0], n), calls[1..], power - n);
    }
  }

  /** What every call keeps, whatever part of it survives, every interval keeps. */
  lemma {:induction false} IntervalKeeps(book: Book, inv: World -> bool, w: World, calls: seq<Call>, power: nat)
    requires inv(w)
    requires forall v, c, k :: inv(v) && c in calls ==> inv(Played(book, v, c, k))
    ensures inv(IntervalBy(book, w, calls, power))
    decreases calls
  {
    if calls != [] {
      var n := |Made(book, w, calls[0])|;
      assert calls[0] in calls;
      assert inv(Played(book, w, calls[0], power)) && inv(Played(book, w, calls[0], n));
      if power >= n { IntervalKeeps(book, inv, Played(book, w, calls[0], n), calls[1..], power - n); }
    }
  }

  /** Every call of an interval is allowed where it is made. */
  ghost predicate AllowedAll(book: Book, allowed: (World, Call) -> bool, w: World, calls: seq<Call>)
    decreases calls
  {
    calls == [] ||
    (allowed(w, calls[0]) && AllowedAll(book, allowed, Played(book, w, calls[0], |Made(book, w, calls[0])|),
                                        calls[1..]))
  }

  lemma {:induction false} AllowedIntervalKeeps(book: Book, inv: World -> bool, allowed: (World, Call) -> bool,
                                                w: World,
                                                calls: seq<Call>, power: nat)
    requires inv(w) && AllowedAll(book, allowed, w, calls)
    requires forall v, c, k :: inv(v) && allowed(v, c) ==> inv(Played(book, v, c, k))
    ensures inv(IntervalBy(book, w, calls, power))
    decreases calls
  {
    if calls != [] {
      var n := |Made(book, w, calls[0])|;
      assert inv(Played(book, w, calls[0], power)) && inv(Played(book, w, calls[0], n));
      if power >= n { AllowedIntervalKeeps(book, inv, allowed, Played(book, w, calls[0], n), calls[1..], power - n); }
    }
  }

  // ---- the journal's own calls ----

  lemma PlayedIsNext(w: World, call: Call, k: nat)
    ensures Played(JOURNAL, w, call, k) == Next(w, CallEvent(call, k))
  {}

  function Interval(w: World, calls: seq<Call>, power: nat): World { IntervalBy(JOURNAL, w, calls, power) }

  predicate Survives(w: World, calls: seq<Call>, power: nat) { SurvivesBy(JOURNAL, w, calls, power) }

  function CallsOf(events: seq<Event>): seq<Call> {
    if events == [] then [] else (if events[0].CallEvent? then [events[0].call] else []) + CallsOf(events[1..])
  }

  lemma PlayedWhole(book: Book, w: World, call: Call, k: nat)
    requires |Made(book, w, call)| <= k
    ensures Played(book, w, call, |Made(book, w, call)|) == Played(book, w, call, k)
  {}

  /** Calls made in full, as the events of a run. */
  lemma {:induction false} PlayedAllIsRun(w: World, events: seq<Event>, most: nat)
    requires forall e :: e in events ==> e.CallEvent? && e.survived == most
    requires forall v, c :: |Made(JOURNAL, v, c)| <= most
    ensures PlayedAll(JOURNAL, w, CallsOf(events)) == Run(w, events)
    decreases events
  {
    if events != [] {
      var call := events[0].call;
      assert events[0] in events && events[0] == CallEvent(call, most);
      assert CallsOf(events)[0] == call && CallsOf(events)[1..] == CallsOf(events[1..]);
      PlayedWhole(JOURNAL, w, call, most);
      PlayedIsNext(w, call, most);
      PlayedAllIsRun(Next(w, events[0]), events[1..], most);
    }
  }
}
