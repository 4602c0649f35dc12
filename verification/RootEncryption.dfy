/** parse_root_encryption's resolution: an iterative post-order walk with an explicit stack. */
module RootEncryption {
  import opened Results
  import opened DeviceGraph

  datatype Entry = Entry(name: string, finishing: bool)

  datatype Verdict = Malformed | Encrypted | Unencrypted

  // ---- what the stack means ----

  /** The devices being visited, outermost first. */
  ghost function Path(stack: seq<Entry>): seq<string> {
    if stack == [] then []
    else
      var below, top := Path(stack[..|stack| - 1]), stack[|stack| - 1];
      if top.finishing then below + [top.name] else below
  }

  /** Every entry but the first was pushed by the innermost device being visited below it. */
  ghost predicate PushedBy(g: Graph, stack: seq<Entry>, i: int) {
    0 < i < |stack| ==>
      var path := Path(stack[..i]);
      path != [] && Rests(g, path[|path| - 1], stack[i].name)
  }

  /** A device below one being visited is resolved or waits above it in the stack. */
  ghost predicate Awaited(g: Graph, stack: seq<Entry>, resolved: set<string>, i: int, p: string) {
    0 <= i < |stack| && stack[i].finishing && Rests(g, stack[i].name, p)
    ==> p in resolved || exists k :: i < k < |stack| && stack[k].name == p
  }

  ghost predicate StackSound(g: Graph, stack: seq<Entry>, resolved: set<string>) {
    && (forall i :: 0 <= i < |stack| ==> stack[i].name in g.nodes)
    && (forall i :: PushedBy(g, stack, i))
    && (forall i, p :: Awaited(g, stack, resolved, i, p))
  }

  ghost predicate PathSound(g: Graph, stack: seq<Entry>, visiting: set<string>) {
    var path := Path(stack);
    && Descends(g, path)
    && (forall i, k :: 0 <= i < k < |path| ==> path[i] != path[k])
    && (forall n :: n in visiting <==> n in path)
  }

  /** A resolved device carries the right bits and rests only on devices resolved before it. */
  ghost predicate ResolvedAt(g: Graph, resolved: map<string, nat>, rank: map<string, nat>, n: string) {
    n in resolved ==>
      && n in rank && rank[n] < |rank| && n in g.nodes && Right(g, n, resolved[n])
      && forall p :: Rests(g, n, p) ==> p in resolved && p in rank && rank[p] < rank[n]
  }

  ghost predicate ResolvedSound(g: Graph, resolved: map<string, nat>, rank: map<string, nat>) {
    forall n :: ResolvedAt(g, resolved, rank, n)
  }

  // ---- one turn of the loop ----

  lemma PathPop(stack: seq<Entry>)
    requires stack != []
    ensures var below, top := stack[..|stack| - 1], stack[|stack| - 1];
      Path(stack) == if top.finishing then Path(below) + [top.name] else Path(below)
  {}

  lemma {:induction false} PathExtend(stack: seq<Entry>, more: seq<Entry>)
    requires forall i :: 0 <= i < |more| ==> !more[i].finishing
    ensures Path(stack + more) == Path(stack)
    decreases |more|
  {
    if more == [] {
      assert stack + more == stack;
    } else {
      var longer := stack + more;
      assert longer[..|longer| - 1] == stack + more[..|more| - 1];
      PathExtend(stack, more[..|more| - 1]);
    }
  }

  /** Popping an entry whose device is, or now becomes, resolved. */
  lemma PopKeeps(g: Graph, stack: seq<Entry>, resolved: set<string>, more: set<string>)
    requires stack != [] && StackSound(g, stack, resolved) && resolved <= more && stack[|stack| - 1].name in more
    ensures StackSound(g, stack[..|stack| - 1], more)
  {
    var below := stack[..|stack| - 1];
    forall i ensures PushedBy(g, below, i) {
      assert PushedBy(g, stack, i);
      if 0 < i < |below| { assert below[..i] == stack[..i]; }
    }
    forall i, p ensures Awaited(g, below, more, i, p) {
      assert Awaited(g, stack, resolved, i, p);
    }
  }

  /** The stack after entering its top device: the device is to be finished once those it rests on are. */
  function Entered(stack: seq<Entry>, above: seq<Entry>): seq<Entry>
    requires stack != []
  {
    stack[..|stack| - 1] + [Entry(stack[|stack| - 1].name, true)] + above
  }

  lemma EnteredPath(stack: seq<Entry>, above: seq<Entry>, k: nat)
    requires stack != [] && k <= |above| && forall i :: 0 <= i < |above| ==> !above[i].finishing
    ensures var top := |stack| - 1;
      Path(Entered(stack, above)[..top + 1 + k]) == Path(stack[..top]) + [stack[top].name]
  {
    var top := |stack| - 1;
    var entered := stack[..top] + [Entry(stack[top].name, true)];
    PathPop(entered);
    assert entered[..top] == stack[..top];
    PathExtend(entered, above[..k]);
    assert Entered(stack, above)[..top + 1 + k] == entered + above[..k];
  }

  lemma EnterPushed(g: Graph, stack: seq<Entry>, above: seq<Entry>, i: int)
    requires stack != [] && forall k :: PushedBy(g, stack, k)
    requires forall k :: 0 <= k < |above| ==> !above[k].finishing && Rests(g, stack[|stack| - 1].name, above[k].name)
    ensures PushedBy(g, Entered(stack, above), i)
  {
    var top, full := |stack| - 1, Entered(stack, above);
    assert PushedBy(g, stack, i);
    if 0 < i <= top {
      assert full[..i] == stack[..i];
    } else if top < i < |full| {
      EnteredPath(stack, above, i - top - 1);
    }
  }

  lemma EnterAwaited(g: Graph, stack: seq<Entry>, resolved: set<string>, above: seq<Entry>, i: int, p: string)
    requires stack != [] && forall k, q :: Awaited(g, stack, resolved, k, q)
    requires forall k :: 0 <= k < |above| ==> !above[k].finishing
    requires forall q :: Rests(g, stack[|stack| - 1].name, q) ==> Entry(q, false) in above
    ensures Awaited(g, Entered(stack, above), resolved, i, p)
  {
    var top, full := |stack| - 1, Entered(stack, above);
    assert Awaited(g, stack, resolved, i, p);
    if i == top && Rests(g, stack[top].name, p) {
      var k :| 0 <= k < |above| && above[k] == Entry(p, false);
      assert full[top + 1 + k].name == p;
    } else if 0 <= i < top && full[i].finishing && Rests(g, full[i].name, p) && p !in resolved {
      var k :| i < k < |stack| && stack[k].name == p;
      assert full[k].name == p;
    }
  }

  lemma EnterKeeps(g: Graph, stack: seq<Entry>, resolved: set<string>, above: seq<Entry>)
    requires Closed(g) && stack != [] && StackSound(g, stack, resolved)
    requires forall k :: 0 <= k < |above| ==> !above[k].finishing && Rests(g, stack[|stack| - 1].name, above[k].name)
    requires forall p :: Rests(g, stack[|stack| - 1].name, p) ==> Entry(p, false) in above
    ensures StackSound(g, Entered(stack, above), resolved)
  {
    var full := Entered(stack, above);
    forall i ensures PushedBy(g, full, i) { EnterPushed(g, stack, above, i); }
    forall i, p ensures Awaited(g, full, resolved, i, p) { EnterAwaited(g, stack, resolved, above, i, p); }
  }

  /** The path grows by the entered device ... */
  lemma EnterPathKeeps(g: Graph, stack: seq<Entry>, visiting: set<string>, above: seq<Entry>)
    requires stack != [] && PathSound(g, stack, visiting) && PushedBy(g, stack, |stack| - 1)
    requires !stack[|stack| - 1].finishing && stack[|stack| - 1].name in g.nodes && stack[|stack| - 1].name !in visiting
    requires forall i :: 0 <= i < |above| ==> !above[i].finishing
    requires |stack| == 1 ==> visiting == {}
    ensures PathSound(g, Entered(stack, above), visiting + {stack[|stack| - 1].name})
  {
    var full := Entered(stack, above);
    PathPop(stack);
    EnteredPath(stack, above, |above|);
    assert full[..|full|] == full;
    assert |stack| == 1 ==> stack[..0] == [];
  }

  /** ... and shrinks by the finished one. */
  lemma FinishPathKeeps(g: Graph, stack: seq<Entry>, visiting: set<string>)
    requires stack != [] && PathSound(g, stack, visiting) && stack[|stack| - 1].finishing
    ensures PathSound(g, stack[..|stack| - 1], visiting - {stack[|stack| - 1].name})
    ensures stack[|stack| - 1].name in visiting
  {
    var path, below := Path(stack), Path(stack[..|stack| - 1]);
    PathPop(stack);
    assert path[|path| - 1] == stack[|stack| - 1].name && forall i :: 0 <= i < |below| ==> path[i] == below[i];
    forall i | 0 < i < |below| ensures Rests(g, below[i - 1], below[i]) { assert Rests(g, path[i - 1], path[i]); }
    forall n ensures n in visiting - {stack[|stack| - 1].name} <==> n in below {
      if n in below {
        var k :| 0 <= k < |below| && below[k] == n;
        assert path[k] == n;
      }
    }
  }

  /** Meeting a device that is being visited closes a cycle. */
  lemma MeetingIsCycle(g: Graph, stack: seq<Entry>, visiting: set<string>)
    requires stack != [] && (forall i :: PushedBy(g, stack, i)) && PathSound(g, stack, visiting)
    requires !stack[|stack| - 1].finishing && stack[|stack| - 1].name in visiting
    ensures !Acyclic(g)
  {
    var below, name := stack[..|stack| - 1], stack[|stack| - 1].name;
    PathPop(stack);
    var path := Path(below);
    var i :| 0 <= i < |path| && path[i] == name;
    assert PushedBy(g, stack, |stack| - 1);
    var walk := path[i..];
    forall k | 0 < k < |walk| ensures Rests(g, walk[k - 1], walk[k]) { assert Rests(g, path[i + k - 1], path[i + k]); }
    assert Cycle(g, walk);
  }

  lemma {:induction false} RankFalls(g: Graph, resolved: map<string, nat>, rank: map<string, nat>, walk: seq<string>,
                                     i: nat)
    requires Descends(g, walk) && i < |walk| && ResolvedSound(g, resolved, rank) && walk[0] in resolved
             && walk[0] in rank
    ensures walk[i] in resolved && walk[i] in rank && rank[walk[i]] <= rank[walk[0]]
  {
    if i > 0 {
      RankFalls(g, resolved, rank, walk, i - 1);
      assert Rests(g, walk[i - 1], walk[i]) && ResolvedAt(g, resolved, rank, walk[i - 1]);
    }
  }

  lemma RankedIsAcyclic(g: Graph, resolved: map<string, nat>, rank: map<string, nat>)
    requires ResolvedSound(g, resolved, rank) && rank.Keys == resolved.Keys == g.nodes.Keys
    ensures Acyclic(g)
  {
    forall walk ensures !Cycle(g, walk) {
      if walk != [] && Descends(g, walk) {
        RankFalls(g, resolved, rank, walk, |walk| - 1);
        assert ResolvedAt(g, resolved, rank, walk[|walk| - 1]);
      }
    }
  }

  // ---- the walk ----

  method Listed(s: set<string>) returns (q: seq<Entry>)
    ensures forall k :: 0 <= k < |q| ==> !q[k].finishing && q[k].name in s
    ensures forall p :: p in s ==> Entry(p, false) in q
  {
    q := [];
    var rest := s;
    while rest != {}
      invariant rest <= s
      invariant forall k :: 0 <= k < |q| ==> !q[k].finishing && q[k].name in s
      invariant forall p :: p in s ==> p in rest || Entry(p, false) in q
      decreases rest
    {
      var p :| p in rest;
      q := q + [Entry(p, false)];
      rest := rest - {p};
    }
  }

  lemma UnresolvableRight(g: Graph, n: string, p: string)
    requires Closed(g) && Rests(g, n, p) && Unresolvable(g, p)
    ensures Right(g, n, 0)
  {
    UnresolvableBelow(g, n, p);
  }

  /** The bits of a device whose parents are resolved. */
  method Finish(g: Graph, n: string, resolved: map<string, nat>) returns (bits: nat)
    requires Closed(g) && n in g.nodes
    requires forall p :: Rests(g, n, p) ==> p in resolved && Right(g, p, resolved[p])
    ensures Right(g, n, bits)
  {
    if g.parents[n] == {} {
      bits := if IsDisk(g.nodes[n]) then 1 else 0;
      BottomRight(g, n);
    } else {
      bits := 0;
      var rest := g.parents[n];
      JoinStart(g);
      while rest != {}
        invariant rest <= g.parents[n]
        invariant JoinRight(g, g.parents[n] - rest, bits)
        decreases rest
      {
        var p :| p in rest;
        assert Rests(g, n, p);
        RightMeans(g, p, resolved[p]);
        if resolved[p] == 0 {
          UnresolvableRight(g, n, p);
          return 0;
        }
        JoinStep(g, g.parents[n] - rest, bits, p, resolved[p]);
        assert g.parents[n] - (rest - {p}) == g.parents[n] - rest + {p};
        bits := Join(bits, resolved[p]);
        rest := rest - {p};
      }
      assert g.parents[n] - rest == g.parents[n];
      AboveRight(g, n, bits);
    }
    if bits != 0 && IsLayer(g.nodes[n]) { bits := 2; }
  }

  lemma FinishKeeps(g: Graph, resolved: map<string, nat>, rank: map<string, nat>, n: string, bits: nat)
    requires ResolvedSound(g, resolved, rank) && rank.Keys == resolved.Keys && n in g.nodes && n !in resolved
    requires Right(g, n, bits) && forall p :: Rests(g, n, p) ==> p in resolved
    ensures ResolvedSound(g, resolved[n := bits], rank[n := |rank|])
  {
    var resolved', rank' := resolved[n := bits], rank[n := |rank|];
    assert |rank'| == |rank| + 1;
    forall m ensures ResolvedAt(g, resolved', rank', m) {
      assert ResolvedAt(g, resolved, rank, m);
      forall p | m == n && Rests(g, n, p) ensures p in rank && rank[p] < |rank| && p != n {
        assert ResolvedAt(g, resolved, rank, p);
      }
    }
  }

  /** The state of the walk. */
  datatype Walk = Walk(stack: seq<Entry>, visiting: set<string>, resolved: map<string, nat>, rank: map<string, nat>)

  /** What every turn of the loop keeps. */
  ghost predicate Walking(g: Graph, w: Walk) {
    && StackSound(g, w.stack, w.resolved.Keys)
    && PathSound(g, w.stack, w.visiting)
    && ResolvedSound(g, w.resolved, w.rank)
    && w.rank.Keys == w.resolved.Keys <= g.nodes.Keys
    && w.visiting !! w.resolved.Keys
  }

  predicate SameWalk(v: Walk, w: Walk) { v == w }

  /** Walking, stated through a quantifier so that the solver looks inside only where SameWalk(w, w) is mentioned. */
  ghost predicate Underway(g: Graph, w: Walk) {
    forall v {:trigger SameWalk(v, w)} :: SameWalk(v, w) ==> Walking(g, v)
  }

  function Top(w: Walk): Entry
    requires w.stack != []
  { w.stack[|w.stack| - 1] }

  function Below(w: Walk): seq<Entry>
    requires w.stack != []
  { w.stack[..|w.stack| - 1] }

  lemma StartWalking(g: Graph, start: string, w: Walk)
    requires Underway(g, w) && w.stack == [] && w.visiting == {} && start in g.nodes
    ensures Underway(g, w.(stack := [Entry(start, false)]))
  {
    assert SameWalk(w, w);
    var next := w.(stack := [Entry(start, false)]);
    PathPop(next.stack);
    assert next.stack[..0] == [];
    assert Walking(g, next);
  }

  lemma SkipWalking(g: Graph, w: Walk)
    requires Underway(g, w) && w.stack != [] && Top(w).name in w.resolved
    ensures Underway(g, w.(stack := Below(w)))
  {
    assert SameWalk(w, w);
    PathPop(w.stack);
    PopKeeps(g, w.stack, w.resolved.Keys, w.resolved.Keys);
    if Top(w).finishing { FinishPathKeeps(g, w.stack, w.visiting); }
    assert Walking(g, w.(stack := Below(w)));
  }

  lemma CycleWalking(g: Graph, w: Walk)
    requires Underway(g, w) && w.stack != [] && !Top(w).finishing && Top(w).name in w.visiting
    ensures !Acyclic(g)
  {
    assert SameWalk(w, w);
    MeetingIsCycle(g, w.stack, w.visiting);
  }

  lemma EnterStackWalking(g: Graph, w: Walk, above: seq<Entry>)
    requires Closed(g) && Underway(g, w) && w.stack != []
    requires forall k :: 0 <= k < |above| ==> !above[k].finishing && Rests(g, Top(w).name, above[k].name)
    requires forall p :: Rests(g, Top(w).name, p) ==> Entry(p, false) in above
    ensures StackSound(g, Entered(w.stack, above), w.resolved.Keys)
  {
    assert SameWalk(w, w);
    EnterKeeps(g, w.stack, w.resolved.Keys, above);
  }

  lemma EnterPathWalking(g: Graph, w: Walk, above: seq<Entry>)
    requires Underway(g, w) && w.stack != [] && !Top(w).finishing && Top(w).name !in w.visiting
    requires forall k :: 0 <= k < |above| ==> !above[k].finishing
    ensures PathSound(g, Entered(w.stack, above), w.visiting + {Top(w).name})
  {
    assert SameWalk(w, w);
    assert PushedBy(g, w.stack, |w.stack| - 1);
    BottomPath(g, w.stack, w.visiting);
    EnterPathKeeps(g, w.stack, w.visiting, above);
  }

  lemma Rewalk(g: Graph, w: Walk, stack: seq<Entry>, visiting: set<string>)
    requires Underway(g, w) && StackSound(g, stack, w.resolved.Keys) && PathSound(g, stack, visiting)
    requires visiting !! w.resolved.Keys
    ensures Underway(g, w.(stack := stack, visiting := visiting))
  {
    assert SameWalk(w, w);
    assert Walking(g, w.(stack := stack, visiting := visiting));
  }

  lemma VisitingUnresolved(g: Graph, w: Walk)
    requires Underway(g, w)
    ensures w.visiting !! w.resolved.Keys
  {
    assert SameWalk(w, w);
  }

  lemma EnterWalking(g: Graph, w: Walk, above: seq<Entry>)
    requires Closed(g) && Underway(g, w) && w.stack != [] && Top(w).name in g.nodes
    requires !Top(w).finishing && Top(w).name !in w.visiting && Top(w).name !in w.resolved
    requires forall k :: 0 <= k < |above| ==> !above[k].finishing && above[k].name in g.parents[Top(w).name]
    requires forall p :: p in g.parents[Top(w).name] ==> Entry(p, false) in above
    ensures Underway(g, w.(stack := Entered(w.stack, above), visiting := w.visiting + {Top(w).name}))
  {
    EnterStackWalking(g, w, above);
    EnterPathWalking(g, w, above);
    VisitingUnresolved(g, w);
    Rewalk(g, w, Entered(w.stack, above), w.visiting + {Top(w).name});
  }

  lemma BottomPath(g: Graph, stack: seq<Entry>, visiting: set<string>)
    requires stack != [] && PathSound(g, stack, visiting) && !stack[|stack| - 1].finishing
    ensures |stack| == 1 ==> visiting == {}
  {
    PathPop(stack);
    if |stack| == 1 { assert stack[..0] == [] && Path(stack) == []; }
  }

  lemma TopKnown(g: Graph, w: Walk)
    requires Underway(g, w) && w.stack != []
    ensures Top(w).name in g.nodes
  {
    assert SameWalk(w, w);
  }

  lemma ReadyToFinish(g: Graph, w: Walk)
    requires Underway(g, w) && w.stack != [] && Top(w).finishing
    ensures forall p :: Rests(g, Top(w).name, p) ==> p in w.resolved && Right(g, p, w.resolved[p])
  {
    assert SameWalk(w, w);
    forall p | Rests(g, Top(w).name, p)
      ensures p in w.resolved && Right(g, p, w.resolved[p])
    {
      assert Awaited(g, w.stack, w.resolved.Keys, |w.stack| - 1, p);
      assert ResolvedAt(g, w.resolved, w.rank, p);
    }
  }

  lemma FinishWalking(g: Graph, w: Walk, bits: nat)
    requires Underway(g, w) && w.stack != [] && Top(w).finishing && Top(w).name !in w.resolved
    requires Right(g, Top(w).name, bits)
    ensures Top(w).name in w.visiting
    ensures var name := Top(w).name;
      Underway(g, Walk(Below(w), w.visiting - {name}, w.resolved[name := bits], w.rank[name := |w.rank|]))
  {
    var name := Top(w).name;
    ReadyToFinish(g, w);
    assert SameWalk(w, w);
    FinishKeeps(g, w.resolved, w.rank, name, bits);
    PopKeeps(g, w.stack, w.resolved.Keys, w.resolved[name := bits].Keys);
    FinishPathKeeps(g, w.stack, w.visiting);
    assert Walking(g, Walk(Below(w), w.visiting - {name}, w.resolved[name := bits], w.rank[name := |w.rank|]));
  }

  lemma WalkDone(g: Graph, w: Walk)
    requires Underway(g, w) && w.stack == []
    ensures w.visiting == {}
  {
    assert SameWalk(w, w);
    forall n ensures n !in w.visiting { assert n in w.visiting <==> n in Path([]); }
  }

  lemma AllResolved(g: Graph, w: Walk)
    requires Closed(g) && Underway(g, w)
    requires forall i :: 0 <= i < |g.order| ==> g.order[i] in w.resolved
    ensures Acyclic(g) && w.resolved.Keys == g.nodes.Keys
    ensures forall n :: n in g.nodes ==> Right(g, n, w.resolved[n])
  {
    assert SameWalk(w, w);
    forall n | n in g.nodes
      ensures n in w.resolved && Right(g, n, w.resolved[n])
    {
      assert n in g.order && ResolvedAt(g, w.resolved, w.rank, n);
    }
    RankedIsAcyclic(g, w.resolved, w.rank);
  }

  lemma FreshWalk(g: Graph)
    ensures Underway(g, Walk([], {}, map[], map[]))
  {
    assert Path([]) == [];
    assert Walking(g, Walk([], {}, map[], map[]));
  }

  /** Resolve one device and all it rests on, or find a cycle. */
  method ResolveFrom(g: Graph, start: string, resolved: map<string, nat>, ghost rank: map<string, nat>)
    returns (r: Option<map<string, nat>>, ghost ranked: map<string, nat>)
    requires Closed(g) && start in g.nodes && Underway(g, Walk([], {}, resolved, rank))
    ensures r.None? ==> !Acyclic(g)
    ensures r.Some? ==> Underway(g, Walk([], {}, r.value, ranked)) && start in r.value && resolved.Keys <= r.value.Keys
  {
    var stack, visiting: set<string>, found := [Entry(start, false)], {}, resolved;
    ranked := rank;
    StartWalking(g, start, Walk([], visiting, found, ranked));
    while stack != []
      invariant Underway(g, Walk(stack, visiting, found, ranked))
      invariant resolved.Keys <= found.Keys
      invariant start in found || (stack != [] && stack[0].name == start)
      decreases |g.nodes.Keys - visiting - found.Keys|, |stack|
    {
      ghost var w := Walk(stack, visiting, found, ranked);
      var top, below := stack[|stack| - 1], stack[..|stack| - 1];
      TopKnown(g, w);
      if top.name in found {
        SkipWalking(g, w);
        stack := below;
      } else if !top.finishing {
        if top.name in visiting {
          CycleWalking(g, w);
          return None, ranked;
        }
        var above := Listed(g.parents[top.name]);
        EnterWalking(g, w, above);
        FewerUnseen(g, visiting, found.Keys, top.name);
        visiting := visiting + {top.name};
        stack := below + [Entry(top.name, true)] + above;
      } else {
        ReadyToFinish(g, w);
        var bits := Finish(g, top.name, found);
        FinishWalking(g, w, bits);
        SameUnseen(g, visiting, found, top.name, bits);
        visiting := visiting - {top.name};
        found, ranked := found[top.name := bits], ranked[top.name := |ranked|];
        stack := below;
      }
    }
    WalkDone(g, Walk(stack, visiting, found, ranked));
    r := Some(found);
  }

  /** Resolve every device, or find a cycle. */
  method Resolve(g: Graph) returns (r: Option<map<string, nat>>)
    requires Closed(g)
    ensures r.Some? <==> Acyclic(g)
    ensures r.Some? ==> r.value.Keys == g.nodes.Keys && forall n :: n in g.nodes ==> Right(g, n, r.value[n])
  {
    var resolved: map<string, nat> := map[];
    ghost var rank: map<string, nat> := map[];
    FreshWalk(g);
    var next := 0;
    while next < |g.order|
      invariant 0 <= next <= |g.order| && Underway(g, Walk([], {}, resolved, rank))
      invariant forall i :: 0 <= i < next ==> g.order[i] in resolved
    {
      assert g.order[next] in g.order;
      r, rank := ResolveFrom(g, g.order[next], resolved, rank);
      if r.None? { return; }
      resolved := r.value;
      next := next + 1;
    }
    AllResolved(g, Walk([], {}, resolved, rank));
    return Some(resolved);
  }

  lemma SameUnseen(g: Graph, visiting: set<string>, resolved: map<string, nat>, name: string, bits: nat)
    requires name in visiting
    ensures g.nodes.Keys - (visiting - {name}) - resolved[name := bits].Keys == g.nodes.Keys - visiting - resolved.Keys
  {}

  lemma FewerUnseen(g: Graph, visiting: set<string>, resolved: set<string>, name: string)
    requires name in g.nodes && name !in visiting && name !in resolved
    ensures |g.nodes.Keys - (visiting + {name}) - resolved| < |g.nodes.Keys - visiting - resolved|
  {
    var before := g.nodes.Keys - visiting - resolved;
    assert g.nodes.Keys - (visiting + {name}) - resolved == before - {name};
  }

  // ---- the verdict ----

  /** A root device with a filesystem of its own whose every way down ends on a disk. */
  ghost predicate RootSound(g: Graph, n: string) {
    n in g.nodes && g.nodes[n].fstype != None && g.nodes[n].fstype != Some("crypto_LUKS") && !Unresolvable(g, n)
  }

  ghost predicate Assessable(g: Graph, roots: set<string>) {
    Acyclic(g) && roots != {} && forall n :: n in roots ==> RootSound(g, n)
  }

  ghost predicate AllCross(g: Graph, roots: set<string>) { forall n :: n in roots ==> !HasClear(g, n) }

  ghost predicate NoneCross(g: Graph, roots: set<string>) { forall n :: n in roots ==> !HasCrossing(g, n) }

  /** Encrypted exactly when every way down from every root crosses a layer, unencrypted exactly
      when none does, and otherwise, or over a cycle or unknown backing, malformed. */
  method Classify(g: Graph, roots: set<string>) returns (v: Verdict)
    requires Closed(g) && roots <= g.nodes.Keys
    ensures v == Encrypted <==> Assessable(g, roots) && AllCross(g, roots)
    ensures v == Unencrypted <==> Assessable(g, roots) && NoneCross(g, roots)
    ensures v == Encrypted ==> forall n :: n in roots ==> HasCrossing(g, n)
    ensures v == Unencrypted ==> forall n :: n in roots ==> HasClear(g, n)
  {
    if roots == {} { return Malformed; }
    var resolved := Resolve(g);
    if resolved.None? { return Malformed; }
    var evidence, rest := 0, roots;
    JoinStart(g);
    while rest != {}
      invariant rest <= roots && JoinRight(g, roots - rest, evidence)
      invariant forall n :: n in roots - rest ==> RootSound(g, n)
      decreases rest
    {
      var n :| n in rest;
      RightMeans(g, n, resolved.value[n]);
      if resolved.value[n] == 0 || g.nodes[n].fstype == None || g.nodes[n].fstype == Some("crypto_LUKS") {
        assert !RootSound(g, n) && n in roots;
        return Malformed;
      }
      JoinStep(g, roots - rest, evidence, n, resolved.value[n]);
      assert roots - (rest - {n}) == roots - rest + {n};
      evidence, rest := Join(evidence, resolved.value[n]), rest - {n};
    }
    assert roots - rest == roots;
    v := if evidence == 1 then Unencrypted else if evidence == 2 then Encrypted else Malformed;
    JoinMeans(g, roots, evidence);
    forall n | n in roots
      ensures HasClear(g, n) || HasCrossing(g, n)
    {
      RightMeans(g, n, resolved.value[n]);
    }
  }
}
