/** Block devices and the devices below them, and what crossing an encryption layer on every
    way down to a disk means. */
module DeviceGraph {
  import opened Results

  datatype Metadata = Metadata(deviceType: string, fstype: Option<string>, mounts: set<string>)

  /** Devices in the order first seen, and the devices each rests on. */
  datatype Graph = Graph(order: seq<string>, nodes: map<string, Metadata>, parents: map<string, set<string>>)

  ghost predicate Closed(g: Graph) {
    && (forall i, k :: 0 <= i < k < |g.order| ==> g.order[i] != g.order[k])
    && (forall n :: n in g.order <==> n in g.nodes)
    && g.parents.Keys == g.nodes.Keys
    && (forall n, p :: n in g.parents && p in g.parents[n] ==> p in g.nodes)
  }

  predicate IsLayer(m: Metadata) { m.deviceType == "crypt" || m.fstype == Some("crypto_LUKS") }

  predicate IsDisk(m: Metadata) { m.deviceType == "disk" || m.deviceType == "rom" }

  predicate Rests(g: Graph, n: string, p: string) { n in g.parents && p in g.parents[n] }

  /** A walk from a device to one it rests on, to one that rests on, ... */
  predicate Descends(g: Graph, walk: seq<string>) {
    && (forall i :: 0 <= i < |walk| ==> walk[i] in g.nodes)
    && forall i :: 0 < i < |walk| ==> Rests(g, walk[i - 1], walk[i])
  }

  predicate Cycle(g: Graph, walk: seq<string>) {
    walk != [] && Descends(g, walk) && Rests(g, walk[|walk| - 1], walk[0])
  }

  ghost predicate Acyclic(g: Graph) { forall walk :: !Cycle(g, walk) }

  /** A walk from a device all the way down. */
  predicate Backing(g: Graph, n: string, walk: seq<string>) {
    walk != [] && walk[0] == n && Descends(g, walk)
    && walk[|walk| - 1] in g.parents && g.parents[walk[|walk| - 1]] == {}
  }

  predicate EndsOnDisk(g: Graph, walk: seq<string>) {
    walk != [] && walk[|walk| - 1] in g.nodes && IsDisk(g.nodes[walk[|walk| - 1]])
  }

  predicate Crosses(g: Graph, walk: seq<string>) {
    exists i :: 0 <= i < |walk| && walk[i] in g.nodes && IsLayer(g.nodes[walk[i]])
  }

  /** Some way down ends on a device that is no disk. */
  ghost predicate Unresolvable(g: Graph, n: string) { exists walk :: Backing(g, n, walk) && !EndsOnDisk(g, walk) }

  ghost predicate HasCrossing(g: Graph, n: string) { exists walk :: Backing(g, n, walk) && Crosses(g, walk) }

  ghost predicate HasClear(g: Graph, n: string) { exists walk :: Backing(g, n, walk) && !Crosses(g, walk) }

  ghost predicate RightAspect(g: Graph, n: string, bits: nat, aspect: nat) {
    match aspect
    case 0 => bits <= 3
    case 1 => bits == 0 <==> Unresolvable(g, n)
    case 2 => bits != 0 ==> (bits != 2 <==> HasClear(g, n))
    case 3 => bits != 0 ==> (bits != 1 <==> HasCrossing(g, n))
    case _ => true
  }

  /** The bits of a resolved device: 0 for unresolvable, 1 for a clear way down, 2 for a crossing one. */
  ghost predicate Right(g: Graph, n: string, bits: nat) {
    forall aspect :: 0 <= aspect < 4 ==> RightAspect(g, n, bits, aspect)
  }

  lemma RightMeans(g: Graph, n: string, bits: nat)
    requires Right(g, n, bits)
    ensures bits <= 3 && (bits == 0 <==> Unresolvable(g, n))
    ensures bits != 0 ==> (bits != 2 <==> HasClear(g, n)) && (bits != 1 <==> HasCrossing(g, n))
  {
    assert RightAspect(g, n, bits, 0) && RightAspect(g, n, bits, 1) && RightAspect(g, n, bits, 2)
        && RightAspect(g, n, bits, 3);
  }

  // ---- walks, one step at a time ----

  lemma BackingTail(g: Graph, n: string, walk: seq<string>)
    requires Closed(g) && Backing(g, n, walk) && g.parents[n] != {}
    ensures |walk| > 1 && Rests(g, n, walk[1]) && Backing(g, walk[1], walk[1..])
    ensures EndsOnDisk(g, walk) == EndsOnDisk(g, walk[1..])
    ensures Crosses(g, walk) <==> IsLayer(g.nodes[n]) || Crosses(g, walk[1..])
  {
    var tail := walk[1..];
    assert forall i :: 0 < i < |tail| ==> Rests(g, tail[i - 1], tail[i]) by {
      forall i | 0 < i < |tail| ensures Rests(g, tail[i - 1], tail[i]) { assert Rests(g, walk[i], walk[i + 1]); }
    }
    if Crosses(g, walk) && !IsLayer(g.nodes[n]) {
      var i :| 0 <= i < |walk| && walk[i] in g.nodes && IsLayer(g.nodes[walk[i]]);
      assert tail[i - 1] == walk[i];
    }
  }

  lemma BackingCons(g: Graph, n: string, p: string, walk: seq<string>)
    requires Closed(g) && Rests(g, n, p) && Backing(g, p, walk)
    ensures Backing(g, n, [n] + walk)
    ensures EndsOnDisk(g, [n] + walk) == EndsOnDisk(g, walk)
    ensures Crosses(g, [n] + walk) <==> IsLayer(g.nodes[n]) || Crosses(g, walk)
  {
    var longer := [n] + walk;
    forall i | 0 < i < |longer| ensures Rests(g, longer[i - 1], longer[i]) {
      if i > 1 { assert Rests(g, walk[i - 2], walk[i - 1]); }
    }
    if Crosses(g, walk) {
      var i :| 0 <= i < |walk| && walk[i] in g.nodes && IsLayer(g.nodes[walk[i]]);
      assert longer[i + 1] == walk[i];
    }
    if IsLayer(g.nodes[n]) { assert longer[0] == n; }
  }

  lemma BottomBacking(g: Graph, n: string, walk: seq<string>)
    requires Closed(g) && n in g.nodes && g.parents[n] == {}
    ensures Backing(g, n, walk) <==> walk == [n]
  {
    if |walk| > 1 && walk[0] == n { assert !Rests(g, walk[0], walk[1]); }
  }

  // ---- what the bits of a device are, given those of the devices it rests on ----

  /** A device that rests on nothing. */
  function BottomBits(m: Metadata): nat {
    if !IsDisk(m) then 0 else if IsLayer(m) then 2 else 1
  }

  lemma BottomRight(g: Graph, n: string)
    requires Closed(g) && n in g.nodes && g.parents[n] == {}
    ensures Right(g, n, BottomBits(g.nodes[n]))
  {
    BottomBacking(g, n, [n]);
    forall walk ensures Backing(g, n, walk) <==> walk == [n] { BottomBacking(g, n, walk); }
    assert Crosses(g, [n]) <==> IsLayer(g.nodes[n]) by { assert [n][0] == n; }
  }

  /** The union of the bits of two clear devices; bits is one of 1, 2 and 3. */
  function Join(a: nat, b: nat): nat { if a == b || b == 0 then a else if a == 0 then b else 3 }

  ghost predicate SomeClear(g: Graph, seen: set<string>) { exists p :: p in seen && HasClear(g, p) }

  ghost predicate SomeCrossing(g: Graph, seen: set<string>) { exists p :: p in seen && HasCrossing(g, p) }

  ghost predicate JoinAspect(g: Graph, seen: set<string>, bits: nat, aspect: nat) {
    match aspect
    case 0 => bits <= 3 && (bits != 0 <==> seen != {})
    case 1 => forall p :: p in seen ==> !Unresolvable(g, p)
    case 2 => bits == 1 || bits == 3 <==> SomeClear(g, seen)
    case 3 => bits == 2 || bits == 3 <==> SomeCrossing(g, seen)
    case _ => true
  }

  /** The bits found so far, over the resolvable devices in seen. */
  ghost predicate JoinRight(g: Graph, seen: set<string>, bits: nat) {
    forall aspect :: 0 <= aspect < 4 ==> JoinAspect(g, seen, bits, aspect)
  }

  lemma JoinStart(g: Graph)
    ensures JoinRight(g, {}, 0)
  {}

  lemma JoinMeans(g: Graph, seen: set<string>, bits: nat)
    requires JoinRight(g, seen, bits)
    ensures bits <= 3 && (bits != 0 <==> seen != {})
    ensures forall p :: p in seen ==> !Unresolvable(g, p)
    ensures bits == 1 || bits == 3 <==> SomeClear(g, seen)
    ensures bits == 2 || bits == 3 <==> SomeCrossing(g, seen)
  {
    assert JoinAspect(g, seen, bits, 0) && JoinAspect(g, seen, bits, 1);
    assert JoinAspect(g, seen, bits, 2) && JoinAspect(g, seen, bits, 3);
  }

  lemma JoinStep(g: Graph, seen: set<string>, bits: nat, p: string, more: nat)
    requires JoinRight(g, seen, bits) && Right(g, p, more) && more != 0
    ensures JoinRight(g, seen + {p}, Join(bits, more))
  {
    JoinMeans(g, seen, bits);
    RightMeans(g, p, more);
    assert p in seen + {p};
    if exists q :: q in seen && HasClear(g, q) {
      var q :| q in seen && HasClear(g, q);
      assert q in seen + {p};
    }
    if exists q :: q in seen && HasCrossing(g, q) {
      var q :| q in seen && HasCrossing(g, q);
      assert q in seen + {p};
    }
  }

  lemma UnresolvableBelow(g: Graph, n: string, p: string)
    requires Closed(g) && Rests(g, n, p) && Unresolvable(g, p)
    ensures Unresolvable(g, n)
  {
    var walk :| Backing(g, p, walk) && !EndsOnDisk(g, walk);
    BackingCons(g, n, p, walk);
  }

  lemma ResolvableAbove(g: Graph, n: string)
    requires Closed(g) && n in g.nodes && g.parents[n] != {}
    requires forall p :: Rests(g, n, p) ==> !Unresolvable(g, p)
    ensures !Unresolvable(g, n)
  {
    forall walk | Backing(g, n, walk) ensures EndsOnDisk(g, walk) { BackingTail(g, n, walk); }
  }

  lemma ClearAbove(g: Graph, n: string)
    requires Closed(g) && n in g.nodes && g.parents[n] != {}
    ensures HasClear(g, n) <==> !IsLayer(g.nodes[n]) && exists p :: p in g.parents[n] && HasClear(g, p)
  {
    if walk :| Backing(g, n, walk) && !Crosses(g, walk) {
      BackingTail(g, n, walk);
      assert HasClear(g, walk[1]);
    }
    if p :| p in g.parents[n] && HasClear(g, p) {
      var walk :| Backing(g, p, walk) && !Crosses(g, walk);
      BackingCons(g, n, p, walk);
    }
  }

  lemma CrossingAbove(g: Graph, n: string)
    requires Closed(g) && n in g.nodes && g.parents[n] != {}
    ensures HasCrossing(g, n) <==>
      exists p :: p in g.parents[n] && (HasCrossing(g, p) || (IsLayer(g.nodes[n]) && HasClear(g, p)))
  {
    if walk :| Backing(g, n, walk) && Crosses(g, walk) {
      BackingTail(g, n, walk);
      assert HasCrossing(g, walk[1]) || (IsLayer(g.nodes[n]) && HasClear(g, walk[1]));
    }
    if p :| p in g.parents[n] && (HasCrossing(g, p) || (IsLayer(g.nodes[n]) && HasClear(g, p))) {
      var walk :| Backing(g, p, walk) && (Crosses(g, walk) || IsLayer(g.nodes[n]));
      BackingCons(g, n, p, walk);
    }
  }

  /** A device over resolvable ones: all its ways down cross when it is a layer itself. */
  lemma AboveRight(g: Graph, n: string, bits: nat)
    requires Closed(g) && n in g.nodes && g.parents[n] != {} && JoinRight(g, g.parents[n], bits)
    ensures bits != 0 && Right(g, n, if IsLayer(g.nodes[n]) then 2 else bits)
  {
    JoinMeans(g, g.parents[n], bits);
    ResolvableAbove(g, n);
    ClearAbove(g, n);
    CrossingAbove(g, n);
  }
}
