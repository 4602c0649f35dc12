/** The operations that move clients within a monitor's list and to the top of its focus list. */
module WindowMoves {
  import opened ClientLists

  // ---- movestack ----

  /** Visible on its monitor and not floating. */
  ghost predicate Tiled(c: Client, m: Monitor)
    reads c, m
  { c.tags * m.shown != {} && !c.isFloating }

  /** The first tiled client from an index on; |s| when there is none. */
  ghost function FirstTiled(s: seq<Client>, m: Monitor, from: nat): (i: nat)
    requires from <= |s|
    reads s, m
    ensures from <= i <= |s| && (i < |s| ==> Tiled(s[i], m)) && forall k :: from <= k < i ==> !Tiled(s[k], m)
    decreases |s| - from
  {
    if from == |s| || Tiled(s[from], m) then from else FirstTiled(s, m, from + 1)
  }

  /** The last tiled client in a range; |s| when there is none. */
  ghost function LastTiled(s: seq<Client>, m: Monitor, from: nat, to: nat): (i: nat)
    requires from <= to <= |s|
    reads s, m
    ensures (from <= i < to && Tiled(s[i], m)) || i == |s|
    ensures forall k :: from <= k < to && (i == |s| || i < k) ==> !Tiled(s[k], m)
  {
    if from == to then |s| else if Tiled(s[to - 1], m) then to - 1 else LastTiled(s, m, from, to - 1)
  }

  /** The client that changes places with client k: the next tiled one, or the previous, around the
      list; |s| when there is none. */
  ghost function Target(s: seq<Client>, m: Monitor, k: nat, forward: bool): (t: nat)
    requires k < |s|
    reads s, m
    ensures t <= |s|
  {
    if forward then
      var t := FirstTiled(s, m, k + 1);
      if t < |s| then t else FirstTiled(s, m, 0)
    else
      var t := LastTiled(s, m, 0, k);
      if t < |s| then t else LastTiled(s, m, k, |s|)
  }

  /** The place d steps on from k, forward or backward around a list of n. */
  function Around(k: nat, d: nat, n: nat, forward: bool): (t: nat)
    requires k < n && d <= n
    ensures t < n
  {
    if forward then (if k + d < n then k + d else k + d - n) else if d <= k then k - d else k + n - d
  }

  ghost predicate TiledAt(s: seq<Client>, m: Monitor, k: nat, d: nat, forward: bool)
    requires k < |s| && d <= |s|
    reads s, m
  { Tiled(s[Around(k, d, |s|, forward)], m) }

  /** The target is the first tiled client met on the way around the list, client k itself the last that
      is looked at; there is none only if no client is tiled. */
  lemma TargetIsNearest(s: seq<Client>, m: Monitor, k: nat, forward: bool) returns (d: nat)
    requires k < |s|
    ensures 1 <= d <= |s| && forall e :: 1 <= e < d ==> !TiledAt(s, m, k, e, forward)
    ensures var t := Target(s, m, k, forward);
      if t < |s| then t == Around(k, d, |s|, forward) && TiledAt(s, m, k, d, forward)
      else forall i :: 0 <= i < |s| ==> !Tiled(s[i], m)
  {
    var t, n := Target(s, m, k, forward), |s|;
    d := if t == n then n else if forward then (if t > k then t - k else t + n - k)
         else if t < k then k - t else k + n - t;
  }

  ghost function Place(s: seq<Client>, c: Client): (k: nat)
    requires c in s
    ensures k < |s| && s[k] == c
  { var k :| 0 <= k < |s| && s[k] == c; k }

  ghost function At(s: seq<Client>, i: nat): Client? { if i < |s| then s[i] else null }

  method NextTiled(m: Monitor, start: Client?, ghost from: nat) returns (c: Client?)
    requires m.Valid() && from <= |m.order| && start == At(m.order, from)
    ensures c == At(m.order, FirstTiled(m.order, m, from))
  {
    ghost var i := from;
    c := start;
    while c != null && (!IsVisible(c) || c.isFloating)
      invariant from <= i <= |m.order| && c == At(m.order, i)
      invariant FirstTiled(m.order, m, from) == FirstTiled(m.order, m, i)
      decreases |m.order| - i
    {
      assert NextAt(m.order, i);
      c, i := c.next, i + 1;
    }
  }

  method PreviousTiled(m: Monitor) returns (c: Client?)
    requires m.Valid() && m.sel != null
    ensures c == At(m.order, Target(m.order, m, Place(m.order, m.sel), false))
  {
    ghost var s, k := m.order, Place(m.order, m.sel);
    var i := m.clients;
    ghost var j := 0;
    c := null;
    while i != m.sel
      invariant 0 <= j <= k && i == s[j]
      invariant c == At(s, LastTiled(s, m, 0, j))
      decreases k - j
    {
      assert NextAt(s, j);
      if IsVisible(i) && !i.isFloating { c := i; }
      i, j := i.next, j + 1;
    }
    if j != k { Apart(s, j, k); }
    if c == null {
      while i != null
        invariant k <= j <= |s| && i == At(s, j)
        invariant c == At(s, LastTiled(s, m, k, j))
        decreases |s| - j
      {
        assert NextAt(s, j);
        if IsVisible(i) && !i.isFloating { c := i; }
        i, j := i.next, j + 1;
      }
    }
  }

  /** The clients before the selected one and before c. */
  method Predecessors(m: Monitor, c: Client?, ghost t: nat) returns (p: Client?, pc: Client?)
    requires m.Valid() && m.sel != null && t <= |m.order| && c == At(m.order, t)
    ensures var k := Place(m.order, m.sel); p == if k == 0 then null else m.order[k - 1]
    ensures c != null ==> pc == if t == 0 then null else m.order[t - 1]
  {
    ghost var s, k := m.order, Place(m.order, m.sel);
    var i := m.clients;
    ghost var j := 0;
    p, pc := null, null;
    while i != null && (p == null || pc == null)
      invariant 0 <= j <= |s| && i == At(s, j)
      invariant p == if 0 < k <= j then s[k - 1] else null
      invariant c != null ==> pc == if 0 < t <= j then s[t - 1] else null
      decreases |s| - j
    {
      assert NextAt(s, j);
      if j + 1 < |s| {
        if j + 1 != k { Apart(s, j + 1, k); }
        if t < |s| && j + 1 != t { Apart(s, j + 1, t); }
      }
      if i.next == m.sel { p := i; }
      if i.next == c { pc := i; }
      i, j := i.next, j + 1;
    }
  }

  lemma AfterSwap(s: seq<Client>, k: nat, t: nat)
    requires k < |s| && t < |s| && k != t
    ensures var r := Swapped(s, k, t);
      && After(r, k) == (if k + 1 == t then s[k] else After(s, k))
      && After(r, t) == (if t + 1 == k then s[t] else After(s, t))
      && (k > 0 && k - 1 != t ==> r[k - 1] == s[k - 1] && After(r, k - 1) == s[t])
      && (t > 0 && t - 1 != k ==> r[t - 1] == s[t - 1] && After(r, t - 1) == s[k])
      && Head(r) == if k == 0 then s[t] else if t == 0 then s[k] else s[0]
  {}

  lemma AfterElsewhere(s: seq<Client>, k: nat, t: nat, i: nat)
    requires k < |s| && t < |s| && k != t && i < |s| && i != k && i != t && i + 1 != k && i + 1 != t
    ensures var r := Swapped(s, k, t); r[i] == s[i] && After(r, i) == After(s, i)
  {}

  /** Which of the clients a swap touches are the same. */
  lemma SwapApart(s: seq<Client>, k: nat, t: nat)
    requires Distinct(s) && k < |s| && t < |s| && k != t
    ensures s[k] != s[t]
    ensures After(s, k) == s[t] <==> k + 1 == t
    ensures After(s, t) == s[k] <==> t + 1 == k
    ensures k > 0 ==> s[k - 1] != s[k] && (s[k - 1] == s[t] <==> k - 1 == t) && s[0] != s[k]
    ensures t > 0 ==> s[t - 1] != s[t] && (s[t - 1] == s[k] <==> t - 1 == k) && s[0] != s[t]
    ensures k > 0 && t > 0 ==> s[k - 1] != s[t - 1]
  {
    Apart(s, k, t);
    if k + 1 < |s| && k + 1 != t { Apart(s, k + 1, t); }
    if t + 1 < |s| && t + 1 != k { Apart(s, t + 1, k); }
    if k > 0 {
      Apart(s, k - 1, k);
      Apart(s, 0, k);
      if k - 1 != t { Apart(s, k - 1, t); }
    }
    if t > 0 {
      Apart(s, t - 1, t);
      Apart(s, 0, t);
      if t - 1 != k { Apart(s, t - 1, k); }
    }
    if k > 0 && t > 0 { Apart(s, k - 1, t - 1); }
  }

  lemma ElsewhereApart(s: seq<Client>, k: nat, t: nat, i: nat)
    requires Distinct(s) && k < |s| && t < |s| && i < |s| && i != k && i != t && i + 1 != k && i + 1 != t
    ensures s[i] != s[k] && s[i] != s[t] && (k > 0 ==> s[i] != s[k - 1]) && (t > 0 ==> s[i] != s[t - 1])
  {
    Apart(s, i, k);
    Apart(s, i, t);
    if k > 0 { Apart(s, i, k - 1); }
    if t > 0 { Apart(s, i, t - 1); }
  }

  /** The relinking half of movestack. */
  method Relink(m: Monitor, c: Client, p: Client?, pc: Client?, ghost s: seq<Client>, ghost k: nat, ghost t: nat)
    requires NextChain(m.clients, s) && k < |s| && t < |s| && k != t
    requires m.sel == s[k] && c == s[t]
    requires p == (if k == 0 then null else s[k - 1]) && pc == if t == 0 then null else s[t - 1]
    modifies m`clients, s`next
    ensures NextChain(m.clients, Swapped(s, k, t))
  {
    ghost var r := Swapped(s, k, t);
    SwapApart(s, k, t);
    AfterSwap(s, k, t);
    assert NextAt(s, k) && NextAt(s, t);
    var sel := m.sel;
    var temp := if sel.next == c then sel else sel.next;
    sel.next := if c.next == sel then c else c.next;
    c.next := temp;
    if p != null && p != c { p.next := c; }
    if pc != null && pc != sel { pc.next := sel; }
    if sel == m.clients { m.clients := c; } else if c == m.clients { m.clients := sel; }
    SwappedDistinct(s, k, t);
    forall i
      ensures NextAt(r, i)
    {
      if 0 <= i < |s| && i != k && i != t && i + 1 != k && i + 1 != t {
        AfterElsewhere(s, k, t, i);
        ElsewhereApart(s, k, t, i);
        assert old(NextAt(s, i));
      }
    }
  }

  /** The client movestack exchanges with the selected one. */
  method FindTarget(m: Monitor, forward: bool) returns (c: Client?)
    requires m.Valid() && m.sel != null
    ensures c == At(m.order, Target(m.order, m, Place(m.order, m.sel), forward))
  {
    if forward {
      ghost var k := Place(m.order, m.sel);
      assert NextAt(m.order, k);
      c := NextTiled(m, m.sel.next, k + 1);
      if c == null { c := NextTiled(m, m.clients, 0); }
    } else {
      c := PreviousTiled(m);
    }
  }

  /** Two clients of a monitor change places. */
  method Exchange(m: Monitor, c: Client, p: Client?, pc: Client?, ghost k: nat, ghost t: nat)
    requires m.Valid() && k < |m.order| && t < |m.order| && k != t && m.sel == m.order[k] && c == m.order[t]
    requires p == (if k == 0 then null else m.order[k - 1]) && pc == if t == 0 then null else m.order[t - 1]
    modifies m`clients, m`order, m.order`next
    ensures m.Valid() && m.order == Swapped(old(m.order), k, t)
  {
    ghost var s := m.order;
    Relink(m, c, p, pc, s, k, t);
    m.order := Swapped(s, k, t);
    SwappedDistinct(s, k, t);
    forall i ensures SnextAt(m.focus, i) { assert old(SnextAt(m.focus, i)); }
  }

  /** movestack on a monitor with a selected client: the list keeps its clients, and exactly the
      selected one and its target change places, wherever they stand. */
  method MoveStack(m: Monitor, forward: bool)
    requires m.Valid() && m.sel != null
    modifies m`clients, m`order, m.order`next
    ensures m.Valid()
    ensures var s := old(m.order); var k := Place(s, m.sel);
            var t := old(Target(m.order, m, Place(m.order, m.sel), forward));
      m.order == if t < |s| then Swapped(s, k, t) else s
  {
    ghost var s, k := m.order, Place(m.order, m.sel);
    ghost var t := Target(s, m, k, forward);
    var c := FindTarget(m, forward);
    var p, pc := Predecessors(m, c, t);
    if c != null && c != m.sel {
      Exchange(m, c, p, pc, k, t);
    } else if c == m.sel {
      if t != k { Apart(s, t, k); }
      assert Swapped(s, k, k) == s;
    }
  }

  // ---- pop and focus ----

  /** pop: the client goes to the head of the list (focus and arrange follow). */
  method Pop(c: Client)
    requires c.mon != null && c.mon.Valid() && c in c.mon.order
    modifies c`next, c.mon`clients, c.mon`order, c.mon.order`next
    ensures c.mon.Valid() && c.mon.order == [c] + Without(old(c.mon.order), c)
  {
    TopMembers(c.mon.order, c);
    WithoutLacks(c.mon.order, c);
    Detach(c);
    Attach(c);
    forall i ensures SnextAt(c.mon.focus, i) { assert old(SnextAt(c.mon.focus, i)); }
  }

  /** The list part of focus on a visible client: it goes to the top of the focus list. */
  method Raise(c: Client)
    requires c.mon != null && c.mon.Valid() && c in c.mon.order
    modifies c`snext, c.mon`stack, c.mon`focus, c.mon`sel, c.mon.focus`snext
    ensures c.mon.Valid() && c.mon.sel == c && c.mon.focus == [c] + Without(old(c.mon.focus), c)
  {
    TopMembers(c.mon.focus, c);
    WithoutLacks(c.mon.focus, c);
    DetachStack(c);
    AttachStack(c);
    c.mon.sel := c;
    forall i ensures NextAt(c.mon.order, i) { assert old(NextAt(c.mon.order, i)); }
  }
}
