/** dwm's clients: each monitor links its clients twice, in tiling order through next and in focus
    order through snext, and relinks them in place. */
module ClientLists {

  // ---- lists as sequences ----

  predicate Differ<T(==)>(s: seq<T>, i: int, k: int) { 0 <= i < k < |s| ==> s[i] != s[k] }

  ghost predicate Distinct<T>(s: seq<T>) { forall i, k :: Differ(s, i, k) }

  lemma Apart<T>(s: seq<T>, i: int, k: int)
    requires Distinct(s) && 0 <= i < |s| && 0 <= k < |s| && i != k
    ensures s[i] != s[k]
  {
    assert Differ(s, if i < k then i else k, if i < k then k else i);
  }

  lemma TailDistinct<T>(s: seq<T>)
    requires Distinct(s) && s != []
    ensures Distinct(s[1..]) && s[0] !in s[1..]
  {
    forall i, k ensures Differ(s[1..], i, k) { assert Differ(s, i + 1, k + 1); }
    forall i | 0 <= i < |s[1..]| ensures s[1..][i] != s[0] { Apart(s, 0, i + 1); }
  }

  /** The sequence without its only occurrence of x. */
  function Without<T(==)>(s: seq<T>, x: T): (r: seq<T>) {
    if s == [] then [] else if s[0] == x then s[1..] else [s[0]] + Without(s[1..], x)
  }

  lemma {:induction false} WithoutAt<T>(s: seq<T>, k: nat)
    requires Distinct(s) && k < |s|
    ensures Without(s, s[k]) == s[..k] + s[k + 1..]
  {
    if k > 0 {
      TailDistinct(s);
      WithoutAt(s[1..], k - 1);
      assert s[1..][..k - 1] == s[1..k] && s[1..][k..] == s[k + 1..];
      assert s[..k] == [s[0]] + s[1..k];
    }
  }

  lemma WithoutMembers<T>(s: seq<T>, x: T, y: T)
    requires Distinct(s)
    ensures y in Without(s, x) <==> y in s && y != x
  {
    if s != [] {
      TailDistinct(s);
      if s[0] == x {
        assert s[1..] == Without(s, x);
        if y in s && y != x {
          var i :| 0 <= i < |s| && s[i] == y;
          assert s[1..][i - 1] == y;
        }
      } else {
        WithoutMembers(s[1..], x, y);
        assert s == [s[0]] + s[1..];
      }
    }
  }

  lemma CutDistinct<T>(s: seq<T>, k: nat)
    requires Distinct(s) && k < |s|
    ensures Distinct(s[..k] + s[k + 1..])
  {
    var r := s[..k] + s[k + 1..];
    forall i, m ensures Differ(r, i, m) {
      if 0 <= i < m < |r| { Apart(s, if i < k then i else i + 1, if m < k then m else m + 1); }
    }
  }

  lemma CutMultiset<T>(s: seq<T>, k: nat)
    requires k < |s|
    ensures multiset(s[..k] + s[k + 1..]) == multiset(s) - multiset{s[k]}
  {
    assert s == s[..k] + ([s[k]] + s[k + 1..]);
  }

  /** Removing one element keeps the others, once each, in their order. */
  lemma WithoutMeans<T>(s: seq<T>, x: T)
    requires Distinct(s) && x in s
    ensures Distinct(Without(s, x)) && |Without(s, x)| == |s| - 1
    ensures multiset(Without(s, x)) == multiset(s) - multiset{x}
  {
    var k :| 0 <= k < |s| && s[k] == x;
    WithoutAt(s, k);
    CutDistinct(s, k);
    CutMultiset(s, k);
  }

  function Swapped<T>(s: seq<T>, i: nat, k: nat): (r: seq<T>)
    requires i < |s| && k < |s|
  {
    s[i := s[k]][k := s[i]]
  }

  /** A swap is a permutation that is its own inverse and touches two places only. */
  lemma SwappedMeans<T>(s: seq<T>, i: nat, k: nat)
    requires i < |s| && k < |s|
    ensures multiset(Swapped(s, i, k)) == multiset(s)
    ensures Swapped(Swapped(s, i, k), i, k) == s
    ensures forall j :: 0 <= j < |s| && j != i && j != k ==> Swapped(s, i, k)[j] == s[j]
  {}

  lemma SwappedDistinct<T>(s: seq<T>, i: nat, k: nat)
    requires i < |s| && k < |s| && Distinct(s)
    ensures Distinct(Swapped(s, i, k))
    ensures forall x :: x in Swapped(s, i, k) <==> x in s
  {
    var r := Swapped(s, i, k);
    forall m, n ensures Differ(r, m, n) {
      if 0 <= m < n < |r| {
        Apart(s, if m == i then k else if m == k then i else m, if n == i then k else if n == k then i else n);
      }
    }
    forall x ensures x in r <==> x in s {
      assert r[i] == s[k] && r[k] == s[i];
      if x in s {
        var j :| 0 <= j < |s| && s[j] == x;
        assert r[if j == i then k else if j == k then i else j] == x;
      }
    }
  }

  /** Moving an element to the front keeps the elements. */
  lemma TopMembers<T>(s: seq<T>, x: T)
    requires Distinct(s) && x in s
    ensures forall y :: y in [x] + Without(s, x) <==> y in s
  {
    forall y ensures y in [x] + Without(s, x) <==> y in s { WithoutMembers(s, x, y); }
  }

  lemma WithoutLacks<T>(s: seq<T>, x: T)
    requires Distinct(s)
    ensures x !in Without(s, x) && forall y :: y in Without(s, x) ==> y in s
  {
    WithoutMembers(s, x, x);
    forall y | y in Without(s, x) ensures y in s { WithoutMembers(s, x, y); }
  }

  // ---- clients and monitors ----

  class Client {
    var next: Client?
    var snext: Client?
    var mon: Monitor?
    var tags: set<nat>
    var isFloating: bool
    /** Its class contains "chatterino", the clients attachbottom keeps last. */
    var sinks: bool

    constructor (mon: Monitor, tags: set<nat>, isFloating: bool, sinks: bool)
      ensures this.mon == mon && this.tags == tags && this.isFloating == isFloating && this.sinks == sinks
      ensures next == null && snext == null
    {
      this.mon, this.tags, this.isFloating, this.sinks := mon, tags, isFloating, sinks;
      next, snext := null, null;
    }
  }

  function Head(s: seq<Client>): Client? { if s == [] then null else s[0] }

  function After(s: seq<Client>, i: nat): Client?
    requires i < |s|
  { if i + 1 < |s| then s[i + 1] else null }

  ghost predicate NextAt(s: seq<Client>, i: int)
    reads s
  { 0 <= i < |s| ==> s[i].next == After(s, i) }

  ghost predicate SnextAt(s: seq<Client>, i: int)
    reads s
  { 0 <= i < |s| ==> s[i].snext == After(s, i) }

  /** The links from head spell this sequence. */
  ghost predicate NextChain(head: Client?, s: seq<Client>)
    reads s
  {
    head == Head(s) && Distinct(s) && forall i :: NextAt(s, i)
  }

  ghost predicate SnextChain(head: Client?, s: seq<Client>)
    reads s
  {
    head == Head(s) && Distinct(s) && forall i :: SnextAt(s, i)
  }

  class Monitor {
    var clients: Client?
    var stack: Client?
    var sel: Client?
    const num: nat
    const my: int
    /** tagset[seltags], the tags it shows, and tagset[seltags ^ 1]. */
    var shown: set<nat>
    var hidden: set<nat>
    /** pertag's curtag and prevtag: 0 for all tags, otherwise one more than a tag. */
    var curtag: nat
    var prevtag: nat
    /** The two lists. */
    ghost var order: seq<Client>
    ghost var focus: seq<Client>

    constructor (num: nat, my: int)
      ensures Valid() && order == [] && focus == [] && sel == null
      ensures this.num == num && this.my == my && shown == hidden == {0} && curtag == prevtag == 1
    {
      this.num, this.my := num, my;
      clients, stack, sel := null, null, null;
      shown, hidden, curtag, prevtag := {0}, {0}, 1, 1;
      order, focus := [], [];
    }

    ghost predicate Linked()
      reads this, order, focus
    {
      && NextChain(clients, order)
      && SnextChain(stack, focus)
    }

    /** Both lists are well linked and hold the same clients, all of this monitor. */
    ghost predicate Valid()
      reads this, order, focus
    {
      && Linked()
      && (forall c :: c in order ==> c in focus)
      && (forall c :: c in focus ==> c in order)
      && (forall c :: c in order ==> c.mon == this)
      && (sel != null ==> sel in order)
    }
  }

  /** ISVISIBLE. */
  predicate IsVisible(c: Client)
    requires c.mon != null
    reads c, c.mon
  { c.tags * c.mon.shown != {} }

  // ---- attach and detach ----

  method Attach(c: Client)
    requires c.mon != null && NextChain(c.mon.clients, c.mon.order) && c !in c.mon.order
    modifies c`next, c.mon`clients, c.mon`order
    ensures NextChain(c.mon.clients, c.mon.order) && c.mon.order == [c] + old(c.mon.order)
  {
    ghost var s := c.mon.order;
    c.next := c.mon.clients;
    c.mon.clients := c;
    c.mon.order := [c] + s;
    InsertedMeans(s, 0, c);
    assert Inserted(s, 0, c) == [c] + s;
    forall i ensures NextAt([c] + s, i) { assert old(NextAt(s, i - 1)); }
  }

  method AttachStack(c: Client)
    requires c.mon != null && SnextChain(c.mon.stack, c.mon.focus) && c !in c.mon.focus
    modifies c`snext, c.mon`stack, c.mon`focus
    ensures SnextChain(c.mon.stack, c.mon.focus) && c.mon.focus == [c] + old(c.mon.focus)
  {
    ghost var s := c.mon.focus;
    c.snext := c.mon.stack;
    c.mon.stack := c;
    c.mon.focus := [c] + s;
    InsertedMeans(s, 0, c);
    assert Inserted(s, 0, c) == [c] + s;
    forall i ensures SnextAt([c] + s, i) { assert old(SnextAt(s, i - 1)); }
  }

  /** How many clients stand above a new one: all up to the last that does not sink. */
  ghost function Above(s: seq<Client>): (n: nat)
    reads s
    ensures n <= |s|
    ensures n > 0 ==> !s[n - 1].sinks
    ensures forall i :: n <= i < |s| ==> s[i].sinks
  {
    if s == [] then 0 else if !s[|s| - 1].sinks then |s| else Above(s[..|s| - 1])
  }

  ghost function Inserted<T>(s: seq<T>, n: nat, x: T): seq<T>
    requires n <= |s|
  { s[..n] + [x] + s[n..] }

  lemma InsertedMeans<T>(s: seq<T>, n: nat, x: T)
    requires n <= |s| && Distinct(s) && x !in s
    ensures Distinct(Inserted(s, n, x)) && Without(Inserted(s, n, x), x) == s
    ensures forall y :: y in Inserted(s, n, x) <==> y in s || y == x
    ensures multiset(Inserted(s, n, x)) == multiset(s) + multiset{x}
  {
    var r := Inserted(s, n, x);
    forall i, k ensures Differ(r, i, k) {
      if 0 <= i < k < |r| && i != n && k != n { Apart(s, if i < n then i else i - 1, if k < n then k else k - 1); }
    }
    WithoutAt(r, n);
    assert s == s[..n] + s[n..] && r[..n] + r[n + 1..] == s;
  }

  /** Where attachbottom inserts: after the last client that does not sink. */
  method LastKept(m: Monitor) returns (last: Client?)
    requires NextChain(m.clients, m.order)
    ensures var n := Above(m.order); last == if n == 0 then null else m.order[n - 1]
  {
    ghost var s := m.order;
    var tc := m.clients;
    ghost var i, n := 0, 0;
    last := null;
    while tc != null
      invariant 0 <= n <= i <= |s| && tc == (if i < |s| then s[i] else null)
      invariant last == if n == 0 then null else s[n - 1]
      invariant n > 0 ==> !s[n - 1].sinks
      invariant forall k :: n <= k < i ==> s[k].sinks
      decreases |s| - i
    {
      assert NextAt(s, i);
      if !tc.sinks { last, n := tc, i + 1; }
      tc, i := tc.next, i + 1;
    }
    assert n == Above(s);
  }

  lemma InsertedAt<T>(s: seq<T>, n: nat, x: T, i: nat)
    requires n <= |s| && i <= |s|
    ensures |Inserted(s, n, x)| == |s| + 1
    ensures Inserted(s, n, x)[i] == if i < n then s[i] else if i == n then x else s[i - 1]
  {}

  /** The linking half of attachbottom. */
  method LinkAfter(c: Client, last: Client?, ghost s: seq<Client>, ghost n: nat)
    requires c.mon != null && c.mon.order == s && NextChain(c.mon.clients, s) && c !in s
    requires n <= |s| && last == if n == 0 then null else s[n - 1]
    modifies c`next, c.mon`clients, c.mon`order, s`next
    ensures c.mon.order == Inserted(s, n, c) && NextChain(c.mon.clients, c.mon.order)
  {
    ghost var r := Inserted(s, n, c);
    InsertedMeans(s, n, c);
    assert NextAt(s, n - 1);
    if last != null {
      c.next := last.next;
      last.next := c;
    } else {
      c.next := c.mon.clients;
      c.mon.clients := c;
    }
    c.mon.order := r;
    forall i
      ensures NextAt(r, i)
    {
      if 0 <= i < |r| {
        InsertedAt(s, n, c, i);
        if i < |s| { InsertedAt(s, n, c, i + 1); }
        var from := if i < n then i else i - 1;
        assert old(NextAt(s, from));
        if i != n && n > 0 && from != n - 1 { Apart(s, from, n - 1); }
      }
    }
  }

  method AttachBottom(c: Client)
    requires c.mon != null && NextChain(c.mon.clients, c.mon.order) && c !in c.mon.order
    modifies c`next, c.mon`clients, c.mon`order, c.mon.order`next
    ensures NextChain(c.mon.clients, c.mon.order)
    ensures c.mon.order == Inserted(old(c.mon.order), old(Above(c.mon.order)), c)
  {
    var last := LastKept(c.mon);
    LinkAfter(c, last, c.mon.order, Above(c.mon.order));
  }

  /** The walk of detach to a client, and the client before it. */
  method FindClient(m: Monitor, c: Client) returns (before: Client?, ghost i: nat)
    requires NextChain(m.clients, m.order) && c in m.order
    ensures i < |m.order| && m.order[i] == c && before == if i == 0 then null else m.order[i - 1]
  {
    ghost var s := m.order;
    var tc := m.clients;
    before, i := null, 0;
    while tc != null && tc != c
      invariant 0 <= i <= |s| && tc == (if i < |s| then s[i] else null)
      invariant before == if i == 0 then null else s[i - 1]
      invariant c !in s[..i]
      decreases |s| - i
    {
      assert NextAt(s, i);
      before, tc, i := tc, tc.next, i + 1;
    }
  }

  method Detach(c: Client)
    requires c.mon != null && NextChain(c.mon.clients, c.mon.order) && c in c.mon.order
    modifies c.mon`clients, c.mon`order, c.mon.order`next
    ensures NextChain(c.mon.clients, c.mon.order) && c.mon.order == Without(old(c.mon.order), c)
    ensures c.next == null
  {
    ghost var s := c.mon.order;
    var before, i := FindClient(c.mon, c);
    if before == null { c.mon.clients := c.next; } else { before.next := c.next; }
    c.next := null;
    ghost var r := s[..i] + s[i + 1..];
    c.mon.order := r;
    WithoutAt(s, i);
    CutDistinct(s, i);
    assert old(NextAt(s, i));
    forall k
      ensures NextAt(r, k)
    {
      if 0 <= k < |r| {
        var from := if k < i then k else k + 1;
        CutAt(s, i, k);
        Apart(s, from, i);
        if i > 0 && from != i - 1 { Apart(s, from, i - 1); }
        assert old(NextAt(s, from));
      }
    }
  }

  lemma CutAt<T>(s: seq<T>, i: nat, k: nat)
    requires i < |s| && k + 1 < |s|
    ensures var r := s[..i] + s[i + 1..];
      |r| == |s| - 1 && r[k] == s[if k < i then k else k + 1]
      && (k + 1 < |r| ==> r[k + 1] == s[if k + 1 < i then k + 1 else k + 2])
  {}

  /** Where the first visible client of a focus list stands; |s| when there is none. */
  ghost function FirstShownAt(s: seq<Client>, shown: set<nat>, from: nat): (i: nat)
    requires from <= |s|
    reads s
    ensures from <= i <= |s| && (i < |s| ==> s[i].tags * shown != {})
    ensures forall k :: from <= k < i ==> s[k].tags * shown == {}
    decreases |s| - from
  {
    if from == |s| || s[from].tags * shown != {} then from else FirstShownAt(s, shown, from + 1)
  }

  ghost function FirstVisible(s: seq<Client>, shown: set<nat>): Client?
    reads s
  {
    var i := FirstShownAt(s, shown, 0);
    if i < |s| then s[i] else null
  }

  method FindStacked(m: Monitor, c: Client) returns (before: Client?, ghost i: nat)
    requires SnextChain(m.stack, m.focus) && c in m.focus
    ensures i < |m.focus| && m.focus[i] == c && before == if i == 0 then null else m.focus[i - 1]
  {
    ghost var s := m.focus;
    var tc := m.stack;
    before, i := null, 0;
    while tc != null && tc != c
      invariant 0 <= i <= |s| && tc == (if i < |s| then s[i] else null)
      invariant before == if i == 0 then null else s[i - 1]
      invariant c !in s[..i]
      decreases |s| - i
    {
      assert SnextAt(s, i);
      before, tc, i := tc, tc.snext, i + 1;
    }
  }

  /** The unlinking half of detachstack. */
  method Unstack(c: Client)
    requires c.mon != null && SnextChain(c.mon.stack, c.mon.focus) && c in c.mon.focus
    modifies c.mon`stack, c.mon`focus, c.mon.focus`snext
    ensures SnextChain(c.mon.stack, c.mon.focus) && c.mon.focus == Without(old(c.mon.focus), c)
    ensures c.snext == null
  {
    ghost var s := c.mon.focus;
    var before, i := FindStacked(c.mon, c);
    if before == null { c.mon.stack := c.snext; } else { before.snext := c.snext; }
    c.snext := null;
    ghost var r := s[..i] + s[i + 1..];
    c.mon.focus := r;
    WithoutAt(s, i);
    CutDistinct(s, i);
    assert old(SnextAt(s, i));
    forall k
      ensures SnextAt(r, k)
    {
      if 0 <= k < |r| {
        var from := if k < i then k else k + 1;
        CutAt(s, i, k);
        Apart(s, from, i);
        if i > 0 && from != i - 1 { Apart(s, from, i - 1); }
        assert old(SnextAt(s, from));
      }
    }
  }

  /** The walk of detachstack and focus to the first visible client. */
  method FirstShown(m: Monitor) returns (t: Client?)
    requires SnextChain(m.stack, m.focus) && forall c :: c in m.focus ==> c.mon == m
    ensures t == FirstVisible(m.focus, m.shown)
  {
    t := m.stack;
    ghost var k := 0;
    while t != null && !IsVisible(t)
      invariant 0 <= k <= |m.focus| && t == (if k < |m.focus| then m.focus[k] else null)
      invariant FirstShownAt(m.focus, m.shown, 0) == FirstShownAt(m.focus, m.shown, k)
      decreases |m.focus| - k
    {
      assert SnextAt(m.focus, k);
      t, k := t.snext, k + 1;
    }
  }

  method DetachStack(c: Client)
    requires c.mon != null && SnextChain(c.mon.stack, c.mon.focus) && c in c.mon.focus
    requires forall x :: x in c.mon.focus ==> x.mon == c.mon
    modifies c.mon`stack, c.mon`focus, c.mon`sel, c.mon.focus`snext
    ensures SnextChain(c.mon.stack, c.mon.focus) && c.mon.focus == Without(old(c.mon.focus), c)
    ensures c.mon.sel == if old(c.mon.sel) == c then FirstVisible(c.mon.focus, c.mon.shown) else old(c.mon.sel)
    ensures c.snext == null
  {
    ghost var s := c.mon.focus;
    Unstack(c);
    if c == c.mon.sel {
      forall x | x in c.mon.focus ensures x.mon == c.mon { WithoutMembers(s, c, x); }
      var t := FirstShown(c.mon);
      c.mon.sel := t;
    }
  }
}
