/** Moving a client from one monitor to another: sendmon. */
module MonitorMoves {
  import opened ClientLists
  import opened MonitorTags

  /** A monitor whose lists and clients' links are as they were stays valid. */
  twostate lemma StillValid(m: Monitor)
    requires old(m.Valid())
    requires m.clients == old(m.clients) && m.stack == old(m.stack) && m.sel == old(m.sel)
    requires m.order == old(m.order) && m.focus == old(m.focus)
    requires forall c :: c in m.order ==> c.next == old(c.next) && c.snext == old(c.snext) && c.mon == old(c.mon)
    ensures m.Valid()
  {
    forall i ensures NextAt(m.order, i) { assert old(NextAt(m.order, i)); }
    forall i ensures SnextAt(m.focus, i) {
      assert old(SnextAt(m.focus, i));
      if 0 <= i < |m.focus| { assert m.focus[i] in m.order; }
    }
  }

  /** The lists of the source after a client left, of a client that is on no list then. */
  method Leave(c: Client, ghost mons: seq<Monitor>)
    requires (forall m :: m in mons ==> m.Valid()) && c.mon != null && c.mon in mons && c in c.mon.order
    modifies c.mon`clients, c.mon`order, c.mon`stack, c.mon`focus, c.mon`sel, c.mon.order`next, c.mon.focus`snext
    ensures (forall m :: m in mons ==> m.Valid()) && forall m :: m in mons ==> c !in m.order
    ensures c.mon.order == Without(old(c.mon.order), c) && c.mon.focus == Without(old(c.mon.focus), c)
    ensures c.mon.sel == if old(c.mon.sel) == c then FirstVisible(c.mon.focus, c.mon.shown) else old(c.mon.sel)
  {
    ghost var src := c.mon;
    LeaveMembers(src.order, src.focus, c);
    Detach(c);
    forall i ensures SnextAt(src.focus, i) { assert old(SnextAt(src.focus, i)); }
    label Detached:
    DetachStack(c);
    forall i ensures NextAt(src.order, i) { assert old@Detached(NextAt(src.order, i)); }
    FirstVisibleMember(src.focus, src.shown);
    forall m | m in mons
      ensures m.Valid() && c !in m.order
    {
      assert old(m.Valid());
      if m != src { StillValid(m); }
    }
  }

  lemma LeaveMembers(order: seq<Client>, focus: seq<Client>, c: Client)
    requires Distinct(order) && Distinct(focus)
    requires (forall x :: x in order ==> x in focus) && (forall x :: x in focus ==> x in order)
    ensures c !in Without(order, c)
    ensures forall x :: x in Without(order, c) ==> x in Without(focus, c) && x in order
    ensures forall x :: x in Without(focus, c) ==> x in Without(order, c)
    ensures forall x :: x in order && x != c ==> x in Without(order, c)
  {
    forall x: Client ensures x in Without(order, c) <==> x in order && x != c { WithoutMembers(order, c, x); }
    forall x: Client ensures x in Without(focus, c) <==> x in focus && x != c { WithoutMembers(focus, c, x); }
    forall x | x in Without(order, c) ensures x in Without(focus, c) && x in order {
      WithoutMembers(order, c, x);
      WithoutMembers(focus, c, x);
    }
    forall x | x in Without(focus, c) ensures x in Without(order, c) {
      WithoutMembers(order, c, x);
      WithoutMembers(focus, c, x);
    }
    forall x | x in order && x != c ensures x in Without(order, c) { WithoutMembers(order, c, x); }
    WithoutMembers(order, c, c);
  }

  lemma FirstVisibleMember(s: seq<Client>, shown: set<nat>)
    ensures FirstVisible(s, shown) == null || FirstVisible(s, shown) in s
  {}

  // ---- sendmon ----

  /** The first tag of a mask, or tag 0 of an empty one. */
  function FirstTag(count: nat, mask: set<nat>, from: nat): (t: nat)
    requires from <= count
    ensures t in mask || t == 0
    ensures forall k :: from <= k < count && k in mask ==> t in mask && t <= k
    decreases count - from
  {
    if from == count then 0 else if from in mask then from else FirstTag(count, mask, from + 1)
  }

  method FindFirstTag(count: nat, mask: set<nat>) returns (t: nat)
    ensures t == FirstTag(count, mask, 0)
  {
    var i := 0;
    while i < count
      invariant 0 <= i <= count && FirstTag(count, mask, 0) == FirstTag(count, mask, i)
    {
      if i in mask { return i; }
      i := i + 1;
    }
    return 0;
  }

  /** A client that is on no list goes last but for the sinking ones, and on top of the focus list. */
  method AttachBoth(c: Client)
    requires c.mon != null && c.mon.Linked() && c !in c.mon.order && c !in c.mon.focus
    modifies c`next, c`snext, c.mon`clients, c.mon`order, c.mon`stack, c.mon`focus, c.mon.order`next
    ensures c.mon.Linked()
    ensures c.mon.order == Inserted(old(c.mon.order), old(Above(c.mon.order)), c)
    ensures c.mon.focus == [c] + old(c.mon.focus)
  {
    ghost var m := c.mon;
    AttachBottom(c);
    forall i ensures SnextAt(m.focus, i) { assert old(SnextAt(m.focus, i)); }
    label Attached:
    AttachStack(c);
    forall i ensures NextAt(m.order, i) { assert old@Attached(NextAt(m.order, i)); }
  }

  /** A client joins a monitor. */
  method Join(c: Client, owner: Monitor, tags: set<nat>, ghost mons: seq<Monitor>)
    requires forall m :: m in mons ==> m.Valid() && c !in m.order
    requires owner in mons
    modifies c`mon, c`tags, c`next, c`snext, owner`clients, owner`order, owner`stack, owner`focus, owner.order`next
    ensures forall m :: m in mons ==> m.Valid()
    ensures c.mon == owner && c.tags == tags
    ensures owner.order == Inserted(old(owner.order), old(Above(owner.order)), c)
    ensures owner.focus == [c] + old(owner.focus)
  {
    ghost var s, n := owner.order, Above(owner.order);
    c.mon, c.tags := owner, tags;
    SameAbove(s);
    InsertedMeans(s, n, c);
    forall i ensures NextAt(s, i) { assert old(NextAt(s, i)); }
    forall i ensures SnextAt(owner.focus, i) { assert old(SnextAt(owner.focus, i)); }
    AttachBoth(c);
    forall m | m in mons
      ensures m.Valid()
    {
      assert old(m.Valid());
      if m != owner { StillValid(m); }
    }
  }

  twostate lemma {:induction false} SameAbove(s: seq<Client>)
    requires forall c :: c in s ==> c.sinks == old(c.sinks)
    ensures Above(s) == old(Above(s))
  {
    if s != [] {
      assert s[|s| - 1] in s;
      SameAbove(s[..|s| - 1]);
    }
  }

  /** The tags a client keeps on a monitor: those the monitor owns, or else its first. */
  function SentTags(count: nat, tags: set<nat>, mask: set<nat>, shown: set<nat>): set<nat> {
    if tags * mask != {} then tags * mask
    else if {FirstTag(count, mask, 0)} * mask != {} then {FirstTag(count, mask, 0)}
    else if shown != {} then shown else {0}
  }

  /** The least tag of a mask, alone. */
  ghost predicate LeastAlone(tags: set<nat>, mask: set<nat>) {
    exists t :: t in mask && tags == {t} && forall k :: k in mask ==> t <= k
  }

  lemma FirstTagIsLeast(count: nat, mask: set<nat>)
    requires mask != {} && mask <= AllTags(count)
    ensures FirstTag(count, mask, 0) in mask && LeastAlone({FirstTag(count, mask, 0)}, mask)
  {
    var t :| t in mask;
    assert t in AllTags(count);
    forall k | k in mask ensures FirstTag(count, mask, 0) <= k { assert k in AllTags(count); }
  }

  /** A client sent to a monitor that owns tags keeps exactly those of its tags that the monitor owns, or
      gets the monitor's first; on a monitor that owns none it goes where the monitor looks. */
  lemma SentTagsMean(count: nat, tags: set<nat>, mask: set<nat>, shown: set<nat>)
    requires mask <= AllTags(count)
    ensures var sent := SentTags(count, tags, mask, shown);
      && (mask != {} ==> sent != {} && sent <= mask)
      && (tags * mask != {} ==> sent == tags * mask)
      && (tags * mask == {} && mask != {} ==> LeastAlone(sent, mask))
      && (mask == {} ==> sent == if shown != {} then shown else {0})
  {
    if mask != {} {
      FirstTagIsLeast(count, mask);
      assert FirstTag(count, mask, 0) in {FirstTag(count, mask, 0)} * mask;
    }
  }

  method KeptTags(count: nat, tags: set<nat>, mask: set<nat>, shown: set<nat>) returns (kept: set<nat>)
    ensures kept == SentTags(count, tags, mask, shown)
  {
    kept := tags * mask;
    if kept == {} {
      var first := FindFirstTag(count, mask);
      kept := {first};
      if kept * mask == {} { kept := if shown != {} then shown else {0}; }
    }
  }

  /** A client leaves both lists of its monitor and joins those of another; every other list is untouched. */
  method Transfer(c: Client, owner: Monitor, tags: set<nat>, ghost mons: seq<Monitor>)
    requires forall n :: n in mons ==> n.Valid()
    requires c.mon != null && c.mon in mons && c in c.mon.order && owner in mons && owner != c.mon
    modifies c`mon, c`tags, c`next, c`snext, c.mon`clients, c.mon`order, c.mon`stack, c.mon`focus, c.mon`sel,
        c.mon.order`next, c.mon.focus`snext
    modifies owner`clients, owner`order, owner`stack, owner`focus, owner.order`next
    ensures forall n :: n in mons ==> n.Valid()
    ensures c.mon == owner && c.tags == tags
    ensures old(c.mon).order == Without(old(c.mon.order), c) && old(c.mon).focus == Without(old(c.mon.focus), c)
    ensures old(c.mon).sel
      == if old(c.mon.sel) == c then FirstVisible(old(c.mon).focus, old(c.mon).shown) else old(c.mon.sel)
    ensures owner.order == Inserted(old(owner.order), old(Above(owner.order)), c)
            && owner.focus == [c] + old(owner.focus)
  {
    ghost var src := c.mon;
    Leave(c, mons);
    SameAbove(owner.order);
    assert forall x :: x in src.focus ==> x in src.order && x.mon == src;
    label Left:
    Join(c, owner, tags, mons);
    ghost var was, now := old@Left(FirstShownAt(src.focus, src.shown, 0)), FirstShownAt(src.focus, src.shown, 0);
    assert was == now;
  }

  /** sendmon, to a monitor that has this mask; a client that is there already stays as it is. */
  method SendMon(c: Client, m: Monitor, mask: set<nat>, count: nat, ghost mons: seq<Monitor>)
    requires forall n :: n in mons ==> n.Valid()
    requires c.mon != null && c.mon in mons && c in c.mon.order && m in mons
    modifies c`mon, c`tags, c`next, c`snext, c.mon`clients, c.mon`order, c.mon`stack, c.mon`focus, c.mon`sel,
        c.mon.order`next, c.mon.focus`snext
    modifies m`clients, m`order, m`stack, m`focus, m.order`next
    ensures forall n :: n in mons ==> n.Valid()
    ensures old(c.mon) == m ==>
      c.mon == m && c.tags == old(c.tags) && m.order == old(m.order) && m.focus == old(m.focus) && m.sel == old(m.sel)
    ensures old(c.mon) != m ==>
      && c.mon == m && c.tags == SentTags(count, old(c.tags), mask, m.shown)
      && old(c.mon).order == Without(old(c.mon.order), c) && old(c.mon).focus == Without(old(c.mon.focus), c)
      && old(c.mon).sel == (if old(c.mon.sel) == c then FirstVisible(old(c.mon).focus, old(c.mon).shown)
                            else old(c.mon.sel))
      && m.order == Inserted(old(m.order), old(Above(m.order)), c) && m.focus == [c] + old(m.focus)
  {
    if c.mon == m { return; }
    var tags := KeptTags(count, c.tags, mask, m.shown);
    Transfer(c, m, tags, mons);
  }
}
