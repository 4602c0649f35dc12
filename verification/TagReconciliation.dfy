/** reconcilemonitortags: after a change of the monitor layout, every client is brought under tags of
    a monitor that owns one of its tags, and every monitor shows tags of its own. */
module TagReconciliation {
  import opened ClientLists
  import opened WindowMoves
  import opened MonitorTags
  import opened MonitorMoves

  /** A client with all tags, or under tags of its monitor only, or under no monitor's tag at all. */
  predicate Settled(count: nat, tags: set<nat>, mask: set<nat>) {
    tags == AllTags(count) || (tags != {} && tags <= mask) || tags !! AllTags(count)
  }

  /** What remains of a client's tags: all of them, or those of one monitor. */
  predicate Narrowed(before: set<nat>, after: set<nat>) { after <= before && (before != {} ==> after != {}) }

  /** The first monitor from an index on that owns one of the tags, |mons| when none does. */
  function OwnerOf(count: nat, mons: seq<Monitor>, tags: set<nat>, k: nat): nat
    requires 0 < count && k <= |mons|
    decreases |mons| - k
  {
    if k == |mons| || tags * MaskOf(count, mons, k) != {} then k else OwnerOf(count, mons, tags, k + 1)
  }

  /** Where a client of the j-th monitor belongs: there, or else with the first owner of its tags. */
  function Destination(count: nat, mons: seq<Monitor>, j: nat, tags: set<nat>): (d: nat)
    requires 0 < count && j < |mons|
  {
    var o := OwnerOf(count, mons, tags, 0);
    if tags == AllTags(count) || tags * MaskOf(count, mons, j) != {} || o >= |mons| then j else o
  }

  /** Its tags there. */
  function TagsThere(count: nat, mons: seq<Monitor>, d: nat, tags: set<nat>): set<nat>
    requires 0 < count && d < |mons|
  {
    var mask := MaskOf(count, mons, d);
    if tags == AllTags(count) || tags * mask == {} then tags else tags * mask
  }

  /** Exactly that becomes of a client of the j-th monitor. */
  ghost predicate Assigned(count: nat, mons: seq<Monitor>, j: nat, tags: set<nat>, mon': Monitor?, tags': set<nat>)
    requires 0 < count && j < |mons|
  {
    var d := Destination(count, mons, j, tags);
    mon' == mons[d] && tags' == TagsThere(count, mons, d, tags)
  }

  ghost predicate AssignedFrom(count: nat, mons: seq<Monitor>, mon: Monitor?, tags: set<nat>, mon': Monitor?,
                               tags': set<nat>)
    requires 0 < count
  {
    exists j :: 0 <= j < |mons| && mon == mons[j] && Assigned(count, mons, j, tags, mon', tags')
  }

  /** The first monitor that owns one of the tags, |mons| when none does, and its mask. */
  method FindOwner(count: nat, mons: seq<Monitor>, tags: set<nat>) returns (o: nat, mask: set<nat>)
    requires 0 < |mons| <= count && Numbered(mons)
    ensures o <= |mons| && o == OwnerOf(count, mons, tags, 0)
    ensures o < |mons| ==> mask == MaskOf(count, mons, o) && tags * mask != {}
    ensures o == |mons| ==> tags !! AllTags(count)
  {
    o, mask := 0, {};
    while o < |mons|
      invariant 0 <= o <= |mons| && OwnerOf(count, mons, tags, 0) == OwnerOf(count, mons, tags, o)
      invariant forall k :: 0 <= k < o ==> tags * MaskOf(count, mons, k) == {}
    {
      mask := ComputeMask(count, mons, mons[o].num, o);
      if tags * mask != {} { return; }
      o := o + 1;
    }
    NoOwner(count, mons, tags);
  }

  lemma NoOwner(count: nat, mons: seq<Monitor>, tags: set<nat>)
    requires 0 < |mons| <= count && forall k :: 0 <= k < |mons| ==> tags * MaskOf(count, mons, k) == {}
    ensures tags !! AllTags(count)
  {
    forall t | t in AllTags(count) ensures t !in tags {
      var i := TagOwned(count, mons, t);
      var mask := MaskOf(count, mons, i);
      assert tags * mask == {} && tags !! mask;
    }
  }

  /** All clients of a monitor are among these. */
  ghost predicate Within(m: Monitor, everyone: set<Client>)
    reads m
  { forall x :: x in m.order ==> x in everyone }

  ghost predicate KeptAspect(m: Monitor, everyone: set<Client>, aspect: int)
    reads m, m.order, m.focus
  { if aspect == 0 then m.Valid() else Within(m, everyone) }

  /** A valid monitor with clients among these; stated through a quantifier so that the solver looks
      inside only where KeptAspect is mentioned. */
  ghost predicate Kept(m: Monitor, everyone: set<Client>)
    reads m, m.order, m.focus
  { forall aspect :: 0 <= aspect < 2 ==> KeptAspect(m, everyone, aspect) }

  lemma KeptMeans(m: Monitor, everyone: set<Client>)
    ensures Kept(m, everyone) <==> m.Valid() && Within(m, everyone)
  {
    assert KeptAspect(m, everyone, 0) <==> m.Valid();
    assert KeptAspect(m, everyone, 1) <==> Within(m, everyone);
  }

  lemma AllKept(mons: seq<Monitor>, everyone: set<Client>)
    requires forall m :: m in mons ==> Kept(m, everyone)
    ensures forall m :: m in mons ==> m.Valid() && Within(m, everyone)
  {
    forall m | m in mons ensures m.Valid() && Within(m, everyone) { KeptMeans(m, everyone); }
  }

  /** A client stands in the list of its monitor. */
  ghost predicate Housed(x: Client, mons: seq<Monitor>)
    reads x, x.mon
  { x.mon != null && x.mon in mons && x in x.mon.order }

  /** New tags change no list. */
  method Retag(mons: seq<Monitor>, c: Client, tags: set<nat>, ghost everyone: set<Client>)
    requires forall m :: m in mons ==> Kept(m, everyone)
    requires forall x :: x in everyone ==> Housed(x, mons)
    modifies c`tags
    ensures forall m :: m in mons ==> Kept(m, everyone)
    ensures forall x :: x in everyone ==> Housed(x, mons)
    ensures c.tags == tags
  {
    AllKept(mons, everyone);
    c.tags := tags;
    forall m | m in mons ensures Kept(m, everyone) {
      assert old(m.Valid() && Within(m, everyone));
      StillValid(m);
      KeptMeans(m, everyone);
    }
    forall x | x in everyone ensures Housed(x, mons) { assert old(Housed(x, mons)); }
  }

  /** A client moves to its owner's lists; all clients stay housed. */
  method Rehouse(mons: seq<Monitor>, c: Client, src: Monitor, owner: Monitor, tags: set<nat>,
                 ghost everyone: set<Client>)
    requires forall m :: m in mons ==> Kept(m, everyone)
    requires forall x :: x in everyone ==> Housed(x, mons)
    requires c in everyone && c.mon == src && owner in mons && owner != src
    modifies mons`clients, mons`order, mons`stack, mons`focus, mons`sel, everyone`mon, everyone`tags, everyone`next,
        everyone`snext
    ensures forall m :: m in mons ==> Kept(m, everyone)
    ensures forall x :: x in everyone ==> Housed(x, mons)
    ensures forall x :: x in everyone && x != c ==> x.tags == old(x.tags) && x.mon == old(x.mon)
    ensures c.mon == owner && c.tags == tags && src.order == Without(old(src.order), c)
  {
    AllKept(mons, everyone);
    assert Housed(c, mons);
    ghost var s, n := owner.order, Above(owner.order);
    assert Within(src, everyone) && Within(owner, everyone);
    Transfer(c, owner, tags, mons);
    WithoutLacks(old(src.order), c);
    forall x | x in everyone
      ensures Housed(x, mons)
    {
      assert old(Housed(x, mons));
      if x != c {
        WithoutMembers(old(src.order), c, x);
        if x.mon == owner { assert x in Inserted(s, n, c); }
      } else {
        assert Inserted(s, n, c)[n] == c;
      }
    }
    forall m | m in mons
      ensures Kept(m, everyone)
    {
      assert old(Within(m, everyone));
      if m == owner { forall x | x in m.order ensures x in everyone { assert x in s || x == c; } }
      KeptMeans(m, everyone);
    }
  }

  /** These tags suit this monitor. */
  ghost predicate SettledAt(count: nat, mons: seq<Monitor>, mon: Monitor?, tags: set<nat>)
    requires 0 < count
  {
    exists k :: 0 <= k < |mons| && mon == mons[k] && Settled(count, tags, MaskOf(count, mons, k))
  }

  lemma Here(count: nat, mons: seq<Monitor>, tags: set<nat>, k: nat)
    requires k < |mons| && 0 < count && Settled(count, tags, MaskOf(count, mons, k))
    ensures SettledAt(count, mons, mons[k], tags)
  {}

  method Select(mons: seq<Monitor>, owner: Monitor, c: Client, ghost everyone: set<Client>)
    requires forall m :: m in mons ==> Kept(m, everyone)
    requires forall x :: x in everyone ==> Housed(x, mons)
    requires owner in mons && c in owner.order
    modifies owner`sel
    ensures forall m :: m in mons ==> Kept(m, everyone)
    ensures forall x :: x in everyone ==> Housed(x, mons)
    ensures owner.sel == c
  {
    AllKept(mons, everyone);
    owner.sel := c;
    forall m | m in mons ensures Kept(m, everyone) {
      assert old(m.Valid() && Within(m, everyone));
      if m != owner { StillValid(m); } else { StillLinked(m); }
      KeptMeans(m, everyone);
    }
    forall x | x in everyone ensures Housed(x, mons) { assert old(Housed(x, mons)); }
  }

  twostate lemma StillLinked(m: Monitor)
    requires old(m.Valid()) && m.clients == old(m.clients) && m.stack == old(m.stack)
    requires m.order == old(m.order) && m.focus == old(m.focus)
    requires forall c :: c in m.order ==> c.next == old(c.next) && c.snext == old(c.snext)
    ensures m.Linked()
  {
    forall i ensures NextAt(m.order, i) { assert old(NextAt(m.order, i)); }
    forall i ensures SnextAt(m.focus, i) {
      assert old(SnextAt(m.focus, i));
      if 0 <= i < |m.focus| { assert m.focus[i] in m.order; }
    }
  }

  /** A client moves to the owner of its tags, and stays selected there if it was. */
  method Adopt(mons: seq<Monitor>, c: Client, src: Monitor, owner: Monitor, tags: set<nat>, selmon: Monitor,
               ghost everyone: set<Client>)
    returns (selected: Monitor)
    requires forall m :: m in mons ==> Kept(m, everyone)
    requires forall x :: x in everyone ==> Housed(x, mons)
    requires c in everyone && c.mon == src && owner in mons && owner != src && selmon in mons
    modifies mons`clients, mons`order, mons`stack, mons`focus, mons`sel, everyone`mon, everyone`tags, everyone`next,
        everyone`snext
    ensures forall m :: m in mons ==> Kept(m, everyone)
    ensures forall x :: x in everyone ==> Housed(x, mons)
    ensures forall x :: x in everyone && x != c ==> x.tags == old(x.tags) && x.mon == old(x.mon)
    ensures c.mon == owner && c.tags == tags && src.order == Without(old(src.order), c) && selected in mons
    ensures old(src.sel) == c ==> owner.sel == c && (selmon == src ==> selected == owner)
  {
    selected := selmon;
    assert Housed(c, mons);
    var wasSelected := c == src.sel;
    Rehouse(mons, c, src, owner, tags, everyone);
    assert Housed(c, mons);
    if wasSelected {
      Select(mons, owner, c, everyone);
      if src == selmon { selected := owner; }
    }
  }

  /** One client of the j-th monitor: its tags are narrowed, and it moves when another monitor owns them. */
  method Settle(count: nat, mons: seq<Monitor>, j: nat, c: Client, selmon: Monitor, ghost everyone: set<Client>)
    returns (moved: bool, selected: Monitor)
    requires 0 < |mons| <= count && Numbered(mons) && j < |mons| && selmon in mons
    requires forall m :: m in mons ==> Kept(m, everyone)
    requires forall x :: x in everyone ==> Housed(x, mons)
    requires c in everyone && c.mon == mons[j]
    modifies mons`clients, mons`order, mons`stack, mons`focus, mons`sel, everyone`mon, everyone`tags, everyone`next,
        everyone`snext
    ensures forall m :: m in mons ==> Kept(m, everyone)
    ensures forall x :: x in everyone ==> Housed(x, mons)
    ensures forall x :: x in everyone && x != c ==> x.tags == old(x.tags) && x.mon == old(x.mon)
    ensures mons[j].order == if moved then Without(old(mons[j].order), c) else old(mons[j].order)
    ensures Assigned(count, mons, j, old(c.tags), c.mon, c.tags) && selected in mons && (!moved ==> c.mon == mons[j])
  {
    moved, selected := false, selmon;
    var montags := ComputeMask(count, mons, mons[j].num, j);
    if c.tags != AllTags(count) {
      if c.tags * montags != {} {
        Retag(mons, c, c.tags * montags, everyone);
      } else {
        var o, mask := FindOwner(count, mons, c.tags);
        if o != |mons| {
          if o != j { OtherMonitor(mons, o, j); }
          selected := Adopt(mons, c, mons[j], mons[o], c.tags * mask, selmon, everyone);
          moved := true;
        }
      }
    }
  }

  /** The clients from an index on. */
  ghost function Rest(s: seq<Client>, i: nat): set<Client> { set k | i <= k < |s| :: s[k] }

  lemma RestStep(s: seq<Client>, i: nat)
    requires Distinct(s) && i < |s|
    ensures Rest(s, i) == {s[i]} + Rest(s, i + 1) == {s[i]} + Rest(Without(s, s[i]), i)
    ensures s[i] !in Rest(s, i + 1) && s[i] !in Rest(Without(s, s[i]), i)
    ensures At(s, i + 1) == At(Without(s, s[i]), i) && |Without(s, s[i])| == |s| - 1
  {
    WithoutAt(s, i);
    RestShift(s, i);
    forall k | i + 1 <= k < |s| ensures s[k] != s[i] { assert Differ(s, i, k); }
    assert Rest(s, i) == {s[i]} + Rest(s, i + 1);
  }

  lemma RestShift(s: seq<Client>, i: nat)
    requires i < |s|
    ensures Rest(s[..i] + s[i + 1..], i) == Rest(s, i + 1)
  {
    var r := s[..i] + s[i + 1..];
    forall x | x in Rest(s, i + 1) ensures x in Rest(r, i) {
      var k :| i + 1 <= k < |s| && s[k] == x;
      assert r[k - 1] == x;
    }
    forall x | x in Rest(r, i) ensures x in Rest(s, i + 1) {
      var k :| i <= k < |r| && r[k] == x;
      assert s[k + 1] == x;
    }
  }

  lemma RestStart(mons: seq<Monitor>, m: Monitor, everyone: set<Client>)
    requires Kept(m, everyone) && forall x :: x in everyone ==> Housed(x, mons)
    ensures m.clients == At(m.order, 0) && forall x :: x in everyone && x.mon == m ==> x in Rest(m.order, 0)
  {
    KeptMeans(m, everyone);
    forall x | x in everyone && x.mon == m ensures x in Rest(m.order, 0) { assert Housed(x, mons); }
  }

  /** Settle one client, and go on to the one that followed it. */
  method SettleNext(count: nat, mons: seq<Monitor>, j: nat, c: Client, selmon: Monitor, ghost everyone: set<Client>,
                    ghost i: nat)
    returns (next: Client?, selected: Monitor, ghost n: nat)
    requires 0 < |mons| <= count && Numbered(mons) && j < |mons| && selmon in mons
    requires forall m :: m in mons ==> Kept(m, everyone)
    requires forall x :: x in everyone ==> Housed(x, mons)
    requires i < |mons[j].order| && c == mons[j].order[i]
    modifies mons`clients, mons`order, mons`stack, mons`focus, mons`sel, everyone`mon, everyone`tags, everyone`next,
        everyone`snext
    ensures forall m :: m in mons ==> Kept(m, everyone)
    ensures forall x :: x in everyone ==> Housed(x, mons)
    ensures forall x :: x in everyone && x != c ==> x.tags == old(x.tags) && x.mon == old(x.mon)
    ensures Assigned(count, mons, j, old(c.tags), c.mon, c.tags) && selected in mons
    ensures old(c.mon) == mons[j] && n <= |mons[j].order| && next == At(mons[j].order, n)
    ensures old(Rest(mons[j].order, i)) == {c} + Rest(mons[j].order, n) && c !in Rest(mons[j].order, n)
    ensures |mons[j].order| - n < old(|mons[j].order|) - i
  {
    var m := mons[j];
    KeptMeans(m, everyone);
    assert NextAt(m.order, i);
    RestStep(m.order, i);
    next := c.next;
    var moved;
    moved, selected := Settle(count, mons, j, c, selmon, everyone);
    n := if moved then i else i + 1;
  }

  /** A client of the monitor being settled waits as it was or is settled; any other is as it was. */
  ghost predicate Progressed(count: nat, mons: seq<Monitor>, j: nat, mon: Monitor?, tags: set<nat>,
                             mon': Monitor?, tags': set<nat>, waits: bool)
    requires 0 < count && j < |mons|
  {
    if mon == mons[j] && !waits then Assigned(count, mons, j, tags, mon', tags') else mon' == mon && tags' == tags
  }

  /** One client of the monitor is settled, the others wait or are done as before. */
  lemma ProgressedStep(count: nat, mons: seq<Monitor>, j: nat, mon: Monitor?, tags: set<nat>, mon': Monitor?,
                       tags': set<nat>,
                       mon'': Monitor?, tags'': set<nat>, now: bool, waited: bool, waits: bool)
    requires 0 < count && j < |mons| && Progressed(count, mons, j, mon, tags, mon', tags', waited)
    requires now ==> waited && !waits && mon' == mons[j] && Assigned(count, mons, j, tags', mon'', tags'')
    requires !now ==> waits == waited && mon'' == mon' && tags'' == tags'
    ensures Progressed(count, mons, j, mon, tags, mon'', tags'', waits)
  {}

  /** The clients of one monitor in turn, each with its successor fetched before it may move. */
  method SettleMonitor(count: nat, mons: seq<Monitor>, j: nat, selmon: Monitor, ghost everyone: set<Client>)
    returns (selected: Monitor)
    requires 0 < |mons| <= count && Numbered(mons) && j < |mons| && selmon in mons
    requires forall m :: m in mons ==> Kept(m, everyone)
    requires forall x :: x in everyone ==> Housed(x, mons)
    modifies mons`clients, mons`order, mons`stack, mons`focus, mons`sel, everyone`mon, everyone`tags, everyone`next,
        everyone`snext
    ensures forall m :: m in mons ==> Kept(m, everyone)
    ensures forall x :: x in everyone ==> Housed(x, mons)
    ensures forall x :: x in everyone ==> Progressed(count, mons, j, old(x.mon), old(x.tags), x.mon, x.tags, false)
    ensures selected in mons
  {
    var m := mons[j];
    selected := selmon;
    RestStart(mons, m, everyone);
    var c := m.clients;
    ghost var i := 0;
    while c != null
      invariant 0 <= i <= |m.order| && c == At(m.order, i)
      invariant forall n :: n in mons ==> Kept(n, everyone)
      invariant forall x :: x in everyone ==> Housed(x, mons)
      invariant forall x :: x in everyone ==>
        Progressed(count, mons, j, old(x.mon), old(x.tags), x.mon, x.tags, x in Rest(m.order, i))
      invariant selected in mons
      decreases |m.order| - i
    {
      label Before:
      ghost var settled, order, at := c, m.order, i;
      c, selected, i := SettleNext(count, mons, j, c, selected, everyone, i);
      forall x | x in everyone
        ensures Progressed(count, mons, j, old(x.mon), old(x.tags), x.mon, x.tags, x in Rest(m.order, i))
      {
        ProgressedStep(count, mons, j, old(x.mon), old(x.tags), old@Before(x.mon), old@Before(x.tags), x.mon, x.tags,
                       x == settled, x in Rest(order, at), x in Rest(m.order, i));
      }
    }
  }

  // ---- what an exact assignment means ----

  lemma OwnerOwnsTags(count: nat, mons: seq<Monitor>, tags: set<nat>, k: nat)
    requires 0 < count && k <= |mons|
    ensures k <= OwnerOf(count, mons, tags, k) <= |mons|
    ensures var o := OwnerOf(count, mons, tags, k); o < |mons| ==> tags * MaskOf(count, mons, o) != {}
    ensures forall i :: k <= i < OwnerOf(count, mons, tags, k) ==> tags * MaskOf(count, mons, i) == {}
    decreases |mons| - k
  {
    if k < |mons| && tags * MaskOf(count, mons, k) == {} { OwnerOwnsTags(count, mons, tags, k + 1); }
  }

  /** The first monitor with one of the tags, or |mons|. */
  ghost predicate FirstOwner(count: nat, mons: seq<Monitor>, tags: set<nat>, o: nat)
    requires 0 < count && o <= |mons|
  {
    && (forall i :: 0 <= i < o ==> tags !! MaskOf(count, mons, i))
    && (o < |mons| ==> !(tags !! MaskOf(count, mons, o)))
  }

  lemma OwnerIsFirst(count: nat, mons: seq<Monitor>, tags: set<nat>, o: nat)
    requires 0 < count && o <= |mons|
    ensures FirstOwner(count, mons, tags, o) <==> o == OwnerOf(count, mons, tags, 0)
  {
    var first := OwnerOf(count, mons, tags, 0);
    OwnerOwnsTags(count, mons, tags, 0);
    forall i | 0 <= i < |mons| ensures tags !! MaskOf(count, mons, i) <==> tags * MaskOf(count, mons, i) == {} {}
    assert first < |mons| ==> !(tags !! MaskOf(count, mons, first));
  }

  /** All tags, and tags that the client's monitor has a part of, keep the client where it is; else it goes
      to the first monitor with a part of them, if there is one; and that part is what it keeps. */
  lemma AssignedIff(count: nat, mons: seq<Monitor>, j: nat, tags: set<nat>, o: nat, mon': Monitor?, tags': set<nat>)
    requires 0 < count && j < |mons| && o <= |mons| && FirstOwner(count, mons, tags, o)
    ensures Assigned(count, mons, j, tags, mon', tags') <==>
      if tags == AllTags(count) then mon' == mons[j] && tags' == tags
      else if !(tags !! MaskOf(count, mons, j)) then mon' == mons[j] && tags' == tags * MaskOf(count, mons, j)
      else if o < |mons| then mon' == mons[o] && tags' == tags * MaskOf(count, mons, o)
      else mon' == mons[j] && tags' == tags
  {
    OwnerIsFirst(count, mons, tags, o);
    assert tags * MaskOf(count, mons, j) == {} <==> tags !! MaskOf(count, mons, j);
    if o < |mons| { assert tags * MaskOf(count, mons, o) == {} <==> tags !! MaskOf(count, mons, o); }
  }

  /** It gives the client all tags, tags of its monitor, or none that a monitor owns; it adds none and
      takes no last one. */
  lemma AssignedMeans(count: nat, mons: seq<Monitor>, j: nat, tags: set<nat>, mon': Monitor?, tags': set<nat>)
    requires 0 < |mons| <= count && j < |mons| && Assigned(count, mons, j, tags, mon', tags')
    ensures SettledAt(count, mons, mon', tags') && Narrowed(tags, tags')
  {
    var d := Destination(count, mons, j, tags);
    OwnerOwnsTags(count, mons, tags, 0);
    if tags != AllTags(count) && tags * MaskOf(count, mons, d) == {} { NoOwner(count, mons, tags); }
    Here(count, mons, tags', d);
  }

  /** Settling a client again where it came to stand changes nothing. */
  lemma AssignedAgain(count: nat, mons: seq<Monitor>, j: nat, tags: set<nat>, k: nat, mon': Monitor?, tags': set<nat>,
                      mon'': Monitor?, tags'': set<nat>)
    requires 0 < |mons| <= count && Numbered(mons) && j < |mons| && k < |mons|
    requires Assigned(count, mons, j, tags, mon', tags') && mon' == mons[k]
             && Assigned(count, mons, k, tags', mon'', tags'')
    ensures mon'' == mon' && tags'' == tags'
  {
    var d := Destination(count, mons, j, tags);
    if d != k { OtherMonitor(mons, d, k); }
    OwnerOwnsTags(count, mons, tags, 0);
    var mask := MaskOf(count, mons, k);
    assert tags * mask * mask == tags * mask;
  }

  /** The first pass so far: the clients of the first monitors are assigned, the others as they were. */
  ghost predicate Passed(count: nat, mons: seq<Monitor>, j: nat, mon: Monitor?, tags: set<nat>, mon': Monitor?,
                         tags': set<nat>)
    requires 0 < count && j <= |mons|
  {
    if mon in mons[..j] then AssignedFrom(count, mons, mon, tags, mon', tags') else mon' == mon && tags' == tags
  }

  lemma PassedNext(count: nat, mons: seq<Monitor>, j: nat, mon: Monitor?, tags: set<nat>, mon': Monitor?,
                   tags': set<nat>,
                   mon'': Monitor?, tags'': set<nat>)
    requires 0 < |mons| <= count && Numbered(mons) && j < |mons|
    requires Passed(count, mons, j, mon, tags, mon', tags')
             && Progressed(count, mons, j, mon', tags', mon'', tags'', false)
    ensures Passed(count, mons, j + 1, mon, tags, mon'', tags'')
  {
    assert mons[..j + 1] == mons[..j] + [mons[j]];
    if mon in mons[..j] {
      var i :| 0 <= i < |mons| && mon == mons[i] && Assigned(count, mons, i, tags, mon', tags');
      if mon' == mons[j] { AssignedAgain(count, mons, i, tags, j, mon', tags', mon'', tags''); }
    }
  }

  /** The first pass: every client of every monitor, each with its successor fetched before it may move. */
  method SettleAll(count: nat, mons: seq<Monitor>, selmon: Monitor, ghost everyone: set<Client>)
      returns (selected: Monitor)
    requires 0 < |mons| <= count && Numbered(mons) && selmon in mons
    requires forall m :: m in mons ==> Kept(m, everyone)
    requires forall x :: x in everyone ==> Housed(x, mons)
    modifies mons`clients, mons`order, mons`stack, mons`focus, mons`sel, everyone`mon, everyone`tags, everyone`next,
        everyone`snext
    ensures forall m :: m in mons ==> Kept(m, everyone)
    ensures forall x :: x in everyone ==>
            Housed(x, mons) && AssignedFrom(count, mons, old(x.mon), old(x.tags), x.mon, x.tags)
    ensures selected in mons
  {
    selected := selmon;
    for j := 0 to |mons|
      invariant forall m :: m in mons ==> Kept(m, everyone)
      invariant forall x :: x in everyone ==> Housed(x, mons)
      invariant forall x :: x in everyone ==> Passed(count, mons, j, old(x.mon), old(x.tags), x.mon, x.tags)
      invariant selected in mons
    {
      label Before:
      selected := SettleMonitor(count, mons, j, selected, everyone);
      forall x | x in everyone ensures Passed(count, mons, j + 1, old(x.mon), old(x.tags), x.mon, x.tags) {
        PassedNext(count, mons, j, old(x.mon), old(x.tags), old@Before(x.mon), old@Before(x.tags), x.mon, x.tags);
      }
    }
    forall x | x in everyone ensures AssignedFrom(count, mons, old(x.mon), old(x.tags), x.mon, x.tags) {
      assert old(Housed(x, mons)) && mons[..|mons|] == mons;
    }
  }

  // ---- the second pass: what each monitor shows ----

  /** Shown tags fit a mask: they are some of it, and the remembered tag is 0 for all of it, stays what it
      was while that is shown, and is the least of those shown otherwise. */
  predicate Fits(shown: set<nat>, before: nat, tag: nat, mask: set<nat>) {
    && shown != {} && shown <= mask
    && if shown == mask then tag == 0
       else if before > 0 && before - 1 in shown then tag == before
       else tag > 0 && tag - 1 in shown && forall t :: t in shown ==> tag - 1 <= t
  }

  /** The tags of a set that the mask has, or else the mask's first. */
  function Fitted(count: nat, shown: set<nat>, mask: set<nat>): set<nat> {
    if shown * mask != {} then shown * mask else {FirstTag(count, mask, 0)}
  }

  /** A tag set keeps what the mask has of it, or becomes the mask's least tag. */
  lemma FittedMeans(count: nat, shown: set<nat>, mask: set<nat>)
    requires mask != {} && mask <= AllTags(count)
    ensures if shown !! mask then LeastAlone(Fitted(count, shown, mask), mask)
            else Fitted(count, shown, mask) == shown * mask
  {
    FirstTagIsLeast(count, mask);
    assert shown * mask == {} <==> shown !! mask;
  }

  lemma MaskHasFirst(count: nat, mons: seq<Monitor>, k: nat)
    requires k < |mons| <= count
    ensures FirstTag(count, MaskOf(count, mons, k), 0) in MaskOf(count, mons, k)
  {
    MaskHolds(count, mons, k);
    var t :| t in MaskOf(count, mons, k);
    assert t in AllTags(count);
  }

  /** One of a monitor's two tag sets, and the tag remembered for it. */
  method FitTags(count: nat, mask: set<nat>, shown: set<nat>, tag: nat) returns (fitted: set<nat>, kept: nat)
    requires FirstTag(count, mask, 0) in mask && mask <= AllTags(count)
    ensures Fits(fitted, tag, kept, mask)
    ensures fitted == Fitted(count, shown, mask)
  {
    var fallback := FindFirstTag(count, mask);
    fitted := shown * mask;
    if fitted == {} { fitted := {fallback}; }
    kept := tag;
    if fitted == mask {
      kept := 0;
    } else if tag == 0 || tag - 1 !in fitted {
      var first := FindFirstTag(count, fitted);
      FirstTagIsLeast(count, fitted);
      kept := first + 1;
    }
  }

  /** The view of one monitor: both its tag sets, and the tags remembered for them. */
  method FitView(count: nat, mons: seq<Monitor>, k: nat, m: Monitor, ghost everyone: set<Client>)
    requires k < |mons| <= count && Numbered(mons) && m == mons[k]
    requires forall m :: m in mons ==> Kept(m, everyone)
    requires forall x :: x in everyone ==> Housed(x, mons)
    modifies m`shown, m`hidden, m`curtag, m`prevtag
    ensures forall m :: m in mons ==> Kept(m, everyone)
    ensures forall x :: x in everyone ==> Housed(x, mons)
    ensures Fits(m.shown, old(m.curtag), m.curtag, MaskOf(count, mons, k))
    ensures Fits(m.hidden, old(m.prevtag), m.prevtag, MaskOf(count, mons, k))
    ensures m.shown == Fitted(count, old(m.shown), MaskOf(count, mons, k))
    ensures m.hidden == Fitted(count, old(m.hidden), MaskOf(count, mons, k))
  {
    AllKept(mons, everyone);
    var mask := ComputeMask(count, mons, m.num, k);
    MaskHasFirst(count, mons, k);
    MaskHolds(count, mons, k);
    var shown, curtag := FitTags(count, mask, m.shown, m.curtag);
    var hidden, prevtag := FitTags(count, mask, m.hidden, m.prevtag);
    m.shown, m.curtag, m.hidden, m.prevtag := shown, curtag, hidden, prevtag;
    forall n | n in mons ensures Kept(n, everyone) {
      assert old(n.Valid() && Within(n, everyone));
      StillValid(n);
      KeptMeans(n, everyone);
    }
    forall x | x in everyone ensures Housed(x, mons) { assert old(Housed(x, mons)); }
  }

  method FitViews(count: nat, mons: seq<Monitor>, ghost everyone: set<Client>)
    requires 0 < |mons| <= count && Numbered(mons)
    requires forall m :: m in mons ==> Kept(m, everyone)
    requires forall x :: x in everyone ==> Housed(x, mons)
    modifies mons`shown, mons`hidden, mons`curtag, mons`prevtag
    ensures forall m :: m in mons ==> Kept(m, everyone)
    ensures forall x :: x in everyone ==> Housed(x, mons)
    ensures forall k :: 0 <= k < |mons| ==>
      && Fits(mons[k].shown, old(mons[k].curtag), mons[k].curtag, MaskOf(count, mons, k))
      && Fits(mons[k].hidden, old(mons[k].prevtag), mons[k].prevtag, MaskOf(count, mons, k))
    ensures forall k :: 0 <= k < |mons| ==>
      && mons[k].shown == Fitted(count, old(mons[k].shown), MaskOf(count, mons, k))
      && mons[k].hidden == Fitted(count, old(mons[k].hidden), MaskOf(count, mons, k))
  {
    for j := 0 to |mons|
      invariant forall m :: m in mons ==> Kept(m, everyone)
      invariant forall x :: x in everyone ==> Housed(x, mons)
      invariant forall k :: 0 <= k < j ==>
        && Fits(mons[k].shown, old(mons[k].curtag), mons[k].curtag, MaskOf(count, mons, k))
        && Fits(mons[k].hidden, old(mons[k].prevtag), mons[k].prevtag, MaskOf(count, mons, k))
      invariant forall k :: j <= k < |mons| ==>
        mons[k].curtag == old(mons[k].curtag) && mons[k].prevtag == old(mons[k].prevtag)
      invariant forall k :: 0 <= k < |mons| ==>
        && mons[k].shown == (if k < j then Fitted(count, old(mons[k].shown), MaskOf(count, mons, k))
                             else old(mons[k].shown))
        && mons[k].hidden == (if k < j then Fitted(count, old(mons[k].hidden), MaskOf(count, mons, k))
                              else old(mons[k].hidden))
    {
      forall k | 0 <= k < |mons| && k != j ensures mons[k] != mons[j] { OtherMonitor(mons, k, j); }
      FitView(count, mons, j, mons[j], everyone);
    }
  }

  /** reconcilemonitortags: with a tag for every monitor, whatever the layout was before, every client
      is kept, on one monitor, under all tags or tags of that monitor only, or under no tag a monitor
      owns; it stays where it was if its tags allow, or goes to the first owner of its tags, and keeps
      exactly those of its tags that its monitor owns; and both tag sets of every monitor become those
      of their tags that the monitor owns, or else its first. */
  method Reconcile(count: nat, mons: seq<Monitor>, selmon: Monitor, ghost everyone: set<Client>)
      returns (selected: Monitor)
    requires 0 < |mons| <= count && Numbered(mons) && selmon in mons
    requires forall m :: m in mons ==> Kept(m, everyone)
    requires forall x :: x in everyone ==> Housed(x, mons)
    modifies mons, everyone
    ensures forall m :: m in mons ==> Kept(m, everyone)
    ensures forall x :: x in everyone ==>
      Housed(x, mons) && SettledAt(count, mons, x.mon, x.tags) && Narrowed(old(x.tags), x.tags)
    ensures forall x :: x in everyone ==> AssignedFrom(count, mons, old(x.mon), old(x.tags), x.mon, x.tags)
    ensures forall k :: 0 <= k < |mons| ==>
      && Fits(mons[k].shown, old(mons[k].curtag), mons[k].curtag, MaskOf(count, mons, k))
      && Fits(mons[k].hidden, old(mons[k].prevtag), mons[k].prevtag, MaskOf(count, mons, k))
    ensures forall k :: 0 <= k < |mons| ==>
      && mons[k].shown == Fitted(count, old(mons[k].shown), MaskOf(count, mons, k))
      && mons[k].hidden == Fitted(count, old(mons[k].hidden), MaskOf(count, mons, k))
    ensures selected in mons
  {
    selected := SettleAll(count, mons, selmon, everyone);
    FitViews(count, mons, everyone);
    forall x | x in everyone ensures SettledAt(count, mons, x.mon, x.tags) && Narrowed(old(x.tags), x.tags) {
      var j :| 0 <= j < |mons| && old(x.mon) == mons[j] && Assigned(count, mons, j, old(x.tags), x.mon, x.tags);
      AssignedMeans(count, mons, j, old(x.tags), x.mon, x.tags);
    }
  }
}
