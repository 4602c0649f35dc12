/** Which of dwm's tags belong to which monitor: the tags are dealt out by logical monitor index. */
module MonitorTags {
  import opened ClientLists

  function Range(from: nat, to: nat): (r: set<nat>)
    ensures forall t :: t in r <==> from <= t < to
  {
    if from >= to then {} else Range(from, to - 1) + {to - 1}
  }

  /** The tag numbers 0 .. count - 1, TAGMASK. */
  function AllTags(count: nat): set<nat> { Range(0, count) }

  predicate Numbered(mons: seq<Monitor>) { forall i, k :: 0 <= i < k < |mons| ==> mons[i].num != mons[k].num }

  lemma OtherMonitor(mons: seq<Monitor>, i: nat, k: nat)
    requires Numbered(mons) && i < |mons| && k < |mons| && i != k
    ensures mons[i] != mons[k] && mons[i].num != mons[k].num
  {
    assert mons[if i < k then i else k].num != mons[if i < k then k else i].num;
  }

  // ---- logical indices ----

  /** The first monitor at or below row 1080, or else the first. */
  function Primary(mons: seq<Monitor>, from: nat): (p: nat)
    requires from <= |mons| && mons != []
    ensures p < |mons| && (p < from ==> p == 0)
    ensures (from <= p < |mons| && mons[p].my >= 1080) || p == 0
    ensures forall i :: from <= i < |mons| && mons[i].my >= 1080 ==> mons[p].my >= 1080 && from <= p <= i
    decreases |mons| - from
  {
    if from == |mons| then 0 else if mons[from].my >= 1080 then from else Primary(mons, from + 1)
  }

  /** The primary monitor comes first, the others in list order. */
  function LogicalIndex(mons: seq<Monitor>, i: nat): nat
    requires i < |mons|
  {
    if |mons| <= 1 then 0
    else
      var p := Primary(mons, 0);
      if i == p then 0 else if i < p then i + 1 else i
  }

  /** The monitor with a logical index. */
  function MonitorAt(mons: seq<Monitor>, index: nat): nat
    requires index < |mons|
  {
    var p := Primary(mons, 0);
    if index == 0 then p else if index <= p then index - 1 else index
  }

  /** Logical indices are a bijection between the monitors and 0 .. n - 1. */
  lemma LogicalIndexBijective(mons: seq<Monitor>, i: nat)
    requires i < |mons|
    ensures LogicalIndex(mons, i) < |mons| && MonitorAt(mons, LogicalIndex(mons, i)) == i
    ensures MonitorAt(mons, i) < |mons| && LogicalIndex(mons, MonitorAt(mons, i)) == i
  {}

  /** The first monitor at or below row 1080 comes first, or else the first of all; the others keep
      their order. */
  lemma LogicalIndexOrder(mons: seq<Monitor>, i: nat, k: nat)
    requires i < k < |mons|
    ensures var first := p => 0 <= p < |mons| && mons[p].my >= 1080 && forall q :: 0 <= q < p ==> mons[q].my < 1080;
      && (first(i) ==> LogicalIndex(mons, i) == 0) && (first(k) ==> LogicalIndex(mons, k) == 0)
      && (!first(i) && !first(k) && i > 0 ==> 0 < LogicalIndex(mons, i) < LogicalIndex(mons, k))
  {}

  /** getmonlogicalindex. */
  method GetLogicalIndex(mons: seq<Monitor>, target: Monitor, ghost at: nat) returns (index: nat)
    requires Numbered(mons) && at < |mons| && mons[at] == target
    ensures index == LogicalIndex(mons, at)
  {
    if |mons| <= 1 { return 0; }
    var primary: Monitor? := null;
    var i := 0;
    while i < |mons| && primary == null
      invariant 0 <= i <= |mons| && (primary == null ==> Primary(mons, 0) == Primary(mons, i))
      invariant primary != null ==> primary == mons[Primary(mons, 0)]
    {
      if mons[i].my >= 1080 { primary := mons[i]; }
      i := i + 1;
    }
    if primary == null { primary := mons[0]; }
    ghost var p := Primary(mons, 0);
    assert mons[p] == primary;
    if target == primary {
      if at != p { OtherMonitor(mons, at, p); }
      return 0;
    }
    index, i := 1, 0;
    while i < |mons| && mons[i] != target
      invariant 0 <= i <= at && index == if i <= p then i + 1 else i
    {
      if i != p { OtherMonitor(mons, i, p); }
      if mons[i] != primary { index := index + 1; }
      i := i + 1;
    }
    if i != at { OtherMonitor(mons, i, at); }
  }

  // ---- masks ----

  function PerMonitor(count: nat, n: nat): nat
    requires n > 0
  { if count / n == 0 then 1 else count / n }

  function Start(count: nat, n: nat, l: nat): nat
    requires n > 0
  { l * PerMonitor(count, n) }

  function End(count: nat, n: nat, l: nat): nat
    requires n > 0
  { if l == n - 1 then count else Start(count, n, l) + PerMonitor(count, n) }

  /** The tags of logical monitor l of n, while there are tags enough for all. */
  function Share(count: nat, n: nat, l: nat): set<nat>
    requires n > 0
  {
    if n == 1 then AllTags(count) else Range(Start(count, n, l), End(count, n, l))
  }

  /** A range of tags, cut to the tags there are; a monitor left without one gets a tag by its number. */
  function Clamped(count: nat, from: nat, to: nat, num: nat): set<nat>
    requires count > 0
  {
    var start := if from >= count then count - 1 else from;
    var end := if to > count then count else to;
    if start >= end then {num % count} else Range(start, end)
  }

  /** computemontagmask, by logical index. */
  function Mask(count: nat, n: nat, l: nat, num: nat): set<nat>
    requires n > 0 && count > 0
  {
    if n <= 1 then AllTags(count) else Clamped(count, Start(count, n, l), End(count, n, l), num)
  }

  lemma Times(a: nat, b: nat, p: nat)
    requires a <= b
    ensures a * p <= b * p
  {}

  lemma Quotient(a: nat, b: nat)
    requires b > 0
    ensures a / b * b <= a < (a / b + 1) * b && (a / b + 1) * b == a / b * b + b
  {}

  lemma PerMonitorIs(count: nat, n: nat)
    requires 0 < n <= count
    ensures PerMonitor(count, n) == count / n > 0 && count / n * n <= count
  {
    Quotient(count, n);
    assert (0 + 1) * n == n;
  }

  lemma SharesFit(count: nat, n: nat, l: nat)
    requires l < n <= count
    ensures Start(count, n, l) < End(count, n, l) <= count
    ensures l + 1 < n ==> End(count, n, l) == Start(count, n, l + 1)
  {
    PerMonitorIs(count, n);
    FitsBefore(count, n, l, count / n);
  }

  lemma FitsBefore(count: nat, n: nat, l: nat, per: nat)
    requires l < n && per * n <= count
    ensures l * per + per <= count && (l + 1) * per == l * per + per
  {
    Times(l + 1, n, per);
    assert (l + 1) * per == l * per + per;
  }

  /** With a tag for every monitor, nothing is clamped. */
  lemma MaskIsShare(count: nat, n: nat, l: nat, num: nat)
    requires l < n <= count
    ensures Mask(count, n, l, num) == Share(count, n, l)
  {
    SharesFit(count, n, l);
  }

  lemma {:induction false} SharesOrdered(count: nat, n: nat, a: nat, b: nat)
    requires a < b < n <= count
    ensures End(count, n, a) <= Start(count, n, b)
    decreases b - a
  {
    SharesFit(count, n, a);
    if a + 1 < b {
      SharesFit(count, n, a + 1);
      SharesOrdered(count, n, a + 1, b);
    }
  }

  /** The logical monitor that owns a tag. */
  function TagOwner(count: nat, n: nat, tag: nat): nat
    requires 0 < n <= count
  {
    var l := tag / PerMonitor(count, n);
    if l < n then l else n - 1
  }

  lemma OwnerOwns(count: nat, n: nat, tag: nat)
    requires 0 < n <= count && tag < count
    ensures TagOwner(count, n, tag) < n && tag in Share(count, n, TagOwner(count, n, tag))
  {
    var per, l := PerMonitor(count, n), TagOwner(count, n, tag);
    Quotient(tag, per);
    Times(l, tag / per, per);
  }

  /** The mask of the i-th monitor. */
  function MaskOf(count: nat, mons: seq<Monitor>, i: nat): set<nat>
    requires count > 0 && i < |mons|
  {
    Mask(count, |mons|, LogicalIndex(mons, i), mons[i].num)
  }

  lemma MaskOfIsShare(count: nat, mons: seq<Monitor>, i: nat)
    requires i < |mons| <= count
    ensures LogicalIndex(mons, i) < |mons| && MaskOf(count, mons, i) == Share(count, |mons|, LogicalIndex(mons, i))
  {
    LogicalIndexBijective(mons, i);
    MaskIsShare(count, |mons|, LogicalIndex(mons, i), mons[i].num);
  }

  /** With at most as many monitors as tags, every monitor has a tag, ... */
  lemma MaskHolds(count: nat, mons: seq<Monitor>, i: nat)
    requires i < |mons| <= count
    ensures MaskOf(count, mons, i) != {} && MaskOf(count, mons, i) <= AllTags(count)
  {
    var l := LogicalIndex(mons, i);
    MaskOfIsShare(count, mons, i);
    SharesFit(count, |mons|, l);
    assert (if |mons| == 1 then 0 else Start(count, |mons|, l)) in Share(count, |mons|, l);
  }

  /** ... no tag belongs to two, ... */
  lemma MasksDisjoint(count: nat, mons: seq<Monitor>, i: nat, k: nat)
    requires i < |mons| <= count && k < |mons| && i != k
    ensures MaskOf(count, mons, i) !! MaskOf(count, mons, k)
  {
    var a, b := LogicalIndex(mons, i), LogicalIndex(mons, k);
    MaskOfIsShare(count, mons, i);
    MaskOfIsShare(count, mons, k);
    LogicalIndexBijective(mons, i);
    LogicalIndexBijective(mons, k);
    if a < b { SharesOrdered(count, |mons|, a, b); } else { SharesOrdered(count, |mons|, b, a); }
  }

  /** ... and every tag belongs to one. */
  lemma TagOwned(count: nat, mons: seq<Monitor>, tag: nat) returns (i: nat)
    requires 0 < |mons| <= count && tag < count
    ensures i < |mons| && tag in MaskOf(count, mons, i)
  {
    var l := TagOwner(count, |mons|, tag);
    OwnerOwns(count, |mons|, tag);
    i := MonitorAt(mons, l);
    LogicalIndexBijective(mons, l);
    MaskOfIsShare(count, mons, i);
  }

  // ---- how the tags are dealt ----

  lemma {:induction false} RangeSize(from: nat, end: nat)
    requires from <= end
    ensures |Range(from, end)| == end - from
    decreases end
  {
    if from < end { RangeSize(from, end - 1); }
  }

  lemma QuotientAtLeast(t: nat, per: nat, l: nat)
    requires per > 0
    ensures l * per <= t <==> l <= t / per
  {
    Quotient(t, per);
    if l <= t / per { Times(l, t / per, per); } else { Times(t / per + 1, l, per); }
  }

  /** The quotient of the tag decides, and what is left over goes to the last. */
  lemma DealtByQuotient(count: nat, n: nat, l: nat, t: nat)
    requires l < n <= count && t < count
    ensures t in Share(count, n, l) <==> (t / (count / n) == l || (l == n - 1 && t / (count / n) >= n))
  {
    PerMonitorIs(count, n);
    var per := count / n;
    QuotientAtLeast(t, per, l);
    QuotientAtLeast(t, per, l + 1);
    assert (l + 1) * per == l * per + per;
    if n == 1 { assert t in AllTags(count); }
  }

  /** With at most as many monitors as tags, a tag is the monitor's whose index is its quotient by the
      number of tags per monitor, or the last one's. */
  lemma MaskByQuotient(count: nat, mons: seq<Monitor>, i: nat, t: nat)
    requires i < |mons| <= count && t < count
    ensures var per, l := count / |mons|, LogicalIndex(mons, i);
      t in MaskOf(count, mons, i) <==> (t / per == l || (l == |mons| - 1 && t / per >= |mons|))
  {
    MaskOfIsShare(count, mons, i);
    DealtByQuotient(count, |mons|, LogicalIndex(mons, i), t);
  }

  /** Every monitor but the last has the same number of tags, and the last has the rest. */
  lemma MaskSizes(count: nat, mons: seq<Monitor>, i: nat)
    requires i < |mons| <= count
    ensures var per := count / |mons|;
      |MaskOf(count, mons, i)| ==
        if LogicalIndex(mons, i) < |mons| - 1 then per else count - (|mons| - 1) * per
  {
    var n, l := |mons|, LogicalIndex(mons, i);
    MaskOfIsShare(count, mons, i);
    SharesFit(count, n, l);
    PerMonitorIs(count, n);
    if n == 1 { RangeSize(0, count); } else { RangeSize(Start(count, n, l), End(count, n, l)); }
  }

  /** With more monitors than tags, each has one tag: that of its index, or the last tag. */
  lemma MaskOfMany(count: nat, mons: seq<Monitor>, i: nat)
    requires 0 < count < |mons| && i < |mons|
    ensures var l := LogicalIndex(mons, i); MaskOf(count, mons, i) == {if l < count then l else count - 1}
  {
    var n, l := |mons|, LogicalIndex(mons, i);
    LogicalIndexBijective(mons, i);
    Quotient(count, n);
    assert PerMonitor(count, n) == 1 by { if count / n > 0 { Times(1, count / n, n); } }
    assert Start(count, n, l) == l * 1 == l;
  }

  /** The end of computemontagmask: cut the range and set its bits. */
  method SetBits(count: nat, from: nat, to: nat, num: nat) returns (mask: set<nat>)
    requires count > 0
    ensures mask == Clamped(count, from, to, num)
  {
    var start, end := from, to;
    if start >= count { start := count - 1; }
    if end > count { end := count; }
    if start >= end { return {num % count}; }
    mask := {};
    for t := start to end
      invariant mask == Range(start, t)
    {
      mask := mask + {t};
    }
  }

  method Deal(count: nat, n: nat, logical: nat) returns (start: nat, end: nat)
    requires n > 0
    ensures start == Start(count, n, logical) && end == End(count, n, logical)
  {
    var per := count / n;
    if per == 0 { per := 1; }
    start := logical * per;
    end := start + per;
    if logical == n - 1 { end := count; }
  }

  /** computemontagmask of a listed monitor. */
  method ComputeMask(count: nat, mons: seq<Monitor>, num: nat, ghost at: nat) returns (mask: set<nat>)
    requires count > 0 && Numbered(mons) && at < |mons| && mons[at].num == num
    ensures mask == MaskOf(count, mons, at)
  {
    var i := 0;
    while mons[i].num != num
      invariant 0 <= i <= at
      decreases at - i
    {
      i := i + 1;
    }
    assert i == at;
    var logical := GetLogicalIndex(mons, mons[i], at);
    if |mons| <= 1 { return AllTags(count); }
    var start, end := Deal(count, |mons|, logical);
    mask := SetBits(count, start, end, num);
  }
}
