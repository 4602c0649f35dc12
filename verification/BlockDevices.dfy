/** parse_root_encryption's reading of the nested device listing into a graph. The listing may
    repeat a device under several parents; the repetitions must agree. */
module BlockDevices {
  import opened Results
  import opened DeviceGraph
  import opened RootEncryption

  const ENCRYPTION_RECORDS := 1024

  /** pkname as listed: null, a usable name, or anything else. */
  datatype KernelParent = NoParent | KernelName(name: string) | BadParent

  /** One listed device with its children. Bad stands for an entry that is not an object, lacks a
      key, or has a field that is not a usable token. */
  datatype Item =
    | Bad
    | Device(name: string, metadata: Metadata, kernelParent: KernelParent, children: seq<Item>)

  /** One occurrence of a device: under which device it is listed, if any. */
  datatype Row = Row(name: string, metadata: Metadata, kernelParent: KernelParent, under: Option<string>)

  type Pending = (Item, Option<string>)

  // ---- what the listing says ----

  ghost function Rows(items: seq<Item>, under: Option<string>): set<Row> {
    if items == [] then {} else RowsOf(items[0], under) + Rows(items[1..], under)
  }

  ghost function RowsOf(item: Item, under: Option<string>): set<Row> {
    match item
    case Bad => {}
    case Device(name, metadata, kernelParent, children) =>
      {Row(name, metadata, kernelParent, under)} + Rows(children, Some(name))
  }

  ghost predicate Readable(items: seq<Item>) {
    items == [] || (ReadableItem(items[0]) && Readable(items[1..]))
  }

  ghost predicate ReadableItem(item: Item) { item.Device? && Readable(item.children) }

  function Size(items: seq<Item>): nat {
    if items == [] then 0 else SizeOf(items[0]) + Size(items[1..])
  }

  function SizeOf(item: Item): (n: nat)
    ensures n > 0
  {
    match item case Bad => 1 case Device(_, _, _, children) => 1 + Size(children)
  }

  ghost function Names(rows: set<Row>): set<string> { set r | r in rows :: r.name }

  /** Two occurrences agree: one device has one description, and below the top one parent has one
      kernel name, which no other parent has. */
  predicate Agree(a: Row, b: Row) {
    && (a.name == b.name ==> a.metadata == b.metadata)
    && (a.under.Some? && b.under.Some? ==> (a.under == b.under <==> a.kernelParent == b.kernelParent))
  }

  /** A device without a parent device names no kernel parent; any other names one. */
  predicate Placed(r: Row) {
    if r.under.None? then r.kernelParent == NoParent else r.kernelParent.KernelName?
  }

  ghost predicate Coherent(rows: set<Row>) {
    && (forall r :: r in rows ==> Placed(r))
    && (forall a, b :: a in rows && b in rows ==> Agree(a, b))
    && |Names(rows)| <= ENCRYPTION_RECORDS
  }

  // ---- the tables built from the occurrences read so far ----

  datatype Tables = Tables(
    order: seq<string>,
    nodes: map<string, Metadata>,
    parents: map<string, set<string>>,
    aliases: map<string, string>,
    aliasOwners: map<string, string>,
    roots: set<string>,
    topLevel: set<string>)

  const EMPTY := Tables([], map[], map[], map[], map[], {}, {})

  /** An occurrence is in every table it belongs to. */
  ghost predicate RowRecorded(t: Tables, r: Row) {
    && Placed(r)
    && r.name in t.nodes && t.nodes[r.name] == r.metadata && r.name in t.parents
    && ("/" in r.metadata.mounts ==> r.name in t.roots)
    && match r.under
       case None => r.name in t.topLevel
       case Some(p) =>
         && p in t.nodes && p in t.parents[r.name]
         && p in t.aliases && r.kernelParent == KernelName(t.aliases[p])
         && t.aliases[p] in t.aliasOwners && t.aliasOwners[t.aliases[p]] == p
  }

  ghost predicate Listed(rows: set<Row>, name: string, under: Option<string>) {
    exists r :: r in rows && r.name == name && r.under == under
  }

  ghost predicate Aliased(rows: set<Row>, parent: string, kernelName: string) {
    exists r :: r in rows && r.under == Some(parent) && r.kernelParent == KernelName(kernelName)
  }

  ghost predicate Rooted(rows: set<Row>, name: string) {
    exists r :: r in rows && r.name == name && "/" in r.metadata.mounts
  }

  ghost predicate DistinctOrder(order: seq<string>, nodes: map<string, Metadata>) {
    && (forall i, k :: 0 <= i < k < |order| ==> order[i] != order[k])
    && (forall n :: n in order <==> n in nodes)
  }

  /** What the tables hold: every occurrence, and nothing that does not come from one. */
  ghost predicate TableSound(t: Tables, rows: set<Row>, table: nat) {
    match table
    case 0 => forall r :: r in rows ==> RowRecorded(t, r)
    case 1 => t.nodes.Keys == t.parents.Keys == Names(rows) && |t.nodes| <= ENCRYPTION_RECORDS
    case 2 => forall n, p :: n in t.parents && p in t.parents[n] ==> Listed(rows, n, Some(p))
    case 3 => forall n :: n in t.roots ==> Rooted(rows, n)
    case 4 => forall n :: n in t.topLevel ==> Listed(rows, n, None)
    case 5 => forall p :: p in t.aliases ==> Aliased(rows, p, t.aliases[p])
    case 6 => forall k :: k in t.aliasOwners ==> Aliased(rows, t.aliasOwners[k], k)
    case 7 => DistinctOrder(t.order, t.nodes)
    case _ => true
  }

  ghost predicate Recorded(t: Tables, rows: set<Row>) {
    forall table :: 0 <= table < 8 ==> TableSound(t, rows, table)
  }

  // ---- reading one occurrence ----

  /** The tables after one more occurrence, or None when it contradicts an earlier one. */
  function AddNode(t: Tables, r: Row): Option<Tables> {
    if r.name in t.nodes then
      if t.nodes[r.name] != r.metadata then None else Some(t)
    else if |t.nodes| >= ENCRYPTION_RECORDS then None
    else Some(t.(order := t.order + [r.name], nodes := t.nodes[r.name := r.metadata],
                 parents := t.parents[r.name := {}]))
  }

  function AddMount(t: Tables, r: Row): Tables {
    if "/" in r.metadata.mounts then t.(roots := t.roots + {r.name}) else t
  }

  function AddParent(t: Tables, r: Row): Option<Tables>
    requires r.name in t.parents
  {
    match (r.under, r.kernelParent)
    case (None, NoParent) => Some(t.(topLevel := t.topLevel + {r.name}))
    case (Some(p), KernelName(k)) =>
      if (p in t.aliases && t.aliases[p] != k) || (k in t.aliasOwners && t.aliasOwners[k] != p) then None
      else Some(t.(aliases := t.aliases[p := k], aliasOwners := t.aliasOwners[k := p],
                   parents := t.parents[r.name := t.parents[r.name] + {p}]))
    case _ => None
  }

  function AddRow(t: Tables, r: Row): Option<Tables>
    requires t.nodes.Keys == t.parents.Keys
  {
    match AddNode(t, r)
    case None => None
    case Some(u) => AddParent(AddMount(u, r), r)
  }

  ghost predicate Fits(rows: set<Row>, r: Row) {
    && Placed(r)
    && (forall a :: a in rows ==> Agree(a, r))
    && |Names(rows + {r})| <= ENCRYPTION_RECORDS
  }

  lemma NamesPlus(rows: set<Row>, r: Row)
    ensures Names(rows + {r}) == Names(rows) + {r.name}
  {
    assert r in rows + {r};
    forall n | n in Names(rows) + {r.name} ensures n in Names(rows + {r}) {
      if n in Names(rows) {
        var a :| a in rows && a.name == n;
        assert a in rows + {r};
      }
    }
  }

  lemma NodeRefusal(t: Tables, rows: set<Row>, r: Row)
    requires Recorded(t, rows) && AddNode(t, r).None?
    ensures !Fits(rows, r)
  {
    assert TableSound(t, rows, 0) && TableSound(t, rows, 1);
    if r.name in t.nodes {
      var a :| a in rows && a.name == r.name;
      assert RowRecorded(t, a) && !Agree(a, r);
    } else {
      NamesPlus(rows, r);
      assert |Names(rows) + {r.name}| == |t.nodes.Keys| + 1;
    }
  }

  lemma ParentRefusal(t: Tables, rows: set<Row>, r: Row, p: string, k: string)
    requires Recorded(t, rows) && r.under == Some(p) && r.kernelParent == KernelName(k)
    requires (p in t.aliases && t.aliases[p] != k) || (k in t.aliasOwners && t.aliasOwners[k] != p)
    ensures !Fits(rows, r)
  {
    assert TableSound(t, rows, 5) && TableSound(t, rows, 6);
    if p in t.aliases && t.aliases[p] != k {
      assert Aliased(rows, p, t.aliases[p]);
      var a :| a in rows && a.under == Some(p) && a.kernelParent == KernelName(t.aliases[p]);
      assert !Agree(a, r);
    } else {
      assert Aliased(rows, t.aliasOwners[k], k);
      var a :| a in rows && a.under == Some(t.aliasOwners[k]) && a.kernelParent == KernelName(k);
      assert !Agree(a, r);
    }
  }

  /** An occurrence is refused only when it does not fit the ones before it. */
  lemma RefusalIsConflict(t: Tables, rows: set<Row>, r: Row)
    requires Recorded(t, rows) && t.nodes.Keys == t.parents.Keys && AddRow(t, r).None?
    ensures !Fits(rows, r)
  {
    if AddNode(t, r).None? {
      NodeRefusal(t, rows, r);
    } else if r.under.Some? && r.kernelParent.KernelName? {
      ParentRefusal(t, rows, r, r.under.value, r.kernelParent.name);
    }
  }

  lemma EarlierRecorded(t: Tables, r: Row, a: Row)
    requires t.nodes.Keys == t.parents.Keys && AddRow(t, r).Some? && RowRecorded(t, a)
    ensures RowRecorded(AddRow(t, r).value, a)
  {}

  lemma NewRecorded(t: Tables, r: Row)
    requires t.nodes.Keys == t.parents.Keys && AddRow(t, r).Some? && (r.under.Some? ==> r.under.value in t.nodes)
    ensures RowRecorded(AddRow(t, r).value, r)
  {}

  lemma ListedMore(rows: set<Row>, r: Row, name: string, under: Option<string>)
    ensures Listed(rows, name, under) || (r.name == name && r.under == under) ==> Listed(rows + {r}, name, under)
  {
    if a :| a in rows && a.name == name && a.under == under { assert a in rows + {r}; }
    assert r in rows + {r};
  }

  lemma AliasedMore(rows: set<Row>, r: Row, parent: string, kernelName: string)
    ensures Aliased(rows, parent, kernelName) || (r.under == Some(parent) && r.kernelParent == KernelName(kernelName))
            ==> Aliased(rows + {r}, parent, kernelName)
  {
    if a :| a in rows && a.under == Some(parent) && a.kernelParent == KernelName(kernelName) { assert a in rows + {r}; }
    assert r in rows + {r};
  }

  lemma RootedMore(rows: set<Row>, r: Row, name: string)
    ensures Rooted(rows, name) || (r.name == name && "/" in r.metadata.mounts) ==> Rooted(rows + {r}, name)
  {
    if a :| a in rows && a.name == name && "/" in a.metadata.mounts { assert a in rows + {r}; }
    assert r in rows + {r};
  }

  lemma NodeKeys(t: Tables, r: Row)
    requires t.nodes.Keys == t.parents.Keys && AddNode(t, r).Some?
    ensures AddNode(t, r).value.nodes.Keys == t.nodes.Keys + {r.name}
    ensures AddNode(t, r).value.parents.Keys == t.nodes.Keys + {r.name}
  {}

  lemma ParentKeys(t: Tables, r: Row)
    requires r.name in t.parents && AddParent(t, r).Some?
    ensures AddParent(t, r).value.nodes == t.nodes && AddParent(t, r).value.parents.Keys == t.parents.Keys
  {}

  lemma KeysKeep(t: Tables, r: Row)
    requires t.nodes.Keys == t.parents.Keys && AddRow(t, r).Some?
    ensures AddRow(t, r).value.nodes.Keys == t.nodes.Keys + {r.name}
    ensures AddRow(t, r).value.parents.Keys == t.nodes.Keys + {r.name}
  {
    NodeKeys(t, r);
    ParentKeys(AddMount(AddNode(t, r).value, r), r);
  }

  lemma CountKeeps(t: Tables, r: Row)
    requires t.nodes.Keys == t.parents.Keys && AddRow(t, r).Some? && |t.nodes| <= ENCRYPTION_RECORDS
    ensures |AddRow(t, r).value.nodes| <= ENCRYPTION_RECORDS
  {
    if r.name !in t.nodes { assert |t.nodes[r.name := r.metadata]| == |t.nodes| + 1; }
  }

  lemma NodesKeep(t: Tables, rows: set<Row>, r: Row)
    requires t.nodes.Keys == t.parents.Keys && AddRow(t, r).Some? && TableSound(t, rows, 1)
    ensures TableSound(AddRow(t, r).value, rows + {r}, 1)
  {
    NamesPlus(rows, r);
    KeysKeep(t, r);
    CountKeeps(t, r);
  }

  lemma OrderKeeps(t: Tables, rows: set<Row>, r: Row)
    requires t.nodes.Keys == t.parents.Keys && AddRow(t, r).Some? && DistinctOrder(t.order, t.nodes)
    ensures DistinctOrder(AddRow(t, r).value.order, AddRow(t, r).value.nodes)
  {
    if r.name !in t.nodes {
      var order, nodes := t.order + [r.name], t.nodes[r.name := r.metadata];
      forall n ensures n in order <==> n in nodes { assert n in order <==> n in t.order || n == r.name; }
      assert DistinctOrder(order, nodes);
    }
  }

  lemma ParentsKeep(t: Tables, rows: set<Row>, r: Row)
    requires t.nodes.Keys == t.parents.Keys && AddRow(t, r).Some? && TableSound(t, rows, 2)
    ensures TableSound(AddRow(t, r).value, rows + {r}, 2)
  {
    var u := AddRow(t, r).value;
    forall n, p | n in u.parents && p in u.parents[n] ensures Listed(rows + {r}, n, Some(p)) {
      ListedMore(rows, r, n, Some(p));
    }
  }

  lemma MarksKeep(t: Tables, rows: set<Row>, r: Row)
    requires t.nodes.Keys == t.parents.Keys && AddRow(t, r).Some? && TableSound(t, rows, 3) && TableSound(t, rows, 4)
    ensures TableSound(AddRow(t, r).value, rows + {r}, 3) && TableSound(AddRow(t, r).value, rows + {r}, 4)
  {
    var u := AddRow(t, r).value;
    forall n | n in u.roots ensures Rooted(rows + {r}, n) { RootedMore(rows, r, n); }
    forall n | n in u.topLevel ensures Listed(rows + {r}, n, None) { ListedMore(rows, r, n, None); }
  }

  lemma AliasesKeep(t: Tables, rows: set<Row>, r: Row)
    requires t.nodes.Keys == t.parents.Keys && AddRow(t, r).Some? && TableSound(t, rows, 5) && TableSound(t, rows, 6)
    ensures TableSound(AddRow(t, r).value, rows + {r}, 5) && TableSound(AddRow(t, r).value, rows + {r}, 6)
  {
    var u := AddRow(t, r).value;
    forall p | p in u.aliases ensures Aliased(rows + {r}, p, u.aliases[p]) { AliasedMore(rows, r, p, u.aliases[p]); }
    forall k | k in u.aliasOwners ensures Aliased(rows + {r}, u.aliasOwners[k], k) {
      AliasedMore(rows, r, u.aliasOwners[k], k);
    }
  }

  lemma RowsKeep(t: Tables, rows: set<Row>, r: Row)
    requires t.nodes.Keys == t.parents.Keys && AddRow(t, r).Some? && (r.under.Some? ==> r.under.value in t.nodes)
    requires TableSound(t, rows, 0)
    ensures TableSound(AddRow(t, r).value, rows + {r}, 0)
  {
    forall a | a in rows ensures RowRecorded(AddRow(t, r).value, a) { EarlierRecorded(t, r, a); }
    NewRecorded(t, r);
  }

  lemma KeysAgree(t: Tables, rows: set<Row>)
    requires Recorded(t, rows)
    ensures t.nodes.Keys == t.parents.Keys == Names(rows)
  {
    assert TableSound(t, rows, 1);
  }

  lemma RowKeeps(t: Tables, rows: set<Row>, r: Row)
    requires Recorded(t, rows) && t.nodes.Keys == t.parents.Keys && AddRow(t, r).Some?
    requires r.under.Some? ==> r.under.value in t.nodes
    ensures Recorded(AddRow(t, r).value, rows + {r}) && AddRow(t, r).value.nodes.Keys == t.nodes.Keys + {r.name}
  {
    forall table | 0 <= table < 8
      ensures TableSound(AddRow(t, r).value, rows + {r}, table)
    {
      assert TableSound(t, rows, table);
      match table {
        case 0 => RowsKeep(t, rows, r);
        case 1 => NodesKeep(t, rows, r);
        case 2 => ParentsKeep(t, rows, r);
        case 3 => assert TableSound(t, rows, 4); MarksKeep(t, rows, r);
        case 4 => assert TableSound(t, rows, 3); MarksKeep(t, rows, r);
        case 5 => assert TableSound(t, rows, 6); AliasesKeep(t, rows, r);
        case 6 => assert TableSound(t, rows, 5); AliasesKeep(t, rows, r);
        case _ => OrderKeeps(t, rows, r);
      }
    }
    KeysKeep(t, r);
  }

  // ---- reading the listing ----

  ghost function PendingRows(pending: seq<Pending>): set<Row> {
    if pending == [] then {} else RowsOf(pending[0].0, pending[0].1) + PendingRows(pending[1..])
  }

  ghost predicate PendingReadable(pending: seq<Pending>) {
    forall i :: 0 <= i < |pending| ==> ReadableItem(pending[i].0)
  }

  function PendingSize(pending: seq<Pending>): nat {
    if pending == [] then 0 else SizeOf(pending[0].0) + PendingSize(pending[1..])
  }

  function Under(items: seq<Item>, under: Option<string>): (pending: seq<Pending>)
    ensures |pending| == |items| && forall i :: 0 <= i < |items| ==> pending[i] == (items[i], under)
  {
    if items == [] then [] else [(items[0], under)] + Under(items[1..], under)
  }

  lemma {:induction false} PendingConcat(a: seq<Pending>, b: seq<Pending>)
    ensures PendingRows(a + b) == PendingRows(a) + PendingRows(b)
    ensures PendingSize(a + b) == PendingSize(a) + PendingSize(b)
  {
    if a == [] {
      assert a + b == b;
    } else {
      assert (a + b)[1..] == a[1..] + b;
      PendingConcat(a[1..], b);
    }
  }

  lemma {:induction false} UnderMeans(items: seq<Item>, under: Option<string>)
    ensures PendingRows(Under(items, under)) == Rows(items, under)
    ensures PendingSize(Under(items, under)) == Size(items)
    ensures PendingReadable(Under(items, under)) <==> Readable(items)
  {
    if items != [] {
      UnderMeans(items[1..], under);
      var pending, rest := Under(items, under), Under(items[1..], under);
      assert pending[1..] == rest && pending[0] == (items[0], under);
      if PendingReadable(rest) && ReadableItem(items[0]) {
        forall i | 0 <= i < |pending| ensures ReadableItem(pending[i].0) {
          if i > 0 { assert pending[i] == rest[i - 1]; }
        }
      }
      if PendingReadable(pending) {
        forall i | 0 <= i < |rest| ensures ReadableItem(rest[i].0) { assert rest[i] == pending[i + 1]; }
      }
    }
  }

  /** Popping a device off the pending ones and pushing its children. */
  lemma PopDevice(pending: seq<Pending>)
    requires pending != [] && pending[|pending| - 1].0.Device?
    ensures var (item, under) := pending[|pending| - 1];
      var rest := pending[..|pending| - 1] + Under(item.children, Some(item.name));
      && PendingRows(pending) == PendingRows(rest) + {Row(item.name, item.metadata, item.kernelParent, under)}
      && PendingSize(rest) < PendingSize(pending)
      && (PendingReadable(pending) <==> PendingReadable(rest))
  {
    var (item, under) := pending[|pending| - 1];
    var before, children := pending[..|pending| - 1], Under(item.children, Some(item.name));
    assert pending == before + [(item, under)];
    PendingConcat(before, [(item, under)]);
    PendingConcat(before, children);
    UnderMeans(item.children, Some(item.name));
    assert PendingRows([(item, under)]) == RowsOf(item, under) && PendingSize([(item, under)]) == SizeOf(item);
    PopReadable(before, (item, under), children);
  }

  lemma PopReadable(before: seq<Pending>, top: Pending, children: seq<Pending>)
    requires top.0.Device? && (PendingReadable(children) <==> Readable(top.0.children))
    ensures PendingReadable(before + [top]) <==> PendingReadable(before + children)
  {
    var whole, rest := before + [top], before + children;
    if PendingReadable(whole) {
      assert whole[|before|] == top && ReadableItem(top.0);
      forall i | 0 <= i < |rest| ensures ReadableItem(rest[i].0) {
        if i < |before| { assert rest[i] == whole[i]; } else { assert rest[i] == children[i - |before|]; }
      }
    }
    if PendingReadable(rest) {
      forall i | 0 <= i < |children| ensures ReadableItem(children[i].0) { assert children[i] == rest[|before| + i]; }
      forall i | 0 <= i < |whole| ensures ReadableItem(whole[i].0) { if i < |before| { assert whole[i] == rest[i]; } }
    }
  }

  lemma ConflictSpreads(rows: set<Row>, r: Row, all: set<Row>)
    requires !Fits(rows, r) && rows + {r} <= all
    ensures !Coherent(all)
  {
    if |Names(rows + {r})| > ENCRYPTION_RECORDS {
      forall n | n in Names(rows + {r}) ensures n in Names(all) {}
      SubsetSize(Names(rows + {r}), Names(all));
    }
  }

  lemma SubsetSize(a: set<string>, b: set<string>)
    requires a <= b
    ensures |a| <= |b|
  {
    assert b == a + (b - a);
  }

  lemma RecordedCoherent(t: Tables, rows: set<Row>)
    requires Recorded(t, rows)
    ensures Coherent(rows)
  {
    assert TableSound(t, rows, 0) && TableSound(t, rows, 1);
    forall a, b | a in rows && b in rows ensures Agree(a, b) { assert RowRecorded(t, a) && RowRecorded(t, b); }
  }

  ghost predicate PendingKnown(t: Tables, pending: seq<Pending>) {
    forall i :: 0 <= i < |pending| && pending[i].1.Some? ==> pending[i].1.value in t.nodes
  }

  lemma EmptyRecorded()
    ensures Recorded(EMPTY, {})
  {
    forall table | 0 <= table < 8 ensures TableSound(EMPTY, {}, table) {}
  }

  lemma KnownAfter(t: Tables, u: Tables, pending: seq<Pending>, name: string, children: seq<Item>)
    requires PendingKnown(t, pending) && pending != [] && u.nodes.Keys == t.nodes.Keys + {name}
    ensures PendingKnown(u, pending[..|pending| - 1] + Under(children, Some(name)))
  {}

  /** Read the whole listing, last pushed first; None exactly when it is unreadable or incoherent. */
  method Build(items: seq<Item>) returns (r: Option<Tables>)
    ensures r.Some? <==> Readable(items) && Coherent(Rows(items, None))
    ensures r.Some? ==> Recorded(r.value, Rows(items, None))
  {
    var pending, t := Under(items, None), EMPTY;
    ghost var all, rows: set<Row> := Rows(items, None), {};
    UnderMeans(items, None);
    EmptyRecorded();
    while pending != []
      invariant Recorded(t, rows) && PendingKnown(t, pending)
      invariant rows + PendingRows(pending) == all
      invariant PendingReadable(pending) <==> Readable(items)
      decreases PendingSize(pending)
    {
      var (item, under) := pending[|pending| - 1];
      if item.Bad? { return None; }
      var row := Row(item.name, item.metadata, item.kernelParent, under);
      PopDevice(pending);
      KeysAgree(t, rows);
      var added := AddRow(t, row);
      if added.None? {
        RefusalIsConflict(t, rows, row);
        ConflictSpreads(rows, row, all);
        return None;
      }
      RowKeeps(t, rows, row);
      KnownAfter(t, added.value, pending, item.name, item.children);
      t, rows := added.value, rows + {row};
      pending := pending[..|pending| - 1] + Under(item.children, Some(item.name));
    }
    RecordedCoherent(t, rows);
    return Some(t);
  }

  // ---- the checks on the finished tables ----

  /** dm- and ASCII digits. */
  predicate IsMapperName(s: string) {
    |s| > 3 && s[..3] == "dm-" && forall i :: 3 <= i < |s| ==> '0' <= s[i] <= '9'
  }

  predicate AliasSound(t: Tables, n: string)
    requires n in t.nodes
  {
    n in t.aliases && t.aliases[n] != n ==>
      && IsMapperName(t.aliases[n]) && t.aliases[n] !in t.nodes
      && t.nodes[n].deviceType != "disk" && t.nodes[n].deviceType != "rom" && t.nodes[n].deviceType != "loop"
  }

  /** The two checks on each name, in turn. */
  predicate NameSound(t: Tables, n: string)
    requires n in t.nodes && t.nodes.Keys == t.parents.Keys
  {
    (n in t.topLevel ==> t.parents[n] == {}) && AliasSound(t, n)
  }

  /** No device is listed both at the top and under another; ... */
  ghost predicate TopSound(rows: set<Row>) {
    forall a, b :: a in rows && b in rows && a.name == b.name && a.under.None? ==> b.under.None?
  }

  ghost predicate AliasRowsSound(rows: set<Row>, a: Row, b: Row) {
    b.under == Some(a.name) && b.kernelParent.KernelName? && b.kernelParent.name != a.name ==>
      && IsMapperName(b.kernelParent.name) && b.kernelParent.name !in Names(rows)
      && a.metadata.deviceType != "disk" && a.metadata.deviceType != "rom" && a.metadata.deviceType != "loop"
  }

  /** ... and only a mapped device has a kernel name of its own, which is no listed name. */
  ghost predicate AliasesSound(rows: set<Row>) {
    forall a, b :: a in rows && b in rows ==> AliasRowsSound(rows, a, b)
  }

  ghost predicate WellListed(items: seq<Item>) {
    var rows := Rows(items, None);
    && Readable(items) && Coherent(rows)
    && (exists r :: r in rows && "/" in r.metadata.mounts)
    && TopSound(rows) && AliasesSound(rows)
  }

  /** The graph and the root devices that a listing describes. */
  ghost predicate Describes(g: Graph, roots: set<string>, rows: set<Row>) {
    && Closed(g) && g.nodes.Keys == Names(rows)
    && (forall r :: r in rows ==> g.nodes[r.name] == r.metadata)
    && (forall n, p :: Rests(g, n, p) <==> Listed(rows, n, Some(p)))
    && (forall n :: n in roots <==> Rooted(rows, n))
  }

  lemma TopMeans(t: Tables, rows: set<Row>)
    requires Recorded(t, rows) && t.nodes.Keys == t.parents.Keys
    ensures TopSound(rows) <==> forall n :: n in t.nodes && n in t.topLevel ==> t.parents[n] == {}
  {
    assert TableSound(t, rows, 0) && TableSound(t, rows, 1) && TableSound(t, rows, 2) && TableSound(t, rows, 4);
    if TopSound(rows) {
      forall n | n in t.nodes && n in t.topLevel ensures t.parents[n] == {} {
        assert Listed(rows, n, None);
        forall p ensures p !in t.parents[n] { assert !Listed(rows, n, Some(p)); }
      }
    } else {
      var a, b :| a in rows && b in rows && a.name == b.name && a.under.None? && b.under.Some?;
      assert RowRecorded(t, a) && RowRecorded(t, b);
    }
  }

  lemma AliasFromRows(t: Tables, rows: set<Row>, n: string)
    requires Recorded(t, rows) && AliasesSound(rows) && n in t.nodes
    ensures AliasSound(t, n)
  {
    assert TableSound(t, rows, 0) && TableSound(t, rows, 1) && TableSound(t, rows, 5);
    var a :| a in rows && a.name == n;
    assert RowRecorded(t, a);
    if n in t.aliases {
      assert Aliased(rows, n, t.aliases[n]);
      var b :| b in rows && b.under == Some(n) && b.kernelParent == KernelName(t.aliases[n]);
      assert AliasRowsSound(rows, a, b);
    }
  }

  lemma AliasFromTables(t: Tables, rows: set<Row>, a: Row, b: Row)
    requires Recorded(t, rows) && a in rows && b in rows && a.name in t.nodes && AliasSound(t, a.name)
    ensures AliasRowsSound(rows, a, b)
  {
    assert TableSound(t, rows, 0) && TableSound(t, rows, 1);
    assert RowRecorded(t, a) && RowRecorded(t, b);
  }

  lemma AliasMeans(t: Tables, rows: set<Row>)
    requires Recorded(t, rows)
    ensures AliasesSound(rows) <==> forall n :: n in t.nodes ==> AliasSound(t, n)
  {
    assert TableSound(t, rows, 1);
    if AliasesSound(rows) {
      forall n | n in t.nodes ensures AliasSound(t, n) { AliasFromRows(t, rows, n); }
    } else {
      var a, b :| a in rows && b in rows && !AliasRowsSound(rows, a, b);
      if AliasSound(t, a.name) { AliasFromTables(t, rows, a, b); }
    }
  }

  lemma TablesDescribe(t: Tables, rows: set<Row>)
    requires Recorded(t, rows) && t.nodes.Keys == t.parents.Keys
    ensures Describes(Graph(t.order, t.nodes, t.parents), t.roots, rows)
  {
    assert TableSound(t, rows, 0) && TableSound(t, rows, 1) && TableSound(t, rows, 2);
    assert TableSound(t, rows, 3) && TableSound(t, rows, 7);
    var g := Graph(t.order, t.nodes, t.parents);
    forall n, p ensures Rests(g, n, p) <==> Listed(rows, n, Some(p)) {
      if r :| r in rows && r.name == n && r.under == Some(p) { assert RowRecorded(t, r); }
    }
    forall n ensures n in t.roots <==> Rooted(rows, n) {
      if r :| r in rows && r.name == n && "/" in r.metadata.mounts { assert RowRecorded(t, r); }
    }
    forall n, p | n in g.parents && p in g.parents[n] ensures p in g.nodes {
      var r :| r in rows && r.name == n && r.under == Some(p);
      assert RowRecorded(t, r);
    }
    forall r | r in rows ensures g.nodes[r.name] == r.metadata { assert RowRecorded(t, r); }
  }

  lemma RootsMean(t: Tables, rows: set<Row>)
    requires Recorded(t, rows)
    ensures t.roots != {} <==> exists r :: r in rows && "/" in r.metadata.mounts
  {
    assert TableSound(t, rows, 0) && TableSound(t, rows, 3);
    if r :| r in rows && "/" in r.metadata.mounts { assert RowRecorded(t, r); }
    if n :| n in t.roots { assert Rooted(rows, n); }
  }

  /** Whether a listing is well formed can be read off the tables built from it. */
  lemma WellListedMeans(t: Tables, items: seq<Item>)
    requires Readable(items) && Coherent(Rows(items, None)) && Recorded(t, Rows(items, None))
    requires t.nodes.Keys == t.parents.Keys
    ensures WellListed(items) <==> t.roots != {} && forall n :: n in t.nodes ==> NameSound(t, n)
  {
    var rows := Rows(items, None);
    RootsMean(t, rows);
    TopMeans(t, rows);
    AliasMeans(t, rows);
  }

  method CheckNames(t: Tables) returns (sound: bool)
    requires DistinctOrder(t.order, t.nodes) && t.nodes.Keys == t.parents.Keys
    ensures sound <==> forall n :: n in t.nodes ==> NameSound(t, n)
  {
    var next := 0;
    while next < |t.order|
      invariant 0 <= next <= |t.order|
      invariant forall i :: 0 <= i < next ==> t.order[i] in t.nodes && NameSound(t, t.order[i])
    {
      assert t.order[next] in t.order;
      if !NameSound(t, t.order[next]) { return false; }
      next := next + 1;
    }
    forall n | n in t.nodes ensures NameSound(t, n) { assert n in t.order; }
    return true;
  }

  /** parse_root_encryption: a verdict exactly as the described graph warrants. */
  method ParseRootEncryption(items: seq<Item>) returns (v: Verdict, ghost g: Graph, ghost roots: set<string>)
    ensures !WellListed(items) ==> v == Malformed
    ensures WellListed(items) ==>
      && Describes(g, roots, Rows(items, None))
      && (v == Encrypted <==> Assessable(g, roots) && AllCross(g, roots))
      && (v == Unencrypted <==> Assessable(g, roots) && NoneCross(g, roots))
  {
    v, g, roots := Malformed, Graph([], map[], map[]), {};
    var built := Build(items);
    if built.None? { return; }
    var t := built.value;
    KeysAgree(t, Rows(items, None));
    TablesDescribe(t, Rows(items, None));
    WellListedMeans(t, items);
    assert TableSound(t, Rows(items, None), 7);
    g, roots := Graph(t.order, t.nodes, t.parents), t.roots;
    if t.roots == {} { return; }
    var sound := CheckNames(t);
    if !sound { return; }
    RootsKnown(g, roots, Rows(items, None));
    v := Classify(Graph(t.order, t.nodes, t.parents), t.roots);
  }

  lemma RootsKnown(g: Graph, roots: set<string>, rows: set<Row>)
    requires Describes(g, roots, rows)
    ensures Closed(g) && roots <= g.nodes.Keys
  {
    forall n | n in roots ensures n in g.nodes { assert Rooted(rows, n); }
  }
}
