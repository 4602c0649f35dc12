/** snapshot_generation: what the bytes it hashes say about a set of updates and its plan. */
module Generations {
  import opened Utf8
  import opened Frames
  import opened DualFile
  import opened Order

  /** A plan row; generation_fields lists all its fields, the action first. */
  datatype PlanRow = PlanRow(packageId: string, action: string, name: string, version: string, summary: string)

  function GenerationFields(r: PlanRow): (fields: seq<string>)
    ensures |fields| == 5
  {
    [r.action, r.packageId, r.name, r.version, r.summary]
  }

  // ---- the sort keys ----

  const BYTE_ORDER: (Byte, Byte) -> bool := (a, b) => a < b

  function IdKey(id: string): seq<Byte> { Encode(id) }

  function EncodedFields(fields: seq<string>): (encoded: seq<seq<Byte>>)
    ensures |encoded| == |fields|
  {
    if fields == [] then [] else [Encode(fields[0])] + EncodedFields(fields[1..])
  }

  function RowKey(r: PlanRow): seq<seq<Byte>> { EncodedFields(GenerationFields(r)) }

  function IdOrder(): (string, string) -> bool { KeyOrder(IdKey, LexOrder(BYTE_ORDER)) }

  function RowOrder(): (PlanRow, PlanRow) -> bool { KeyOrder(RowKey, LexOrder(LexOrder(BYTE_ORDER))) }

  lemma EncodeInjective(a: string, b: string)
    requires Encode(a) == Encode(b)
    ensures a == b
  {
    DecodeEncode(a);
    DecodeEncode(b);
  }

  lemma {:induction false} FieldsInjective(a: seq<string>, b: seq<string>)
    requires EncodedFields(a) == EncodedFields(b)
    ensures a == b
  {
    assert |a| == |b|;
    if a != [] {
      assert EncodedFields(a)[0] == EncodedFields(b)[0] && EncodedFields(a)[1..] == EncodedFields(b)[1..];
      EncodeInjective(a[0], b[0]);
      FieldsInjective(a[1..], b[1..]);
      assert a == [a[0]] + a[1..] && b == [b[0]] + b[1..];
    }
  }

  lemma RowInjective(a: PlanRow, b: PlanRow)
    requires GenerationFields(a) == GenerationFields(b)
    ensures a == b
  {
    var f, g := GenerationFields(a), GenerationFields(b);
    assert f[0] == g[0] && f[1] == g[1] && f[2] == g[2] && f[3] == g[3] && f[4] == g[4];
  }

  lemma BytesAreStrict()
    ensures Strict(BYTE_ORDER)
  {}

  lemma IdOrderIsStrict()
    ensures Strict(IdOrder())
  {
    BytesAreStrict();
    LexIsStrict(BYTE_ORDER);
    forall a, b | Key(IdKey, a) == Key(IdKey, b) ensures a == b { EncodeInjective(a, b); }
    KeyIsStrict(IdKey, LexOrder(BYTE_ORDER));
  }

  lemma RowOrderIsStrict()
    ensures Strict(RowOrder())
  {
    BytesAreStrict();
    LexIsStrict(BYTE_ORDER);
    LexIsStrict(LexOrder(BYTE_ORDER));
    forall a, b | Key(RowKey, a) == Key(RowKey, b) ensures a == b {
      FieldsInjective(GenerationFields(a), GenerationFields(b));
      RowInjective(a, b);
    }
    KeyIsStrict(RowKey, LexOrder(LexOrder(BYTE_ORDER)));
  }

  // ---- the hashed bytes ----

  /** int.to_bytes(8, "big"). */
  function BigEndian8(n: nat): (b: seq<Byte>)
    ensures |b| == 8
  {
    Reversed(LittleEndian(n, 8))
  }

  function Reversed(b: seq<Byte>): (r: seq<Byte>)
    ensures |r| == |b| && forall i :: 0 <= i < |b| ==> r[i] == b[|b| - 1 - i]
  {
    seq(|b|, i requires 0 <= i < |b| => b[|b| - 1 - i])
  }

  lemma BigEndian8Injective(m: nat, n: nat)
    requires m < Power256(8) && n < Power256(8) && BigEndian8(m) == BigEndian8(n)
    ensures m == n
  {
    var a, b := LittleEndian(m, 8), LittleEndian(n, 8);
    forall i | 0 <= i < 8 ensures a[i] == b[i] {
      assert a[i] == BigEndian8(m)[7 - i] == BigEndian8(n)[7 - i] == b[i];
    }
    assert a == b;
    LittleEndianRoundTrip(m, 8);
    LittleEndianRoundTrip(n, 8);
  }

  /** to_bytes raises OverflowError beyond this. */
  predicate Fits(s: string) { |Encode(s)| < Power256(8) }

  predicate AllFit(fields: seq<string>) { forall i :: 0 <= i < |fields| ==> Fits(fields[i]) }

  function Prefixed(s: string): seq<Byte> { BigEndian8(|Encode(s)|) + Encode(s) }

  function FieldBytes(fields: seq<string>): seq<Byte> {
    if fields == [] then [] else Prefixed(fields[0]) + FieldBytes(fields[1..])
  }

  /** b"U" and b"P". */
  const UPDATE_TAG: Byte := 0x55
  const PLAN_TAG: Byte := 0x50

  function IdBytes(ids: seq<string>): seq<Byte> {
    if ids == [] then [] else [UPDATE_TAG] + Prefixed(ids[0]) + IdBytes(ids[1..])
  }

  function RowBytes(rows: seq<PlanRow>): seq<Byte> {
    if rows == [] then [] else [PLAN_TAG] + FieldBytes(GenerationFields(rows[0])) + RowBytes(rows[1..])
  }

  /** b"lyona-update-plan-v1" as text. */
  const GENERATION_TAG := "lyona-update-plan-v1"

  function Hashed(ids: seq<string>, plan: seq<PlanRow>): seq<Byte> {
    Encode(GENERATION_TAG) + IdBytes(Sort(IdOrder(), ids)) + RowBytes(Sort(RowOrder(), plan))
  }

  /** digest.update for each update. */
  method FeedUpdates(start: seq<Byte>, ids: seq<string>) returns (fed: seq<Byte>)
    ensures fed == start + IdBytes(ids)
  {
    fed := start;
    var i := 0;
    while i < |ids|
      invariant 0 <= i <= |ids| && fed + IdBytes(ids[i..]) == start + IdBytes(ids)
    {
      assert ids[i..][1..] == ids[i + 1..];
      Regrouped(fed, [UPDATE_TAG] + Prefixed(ids[i]), IdBytes(ids[i + 1..]));
      fed := fed + ([UPDATE_TAG] + Prefixed(ids[i]));
      i := i + 1;
    }
  }

  /** digest.update for each plan row. */
  method FeedPlan(start: seq<Byte>, rows: seq<PlanRow>) returns (fed: seq<Byte>)
    ensures fed == start + RowBytes(rows)
  {
    fed := start;
    var i := 0;
    while i < |rows|
      invariant 0 <= i <= |rows| && fed + RowBytes(rows[i..]) == start + RowBytes(rows)
    {
      assert rows[i..][1..] == rows[i + 1..];
      var row := [PLAN_TAG] + FieldBytes(GenerationFields(rows[i]));
      Regrouped(fed, row, RowBytes(rows[i + 1..]));
      fed := fed + row;
      i := i + 1;
    }
  }

  /** snapshot_generation. */
  method SnapshotGeneration(sha: Digest, ids: seq<string>, plan: seq<PlanRow>) returns (generation: seq<Byte>)
    ensures generation == Hash(sha, Hashed(ids, plan))
  {
    var fed := FeedUpdates(Encode(GENERATION_TAG), Sort(IdOrder(), ids));
    fed := FeedPlan(fed, Sort(RowOrder(), plan));
    generation := Hash(sha, fed);
  }

  // ---- the bytes can be read back ----

  lemma HeadsCancel(p: seq<Byte>, q: seq<Byte>, n: nat, x: seq<Byte>, y: seq<Byte>)
    requires |p| == |q| == n && p + x == q + y
    ensures p == q && x == y
  {
    assert (p + x)[..n] == p && (q + y)[..n] == q && (p + x)[n..] == x && (q + y)[n..] == y;
  }

  lemma Regrouped(p: seq<Byte>, q: seq<Byte>, x: seq<Byte>)
    ensures p + q + x == p + (q + x)
  {}

  lemma PrefixedCancels(a: string, b: string, x: seq<Byte>, y: seq<Byte>)
    requires Fits(a) && Fits(b) && Prefixed(a) + x == Prefixed(b) + y
    ensures a == b && x == y
  {
    var e, f := Encode(a), Encode(b);
    Regrouped(BigEndian8(|e|), e, x);
    Regrouped(BigEndian8(|f|), f, y);
    HeadsCancel(BigEndian8(|e|), BigEndian8(|f|), 8, e + x, f + y);
    BigEndian8Injective(|e|, |f|);
    HeadsCancel(e, f, |e|, x, y);
    EncodeInjective(a, b);
  }

  lemma {:induction false} FieldsCancel(a: seq<string>, b: seq<string>, x: seq<Byte>, y: seq<Byte>)
    requires |a| == |b| && AllFit(a) && AllFit(b) && FieldBytes(a) + x == FieldBytes(b) + y
    ensures a == b && x == y
  {
    if a == [] {
      assert FieldBytes(a) + x == x && FieldBytes(b) + y == y;
    } else {
      Regrouped(Prefixed(a[0]), FieldBytes(a[1..]), x);
      Regrouped(Prefixed(b[0]), FieldBytes(b[1..]), y);
      PrefixedCancels(a[0], b[0], FieldBytes(a[1..]) + x, FieldBytes(b[1..]) + y);
      FieldsCancel(a[1..], b[1..], x, y);
      assert a == [a[0]] + a[1..] && b == [b[0]] + b[1..];
    }
  }

  /** What may follow the updates: nothing, or a plan row. */
  predicate PastUpdates(b: seq<Byte>) { b == [] || b[0] == PLAN_TAG }

  lemma TagCancels(tag: Byte, p: seq<Byte>, r: seq<Byte>, x: seq<Byte>, q: seq<Byte>, t: seq<Byte>, y: seq<Byte>)
    requires [tag] + p + r + x == [tag] + q + t + y
    ensures p + (r + x) == q + (t + y)
  {
    Regrouped([tag], p, r);
    Regrouped([tag], q, t);
    Regrouped([tag], p + r, x);
    Regrouped([tag], q + t, y);
    Regrouped(p, r, x);
    Regrouped(q, t, y);
    HeadsCancel([tag], [tag], 1, p + r + x, q + t + y);
  }

  lemma IdsStart(ids: seq<string>, x: seq<Byte>)
    ensures ids == [] ==> IdBytes(ids) + x == x
    ensures ids != [] ==> (IdBytes(ids) + x)[..1] == [UPDATE_TAG]
  {}

  lemma {:induction false} IdsCancel(a: seq<string>, b: seq<string>, x: seq<Byte>, y: seq<Byte>)
    requires AllFit(a) && AllFit(b) && PastUpdates(x) && PastUpdates(y) && IdBytes(a) + x == IdBytes(b) + y
    ensures a == b && x == y
    decreases |a|
  {
    IdsStart(a, x);
    IdsStart(b, y);
    if a != [] && b != [] {
      TagCancels(UPDATE_TAG, Prefixed(a[0]), IdBytes(a[1..]), x, Prefixed(b[0]), IdBytes(b[1..]), y);
      PrefixedCancels(a[0], b[0], IdBytes(a[1..]) + x, IdBytes(b[1..]) + y);
      IdsCancel(a[1..], b[1..], x, y);
      assert a == [a[0]] + a[1..] && b == [b[0]] + b[1..];
    }
  }

  predicate RowsFit(rows: seq<PlanRow>) { forall i :: 0 <= i < |rows| ==> AllFit(GenerationFields(rows[i])) }

  lemma {:induction false} RowsCancel(a: seq<PlanRow>, b: seq<PlanRow>)
    requires RowsFit(a) && RowsFit(b) && RowBytes(a) == RowBytes(b)
    ensures a == b
    decreases |a|
  {
    if a != [] && b != [] {
      RowsStep(a[0], a[1..], b[0], b[1..]);
      RowsCancel(a[1..], b[1..]);
      assert a == [a[0]] + a[1..] && b == [b[0]] + b[1..];
    }
  }

  lemma RowsStep(a: PlanRow, rest: seq<PlanRow>, b: PlanRow, others: seq<PlanRow>)
    requires AllFit(GenerationFields(a)) && AllFit(GenerationFields(b))
    requires [PLAN_TAG] + FieldBytes(GenerationFields(a)) + RowBytes(rest) == [PLAN_TAG]
             + FieldBytes(GenerationFields(b)) + RowBytes(others)
    ensures a == b && RowBytes(rest) == RowBytes(others)
  {
    var f, g := GenerationFields(a), GenerationFields(b);
    Regrouped([PLAN_TAG], FieldBytes(f), RowBytes(rest));
    Regrouped([PLAN_TAG], FieldBytes(g), RowBytes(others));
    HeadsCancel([PLAN_TAG], [PLAN_TAG], 1, FieldBytes(f) + RowBytes(rest), FieldBytes(g) + RowBytes(others));
    FieldsCancel(f, g, RowBytes(rest), RowBytes(others));
    RowInjective(a, b);
  }

  // ---- what a confirmed generation guarantees ----

  lemma SortedFit(ids: seq<string>)
    requires AllFit(ids)
    ensures AllFit(Sort(IdOrder(), ids))
  {
    var s := Sort(IdOrder(), ids);
    forall i | 0 <= i < |s| ensures Fits(s[i]) { assert s[i] in multiset(ids); }
  }

  lemma SortedRowsFit(plan: seq<PlanRow>)
    requires RowsFit(plan)
    ensures RowsFit(Sort(RowOrder(), plan))
  {
    var s := Sort(RowOrder(), plan);
    forall i | 0 <= i < |s| ensures AllFit(GenerationFields(s[i])) { assert s[i] in multiset(plan); }
  }

  /** The hashed bytes are the same exactly for the same updates and the same plan rows, in whatever order they came. */
  lemma HashedDetermines(ids: seq<string>, plan: seq<PlanRow>, otherIds: seq<string>, otherPlan: seq<PlanRow>)
    requires AllFit(ids) && AllFit(otherIds) && RowsFit(plan) && RowsFit(otherPlan)
    ensures Hashed(ids, plan) == Hashed(otherIds, otherPlan)
       <==> multiset(ids) == multiset(otherIds) && multiset(plan) == multiset(otherPlan)
  {
    IdOrderIsStrict();
    RowOrderIsStrict();
    SortEqualIff(IdOrder(), ids, otherIds);
    SortEqualIff(RowOrder(), plan, otherPlan);
    if Hashed(ids, plan) == Hashed(otherIds, otherPlan) {
      var a, b, r, q := Sort(IdOrder(), ids), Sort(IdOrder(), otherIds), Sort(RowOrder(), plan),
          Sort(RowOrder(), otherPlan);
      var tag := Encode(GENERATION_TAG);
      Regrouped(tag, IdBytes(a), RowBytes(r));
      Regrouped(tag, IdBytes(b), RowBytes(q));
      HeadsCancel(tag, tag, |tag|, IdBytes(a) + RowBytes(r), IdBytes(b) + RowBytes(q));
      SortedFit(ids);
      SortedFit(otherIds);
      SortedRowsFit(plan);
      SortedRowsFit(otherPlan);
      IdsCancel(a, b, RowBytes(r), RowBytes(q));
      RowsCancel(r, q);
    }
  }

  /** A confirmation that matches the fresh plan's generation is for that plan, or exhibits a collision. */
  lemma ConfirmedPlan(sha: Digest, ids: seq<string>, plan: seq<PlanRow>, confirmedIds: seq<string>,
                      confirmedPlan: seq<PlanRow>)
    requires AllFit(ids) && AllFit(confirmedIds) && RowsFit(plan) && RowsFit(confirmedPlan)
    requires !Collision(sha, Hashed(ids, plan), Hashed(confirmedIds, confirmedPlan))
    ensures Hash(sha, Hashed(ids, plan)) == Hash(sha, Hashed(confirmedIds, confirmedPlan))
       <==> multiset(ids) == multiset(confirmedIds) && multiset(plan) == multiset(confirmedPlan)
  {
    HashedDetermines(ids, plan, confirmedIds, confirmedPlan);
  }
}
