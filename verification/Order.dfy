/** Strict orders, Python's lexicographic comparison, and what sorting by one determines. */
module Order {
  predicate Less<T>(less: (T, T) -> bool, a: T, b: T) { less(a, b) }

  ghost predicate Irreflexive<T(!new)>(less: (T, T) -> bool) { forall a :: !Less(less, a, a) }

  ghost predicate Connected<T(!new)>(less: (T, T) -> bool) {
    forall a, b :: a == b || Less(less, a, b) || Less(less, b, a)
  }

  ghost predicate Transitive<T(!new)>(less: (T, T) -> bool) {
    forall a, b, c :: Less(less, a, b) && Less(less, b, c) ==> Less(less, a, c)
  }

  ghost predicate Strict<T(!new)>(less: (T, T) -> bool) { Irreflexive(less) && Connected(less) && Transitive(less) }

  // ---- comparison of tuples, texts and byte strings ----

  predicate Lex<T(==)>(less: (T, T) -> bool, a: seq<T>, b: seq<T>)
    decreases |a|
  {
    b != [] && (a == [] || Less(less, a[0], b[0]) || (a[0] == b[0] && Lex(less, a[1..], b[1..])))
  }

  function LexOrder<T(==)>(less: (T, T) -> bool): (seq<T>, seq<T>) -> bool { (a, b) => Lex(less, a, b) }

  lemma {:induction false} LexIrreflexive<T(!new)>(less: (T, T) -> bool, a: seq<T>)
    requires Strict(less)
    ensures !Lex(less, a, a)
  {
    if a != [] { LexIrreflexive(less, a[1..]); }
  }

  lemma {:induction false} LexConnected<T(!new)>(less: (T, T) -> bool, a: seq<T>, b: seq<T>)
    requires Strict(less)
    ensures a == b || Lex(less, a, b) || Lex(less, b, a)
  {
    if a != [] && b != [] {
      LexConnected(less, a[1..], b[1..]);
      if a[0] == b[0] && a[1..] == b[1..] { assert a == [a[0]] + a[1..] == b; }
    }
  }

  lemma {:induction false} LexTransitive<T(!new)>(less: (T, T) -> bool, a: seq<T>, b: seq<T>, c: seq<T>)
    requires Strict(less) && Lex(less, a, b) && Lex(less, b, c)
    ensures Lex(less, a, c)
  {
    if a != [] && a[0] == b[0] == c[0] { LexTransitive(less, a[1..], b[1..], c[1..]); }
  }

  lemma LexIsStrict<T(!new)>(less: (T, T) -> bool)
    requires Strict(less)
    ensures Strict(LexOrder(less))
  {
    var lex := LexOrder(less);
    forall a ensures !Less(lex, a, a) { LexIrreflexive(less, a); }
    forall a, b ensures a == b || Less(lex, a, b) || Less(lex, b, a) { LexConnected(less, a, b); }
    forall a, b, c | Less(lex, a, b) && Less(lex, b, c) ensures Less(lex, a, c) { LexTransitive(less, a, b, c); }
  }

  // ---- comparison by a key ----

  function Key<T, K>(key: T -> K, a: T): K { key(a) }

  function KeyOrder<T, K>(key: T -> K, less: (K, K) -> bool): (T, T) -> bool {
    (a, b) => Less(less, Key(key, a), Key(key, b))
  }

  ghost predicate Injective<T(!new), K>(key: T -> K) { forall a, b :: Key(key, a) == Key(key, b) ==> a == b }

  lemma KeyIsStrict<T(!new), K(!new)>(key: T -> K, less: (K, K) -> bool)
    requires Strict(less) && Injective(key)
    ensures Strict(KeyOrder(key, less))
  {
    var keyed := KeyOrder(key, less);
    forall a ensures !Less(keyed, a, a) { assert !Less(less, Key(key, a), Key(key, a)); }
    forall a, b ensures a == b || Less(keyed, a, b) || Less(keyed, b, a) {
      assert Key(key, a) == Key(key, b) ==> a == b;
    }
    forall a, b, c | Less(keyed, a, b) && Less(keyed, b, c) ensures Less(keyed, a, c) {
      assert Less(less, Key(key, a), Key(key, b)) && Less(less, Key(key, b), Key(key, c));
    }
  }

  // ---- sorting ----

  ghost predicate Sorted<T>(less: (T, T) -> bool, s: seq<T>) {
    forall i, j :: 0 <= i < j < |s| ==> !Less(less, s[j], s[i])
  }

  function Placed<T>(less: (T, T) -> bool, x: T, s: seq<T>): (r: seq<T>)
    ensures multiset(r) == multiset(s) + multiset{x}
  {
    if s == [] then [x]
    else if Less(less, x, s[0]) then [x] + s
    else
      assert s == [s[0]] + s[1..];
      [s[0]] + Placed(less, x, s[1..])
  }

  /** sorted(). */
  function Sort<T>(less: (T, T) -> bool, s: seq<T>): (r: seq<T>)
    ensures multiset(r) == multiset(s)
  {
    if s == [] then []
    else
      assert s == [s[0]] + s[1..];
      Placed(less, s[0], Sort(less, s[1..]))
  }

  lemma {:induction false} PlacedIsSorted<T(!new)>(less: (T, T) -> bool, x: T, s: seq<T>)
    requires Strict(less) && Sorted(less, s)
    ensures Sorted(less, Placed(less, x, s))
  {
    if s != [] {
      var r := Placed(less, x, s);
      if Less(less, x, s[0]) {
        forall i, j | 0 <= i < j < |r| ensures !Less(less, r[j], r[i]) {
          var y, first := r[j], s[0];
          if i == 0 { assert y == s[j - 1] && (Less(less, y, x) ==> Less(less, y, first)); }
        }
      } else {
        PlacedIsSorted(less, x, s[1..]);
        forall i, j | 0 <= i < j < |r| ensures !Less(less, r[j], r[i]) {
          if i == 0 {
            assert r[j] in multiset(r[1..]);
            if r[j] != x {
              var k :| 0 <= k < |s[1..]| && s[1..][k] == r[j];
              assert s[k + 1] == r[j];
            }
          }
        }
      }
    }
  }

  lemma {:induction false} SortIsSorted<T(!new)>(less: (T, T) -> bool, s: seq<T>)
    requires Strict(less)
    ensures Sorted(less, Sort(less, s))
  {
    if s != [] {
      SortIsSorted(less, s[1..]);
      PlacedIsSorted(less, s[0], Sort(less, s[1..]));
    }
  }

  lemma FirstIsLeast<T(!new)>(less: (T, T) -> bool, s: seq<T>, x: T)
    requires Sorted(less, s) && x in s && Irreflexive(less)
    ensures !Less(less, x, s[0])
  {
    var k :| 0 <= k < |s| && s[k] == x;
  }

  /** A sorted sequence is determined by its elements. */
  lemma {:induction false} SortedIsUnique<T(!new)>(less: (T, T) -> bool, s: seq<T>, t: seq<T>)
    requires Strict(less) && Sorted(less, s) && Sorted(less, t) && multiset(s) == multiset(t)
    ensures s == t
    decreases |s|
  {
    assert |multiset(s)| == |multiset(t)|;
    if s != [] {
      assert s[0] in multiset(t) && |t| > 0;
      assert t[0] in multiset(s);
      FirstIsLeast(less, t, s[0]);
      FirstIsLeast(less, s, t[0]);
      assert s == [s[0]] + s[1..] && t == [t[0]] + t[1..];
      assert multiset(s[1..]) == multiset(s) - multiset{s[0]} == multiset(t[1..]);
      SortedIsUnique(less, s[1..], t[1..]);
    }
  }

  /** sorted() forgets the order of its input and nothing else. */
  lemma SortEqualIff<T(!new)>(less: (T, T) -> bool, s: seq<T>, t: seq<T>)
    requires Strict(less)
    ensures Sort(less, s) == Sort(less, t) <==> multiset(s) == multiset(t)
  {
    SortIsSorted(less, s);
    SortIsSorted(less, t);
    if multiset(s) == multiset(t) {
      SortedIsUnique(less, Sort(less, s), Sort(less, t));
    } else {
      assert multiset(Sort(less, s)) != multiset(Sort(less, t));
    }
  }
}
