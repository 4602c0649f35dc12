/** AccountRead: the least 256 account paths of a reply of any length, in bounded memory. */
module Accounts {
  import opened Results
  import opened Order

  const ACCOUNT_LIMIT := 256

  /** Python compares texts by code point. */
  const CHAR_ORDER: (char, char) -> bool := (a, b) => a < b

  function PathOrder(): (string, string) -> bool { LexOrder(CHAR_ORDER) }

  predicate Before(a: string, b: string) { Less(PathOrder(), a, b) }

  lemma PathsAreStrict()
    ensures Strict(PathOrder())
  {
    assert Strict(CHAR_ORDER);
    LexIsStrict(CHAR_ORDER);
  }

  lemma BeforeConnected(a: string, b: string)
    ensures a == b || Before(a, b) || Before(b, a)
  {
    PathsAreStrict();
  }

  lemma BeforeTransitive(a: string, b: string, c: string)
    requires Before(a, b) && Before(b, c)
    ensures Before(a, c) && !Before(c, a) && a != c
  {
    PathsAreStrict();
    assert !Less(PathOrder(), a, a);
  }

  lemma BeforeIrreflexive(a: string)
    ensures !Before(a, a)
  {
    PathsAreStrict();
  }

  // ---- the least paths of a set ----

  ghost predicate Ascending(s: seq<string>) { forall i, j :: 0 <= i < j < |s| ==> Before(s[i], s[j]) }

  function Elements(s: seq<string>): set<string> { set x | x in s }

  /** Past is past: what is left out lies after what is selected. */
  ghost predicate Covers(selected: seq<string>, paths: set<string>) {
    && Ascending(selected) && Elements(selected) <= paths
    && forall x, y :: x in paths && x !in selected && y in selected ==> Before(y, x)
  }

  function Fewer(a: nat, b: nat): nat { if a < b then a else b }

  /** The ascending sequence of the least members, up to a limit. */
  ghost predicate IsLeast(selected: seq<string>, paths: set<string>, limit: nat) {
    Covers(selected, paths) && |selected| == Fewer(|paths|, limit)
  }

  lemma {:induction false} AscendingSize(s: seq<string>)
    requires Ascending(s)
    ensures |Elements(s)| == |s|
  {
    if s != [] {
      RestElements(s);
      AscendingSize(s[1..]);
      assert s[0] in Elements(s);
      assert |Elements(s)| == |Elements(s) - {s[0]}| + 1;
    }
  }

  /** There is one such sequence: neither order nor repetition of the reply can show. */
  lemma LeastIsUnique(s: seq<string>, t: seq<string>, paths: set<string>, limit: nat)
    requires IsLeast(s, paths, limit) && IsLeast(t, paths, limit)
    ensures s == t
  {
    AscendingSize(s);
    AscendingSize(t);
    SameElements(s, t, paths);
    AscendingDetermined(s, t);
  }

  lemma SameElements(s: seq<string>, t: seq<string>, paths: set<string>)
    requires Covers(s, paths) && Covers(t, paths) && |Elements(s)| == |Elements(t)|
    ensures Elements(s) == Elements(t)
  {
    var a, b := Elements(s) - Elements(t), Elements(t) - Elements(s);
    if a != {} && b != {} {
      var x, y :| x in a && y in b;
      BeforeTransitive(x, y, x);
    }
    if a != {} && b == {} {
      var x :| x in a;
      NoDifference(Elements(t), Elements(s));
      ProperSize(Elements(t), Elements(s), x);
    }
    if b != {} && a == {} {
      var y :| y in b;
      NoDifference(Elements(s), Elements(t));
      ProperSize(Elements(s), Elements(t), y);
    }
  }

  lemma NoDifference(a: set<string>, b: set<string>)
    requires a - b == {}
    ensures a <= b
  {
    assert a == (a - b) + a * b;
  }

  lemma ProperSize(a: set<string>, b: set<string>, x: string)
    requires a <= b && x in b && x !in a
    ensures |a| < |b|
  {
    assert b == (b - a) + a && (b - a) !! a && x in b - a;
  }

  lemma {:induction false} AscendingDetermined(s: seq<string>, t: seq<string>)
    requires Ascending(s) && Ascending(t) && Elements(s) == Elements(t)
    ensures s == t
    decreases |s|
  {
    AscendingSize(s);
    AscendingSize(t);
    if s != [] {
      var a, b := s[0], t[0];
      assert a in Elements(t) && b in Elements(s);
      if a != b {
        var i :| 0 <= i < |t| && t[i] == a;
        var j :| 0 <= j < |s| && s[j] == b;
        assert Before(b, a) && Before(a, b);
        BeforeTransitive(a, b, a);
      }
      assert Elements(s[1..]) == Elements(s) - {a} by { RestElements(s); }
      assert Elements(t[1..]) == Elements(t) - {b} by { RestElements(t); }
      AscendingDetermined(s[1..], t[1..]);
      assert s == [a] + s[1..] && t == [b] + t[1..];
    }
  }

  lemma RestElements(s: seq<string>)
    requires Ascending(s) && s != []
    ensures Elements(s[1..]) == Elements(s) - {s[0]}
  {
    forall i | 0 < i < |s| ensures s[i] != s[0] {
      assert Before(s[0], s[i]);
      BeforeIrreflexive(s[0]);
    }
    forall x | x in Elements(s) - {s[0]} ensures x in s[1..] {
      var i :| 0 <= i < |s| && s[i] == x;
      assert s[1..][i - 1] == x;
    }
  }

  // ---- one path into the selection ----

  /** bisect.insort's position, found by halving. */
  method BisectRight(s: seq<string>, x: string) returns (lo: nat)
    requires Ascending(s)
    ensures lo <= |s| && (forall i :: 0 <= i < lo ==> !Before(x, s[i])) && forall i :: lo <= i < |s| ==> Before(x, s[i])
  {
    lo := 0;
    var hi := |s|;
    while lo < hi
      invariant 0 <= lo <= hi <= |s|
      invariant forall i :: 0 <= i < lo ==> !Before(x, s[i])
      invariant forall i :: hi <= i < |s| ==> Before(x, s[i])
    {
      var mid := (lo + hi) / 2;
      if Before(x, s[mid]) {
        forall i | mid <= i < |s| ensures Before(x, s[i]) {
          if i > mid { BeforeTransitive(x, s[mid], s[i]); }
        }
        hi := mid;
      } else {
        forall i | 0 <= i <= mid ensures !Before(x, s[i]) {
          if i < mid && Before(x, s[i]) { BeforeTransitive(x, s[i], s[mid]); }
        }
        lo := mid + 1;
      }
    }
  }

  function InsertedAt(s: seq<string>, k: nat, x: string): seq<string>
    requires k <= |s|
  {
    s[..k] + [x] + s[k..]
  }

  lemma InsertedIsAscending(s: seq<string>, k: nat, x: string)
    requires Ascending(s) && x !in s && k <= |s|
    requires (forall i :: 0 <= i < k ==> !Before(x, s[i])) && forall i :: k <= i < |s| ==> Before(x, s[i])
    ensures Ascending(InsertedAt(s, k, x)) && Elements(InsertedAt(s, k, x)) == Elements(s) + {x}
  {
    var r := InsertedAt(s, k, x);
    forall i, j | 0 <= i < j < |r| ensures Before(r[i], r[j]) {
      var a := if i < k then i else i - 1;
      var b := if j < k then j else j - 1;
      if i != k && j != k { assert r[i] == s[a] && r[j] == s[b]; }
      if j == k { BeforeConnected(s[i], x); }
    }
    assert Elements(r) == Elements(s) + {x} by {
      forall y | y in Elements(s) ensures y in r {
        var i :| 0 <= i < |s| && s[i] == y;
        assert r[if i < k then i else i + 1] == y;
      }
      assert r[k] == x;
    }
  }

  /** The last of an ascending sequence is past all the others. */
  lemma LastIsGreatest(s: seq<string>, y: string)
    requires Ascending(s) && y in s
    ensures y == s[|s| - 1] || Before(y, s[|s| - 1])
  {
    var i :| 0 <= i < |s| && s[i] == y;
  }

  lemma PrefixElements(s: seq<string>, n: nat)
    requires Ascending(s) && n <= |s|
    ensures Ascending(s[..n]) && Elements(s[..n]) <= Elements(s) && |Elements(s[..n])| == n
  {
    AscendingSize(s[..n]);
  }

  lemma PrefixHolds(s: seq<string>, n: nat, i: nat)
    requires n <= |s| && i < |s|
    ensures i < n ==> s[i] in s[..n]
  {
    if i < n { assert s[..n][i] == s[i]; }
  }

  /** Cutting a covering selection keeps its least. */
  lemma LeastPrefix(s: seq<string>, paths: set<string>, limit: nat)
    requires Covers(s, paths) && |s| >= Fewer(|paths|, limit)
    ensures IsLeast(s[..Fewer(|s|, limit)], paths, limit)
  {
    var n := Fewer(|s|, limit);
    var t := s[..n];
    AscendingSize(s);
    AtLeast(Elements(s), paths);
    PrefixElements(s, n);
    forall x, y | x in paths && x !in t && y in t ensures Before(y, x) {
      if x in s {
        var i :| 0 <= i < |s| && s[i] == x;
        var j :| 0 <= j < |t| && t[j] == y;
        PrefixHolds(s, n, i);
        assert Before(s[j], s[i]);
      } else {
        assert y in Elements(t) && y in Elements(s);
      }
    }
  }

  /** What one inserted path makes of the selection. */
  lemma InsertedCovers(s: seq<string>, paths: set<string>, x: string, r: seq<string>, limit: nat)
    requires IsLeast(s, paths, limit) && (|s| < limit || (s != [] && Before(x, s[|s| - 1])))
    requires Ascending(r) && Elements(r) == Elements(s) + {x}
    ensures Covers(r, paths + {x})
  {
    forall y, z | y in paths + {x} && y !in r && z in r ensures Before(z, y) {
      assert y !in Elements(r) && z in Elements(r);
      if |s| < limit {
        AscendingSize(s);
        ProperSize(Elements(s), paths, y);
      } else if z == x {
        assert Before(s[|s| - 1], y);
        BeforeTransitive(x, s[|s| - 1], y);
      }
    }
  }

  lemma InsertedIsLeast(s: seq<string>, paths: set<string>, x: string, r: seq<string>, limit: nat)
    requires IsLeast(s, paths, limit) && x !in s && (|s| < limit || (s != [] && Before(x, s[|s| - 1])))
    requires Ascending(r) && Elements(r) == Elements(s) + {x} && |r| == |s| + 1
    ensures IsLeast(if |r| > limit then r[..|r| - 1] else r, paths + {x}, limit)
  {
    InsertedCovers(s, paths, x, r, limit);
    assert r[..|r|] == r;
    assert paths + {x} == paths || |paths + {x}| == |paths| + 1;
    LeastPrefix(r, paths + {x}, limit);
  }

  lemma AtLeast(a: set<string>, b: set<string>)
    requires a <= b
    ensures |a| <= |b|
  {
    assert b == (b - a) + a;
  }

  /** A path past a full selection, or already selected, changes nothing. */
  lemma SkippedKeeps(s: seq<string>, paths: set<string>, x: string, limit: nat)
    requires IsLeast(s, paths, limit) && (x in s || (|s| == limit > 0 && !Before(x, s[|s| - 1])))
    ensures IsLeast(s, paths + {x}, limit)
  {
    if x in s {
      assert x in Elements(s) && paths + {x} == paths;
    } else {
      AtLeast(paths, paths + {x});
      var last := s[|s| - 1];
      BeforeConnected(x, last);
      forall y | y in s ensures Before(y, x) {
        LastIsGreatest(s, y);
        if y != last { BeforeTransitive(y, last, x); }
      }
    }
  }

  // ---- the current account out of the selection ----

  function WithoutOwn(s: seq<string>, own: Option<string>): seq<string> {
    if s == [] then [] else (if own == Some(s[0]) then [] else [s[0]]) + WithoutOwn(s[1..], own)
  }

  function Own(current: Option<string>): set<string> { if current.Some? then {current.value} else {} }

  lemma {:induction false} WithoutElements(s: seq<string>, own: Option<string>)
    ensures Elements(WithoutOwn(s, own)) == Elements(s) - Own(own)
  {
    if s != [] {
      WithoutElements(s[1..], own);
      assert Elements(s) == {s[0]} + Elements(s[1..]) by { assert s == [s[0]] + s[1..]; }
      var rest := WithoutOwn(s[1..], own);
      assert Elements([s[0]] + rest) == {s[0]} + Elements(rest);
    }
  }

  lemma {:induction false} WithoutAscends(s: seq<string>, own: Option<string>)
    requires Ascending(s)
    ensures Ascending(WithoutOwn(s, own)) && |s| - 1 <= |WithoutOwn(s, own)| <= |s|
  {
    if s != [] {
      WithoutAscends(s[1..], own);
      WithoutElements(s[1..], own);
      var rest := WithoutOwn(s[1..], own);
      forall y | y in rest ensures Before(s[0], y) {
        assert y in Elements(rest) && y in s[1..];
      }
      if own == Some(s[0]) {
        WithoutNone(s[1..], own) by { RestElements(s); }
      }
    }
  }

  lemma {:induction false} WithoutNone(s: seq<string>, own: Option<string>)
    requires own.Some? ==> own.value !in s
    ensures WithoutOwn(s, own) == s
  {
    if s != [] {
      WithoutNone(s[1..], own);
      assert s == [s[0]] + s[1..];
    }
  }

  /** The least but one of all paths, without the current one, hold the least of the others. */
  lemma OthersAreLeast(s: seq<string>, paths: set<string>, own: Option<string>, limit: nat)
    requires IsLeast(s, paths, limit + 1)
    ensures var others := WithoutOwn(s, own); IsLeast(others[..Fewer(|others|, limit)], paths - Own(own), limit)
  {
    var others := WithoutOwn(s, own);
    WithoutElements(s, own);
    WithoutAscends(s, own);
    forall x, y | x in paths - Own(own) && x !in others && y in others ensures Before(y, x) {
      assert y in Elements(others) && x !in Elements(others);
      assert x !in Elements(s);
    }
    AscendingSize(s);
    AscendingSize(others);
    if |s| < limit + 1 {
      if x :| x in paths && x !in Elements(s) { ProperSize(Elements(s), paths, x); }
      assert Elements(s) == paths;
    }
    LeastPrefix(others, paths - Own(own), limit);
  }

  // ---- the read ----

  /** A child of the reply as account_object_path takes it: a path, or a malformed one. */
  datatype Item = Path(path: string) | Malformed

  function Paths(items: seq<Item>): set<string> { set i | i in items && i.Path? :: i.path }

  lemma TakenPaths(items: seq<Item>, item: Item)
    ensures Paths(items + [item]) == Paths(items) + (if item.Path? then {item.path} else {})
    ensures Malformed in items + [item] <==> Malformed in items || item == Malformed
  {
    var more := items + [item];
    forall i | i in items && i.Path? ensures i.path in Paths(more) { assert i in more; }
    assert item in more;
  }

  /** At most 257 paths are remembered, which is enough to know whether there were more than 256. */
  ghost predicate Remembers(seen: set<string>, paths: set<string>) {
    seen <= paths && |seen| == Fewer(|paths|, ACCOUNT_LIMIT + 1)
  }

  lemma SeenGrows(seen: set<string>, paths: set<string>, x: string)
    requires Remembers(seen, paths)
    ensures |seen| <= ACCOUNT_LIMIT ==> Remembers(seen + {x}, paths + {x})
    ensures |seen| > ACCOUNT_LIMIT ==> Remembers(seen, paths + {x})
    ensures |paths| <= |paths + {x}| && (x in paths ==> paths + {x} == paths)
            && (x !in paths ==> |paths + {x}| == |paths| + 1)
    ensures |seen| <= ACCOUNT_LIMIT ==> seen == paths
  {
    AtLeast(paths, paths + {x});
    if |seen| <= ACCOUNT_LIMIT && seen != paths {
      var y :| y in paths && y !in seen;
      ProperSize(seen, paths, y);
    }
  }

  /** The diagnostics, of which one per code is kept; these two share their code. */
  datatype Problem = InvalidPath | TooMany

  class AccountRead {
    var selected: seq<string>
    var seen: set<string>
    /** errors["malformed"]. */
    var malformed: Option<Problem>
    var currentPath: Option<string>

    constructor ()
      ensures selected == [] && seen == {} && malformed == None && currentPath == None
    {
      selected, seen, malformed, currentPath := [], {}, None, None;
    }

    method Note(p: Problem)
      modifies this`malformed
      ensures malformed == if old(malformed).Some? then old(malformed) else Some(p)
    {
      if malformed.None? { malformed := Some(p); }
    }

    /** What has been read is the paths of some items. */
    ghost predicate HasRead(items: seq<Item>)
      reads this
    {
      && IsLeast(selected, Paths(items), ACCOUNT_LIMIT)
      && Remembers(seen, Paths(items))
      && (malformed.Some? <==> Malformed in items || |Paths(items)| > ACCOUNT_LIMIT)
      && (Malformed !in items ==> malformed != Some(InvalidPath))
      && (|Paths(items)| <= ACCOUNT_LIMIT ==> malformed != Some(TooMany))
    }

    /** One path of the reply. */
    method Take(path: string, ghost items: seq<Item>)
      requires HasRead(items)
      modifies this`selected, this`seen, this`malformed
      ensures HasRead(items + [Path(path)])
    {
      ghost var paths := Paths(items);
      TakenPaths(items, Path(path));
      SeenGrows(seen, paths, path);
      if |seen| <= ACCOUNT_LIMIT { seen := seen + {path}; }
      if |seen| > ACCOUNT_LIMIT { Note(TooMany); }
      Choose(path, paths);
    }

    /** The selection, kept sorted by bisection. */
    method Choose(path: string, ghost paths: set<string>)
      requires IsLeast(selected, paths, ACCOUNT_LIMIT)
      modifies this`selected
      ensures IsLeast(selected, paths + {path}, ACCOUNT_LIMIT)
    {
      if path !in selected && (|selected| < ACCOUNT_LIMIT || Before(path, selected[|selected| - 1])) {
        ghost var before := selected;
        var k := BisectRight(selected, path);
        InsertedIsAscending(selected, k, path);
        selected := InsertedAt(selected, k, path);
        InsertedIsLeast(before, paths, path, selected, ACCOUNT_LIMIT);
        if |selected| > ACCOUNT_LIMIT { selected := selected[..|selected| - 1]; }
      } else {
        SkippedKeeps(selected, paths, path, ACCOUNT_LIMIT);
      }
    }

    method TakeItem(item: Item, ghost items: seq<Item>)
      requires HasRead(items)
      modifies this`selected, this`seen, this`malformed
      ensures HasRead(items + [item])
    {
      match item {
        case Malformed =>
          TakenPaths(items, Malformed);
          Note(InvalidPath);
        case Path(path) => Take(path, items);
      }
    }

    /** The loop of cached, over as much of the reply as arrives before the read is over. */
    method Cached(items: seq<Item>, live: nat)
      requires selected == [] && seen == {} && malformed == None
      modifies this`selected, this`seen, this`malformed
      ensures HasRead(items[..if live < |items| then live else |items|])
    {
      var index := 0;
      assert items[..0] == [] && Paths([]) == {} && Elements([]) == {};
      while index < |items| && index < live
        invariant 0 <= index <= |items| && index <= live && HasRead(items[..index])
      {
        TakeItem(items[index], items[..index]);
        assert items[..index + 1] == items[..index] + [items[index]];
        index := index + 1;
      }
    }

    /** current: the caller's own account, which may not be among the cached ones. */
    method Current(path: string, ghost items: seq<Item>)
      requires HasRead(items) && currentPath == None
      modifies this`malformed, this`currentPath
      ensures currentPath == Some(path)
      ensures malformed.Some? <==> Malformed in items || |Paths(items) + {path}| > ACCOUNT_LIMIT
    {
      SeenGrows(seen, Paths(items), path);
      if |seen| >= ACCOUNT_LIMIT && path !in seen { Note(TooMany); }
      currentPath := Some(path);
    }

    /** The selection without the current account. */
    method Others() returns (others: seq<string>)
      ensures others == WithoutOwn(selected, currentPath)
    {
      others := [];
      var i := 0;
      while i < |selected|
        invariant 0 <= i <= |selected| && others + WithoutOwn(selected[i..], currentPath) ==
                  WithoutOwn(selected, currentPath)
      {
        assert selected[i..][1..] == selected[i + 1..];
        if currentPath != Some(selected[i]) { others := others + [selected[i]]; }
        i := i + 1;
      }
    }

    /** start_properties: the current account first, then the least others. */
    method Candidates(ghost items: seq<Item>) returns (candidates: seq<string>)
      requires HasRead(items)
      ensures var first := if currentPath.Some? then [currentPath.value] else [];
        first <= candidates && IsLeast(candidates[|first|..], Paths(items) - Own(currentPath), ACCOUNT_LIMIT - 1)
    {
      var others := Others();
      OthersAreLeast(selected, Paths(items), currentPath, ACCOUNT_LIMIT - 1);
      var kept := others[..Fewer(|others|, ACCOUNT_LIMIT - 1)];
      candidates := (if currentPath.Some? then [currentPath.value] else []) + kept;
      assert candidates[if currentPath.Some? then 1 else 0..] == kept;
    }
  }
}
