/** The list merges of the query evaluator: k-way intersection and de-duplicating union
    (internal/reverse_index/skiplist_reverse_index.go). A nil list is None. */
module Merge {
  import opened GoBase
  import opened SkipList

  ghost predicate AllSorted(ls: seq<Option<List>>) {
    forall j :: 0 <= j < |ls| && ls[j].Some? ==> Sorted(ls[j].value)
  }

  /** What a possibly nil list binds a key to. */
  ghost function GetOpt(l: Option<List>, k: uint64): Option<Val> {
    if l.Some? then Get(l.value, k) else None
  }

  /** Intersection, key by key: present in every list, with the first list's value. */
  ghost function Common(ls: seq<Option<List>>, k: uint64): Option<Val> {
    if |ls| > 0 && forall j :: 0 <= j < |ls| ==> GetOpt(ls[j], k).Some? then GetOpt(ls[0], k) else None
  }

  /** Union, key by key: the value of the first list that has the key. */
  ghost function FirstOf(ls: seq<Option<List>>, k: uint64): Option<Val> {
    if ls == [] then None
    else
      var p := FirstOf(ls[..|ls| - 1], k);
      if p.Some? then p else GetOpt(ls[|ls| - 1], k)
  }

  predicate SomeEmpty(ls: seq<Option<List>>) {
    exists j :: 0 <= j < |ls| && (ls[j] == None || |ls[j].value| == 0)
  }

  /** The running maximum starts at zero with a nil set, so a zero key met first is written to a
      nil map. Only the first list's first element can be met like that. */
  predicate MeetsZeroKey(ls: seq<Option<List>>) {
    |ls| >= 2 && !SomeEmpty(ls) && ls[0].value[0].key == 0
  }

  // ----- Cursors of the intersection -----

  ghost predicate Cursors(ls: seq<Option<List>>, c: seq<nat>) {
    && |c| == |ls|
    && forall j :: 0 <= j < |ls| ==> ls[j].Some? && Sorted(ls[j].value) && c[j] < |ls[j].value|
  }

  ghost function KeyAt(ls: seq<Option<List>>, c: seq<nat>, j: nat): uint64
    requires Cursors(ls, c) && j < |ls|
  {
    ls[j].value[c[j]].key
  }

  /** A common key that has not been collected yet. */
  ghost predicate Missing(ls: seq<Option<List>>, res: List, k: uint64) {
    Common(ls, k).Some? && !HasKey(res, k)
  }

  /** Everything collected is right and lies before the cursors; everything missing does not. */
  ghost predicate Progress(ls: seq<Option<List>>, c: seq<nat>, res: List)
    requires Cursors(ls, c)
  {
    && Sorted(res)
    && (forall p :: p in res ==> Common(ls, p.key) == Some(p.val))
    && (forall p, j :: p in res && 0 <= j < |ls| ==> p.key < KeyAt(ls, c, j))
    && (forall k, j :: Missing(ls, res, k) && 0 <= j < |ls| ==> KeyAt(ls, c, j) <= k)
  }

  ghost predicate IsIntersection(ls: seq<Option<List>>, res: List) {
    Sorted(res) && forall k :: Get(res, k) == Common(ls, k)
  }

  ghost function Remaining(ls: seq<Option<List>>, c: seq<nat>): nat
    requires Cursors(ls, c)
  {
    if ls == [] then 0 else |ls[0].value| - c[0] + Remaining(ls[1..], c[1..])
  }

  lemma {:induction false} RemainingDrops(ls: seq<Option<List>>, c: seq<nat>, d: seq<nat>)
    requires Cursors(ls, c) && Cursors(ls, d)
    requires forall j :: 0 <= j < |ls| ==> c[j] <= d[j]
    ensures Remaining(ls, d) <= Remaining(ls, c)
    ensures c != d ==> Remaining(ls, d) < Remaining(ls, c)
  {
    if ls != [] {
      RemainingDrops(ls[1..], c[1..], d[1..]);
      if c != d && c[0] == d[0] {
        assert c == [c[0]] + c[1..] && d == [d[0]] + d[1..];
      }
    }
  }

  /** The next element of a sorted list is no later than any member beyond the current one. */
  lemma NextKey(l: List, c: nat, k: uint64)
    requires Sorted(l) && c < |l| && l[c].key < k && HasKey(l, k)
    ensures c + 1 < |l| && l[c + 1].key <= k
  {
    var i :| 0 <= i < |l| && l[i].key == k;
  }

  lemma Found(ls: seq<Option<List>>, res: List)
    requires Sorted(res)
    requires forall p :: p in res ==> Common(ls, p.key) == Some(p.val)
    requires forall k :: !Missing(ls, res, k)
    ensures IsIntersection(ls, res)
  {
    forall k ensures Get(res, k) == Common(ls, k) {
      if HasKey(res, k) {
        var i := GetSome(res, k);
        assert res[i] in res;
      }
      assert !Missing(ls, res, k);
    }
  }

  /** An exhausted list whose last key lies before everything missing ends the search. */
  lemma Exhausted(ls: seq<Option<List>>, c: seq<nat>, res: List, i: nat)
    requires Cursors(ls, c) && i < |ls| && c[i] + 1 == |ls[i].value|
    requires Sorted(res)
    requires forall p :: p in res ==> Common(ls, p.key) == Some(p.val)
    requires forall k :: Missing(ls, res, k) ==> KeyAt(ls, c, i) < k
    ensures IsIntersection(ls, res)
  {
    forall k ensures !Missing(ls, res, k) {
      if Missing(ls, res, k) {
        assert GetOpt(ls[i], k).Some?;
        NextKey(ls[i].value, c[i], k);
      }
    }
    Found(ls, res);
  }

  /** The largest current key is m, and stay is the set of lists that stand on it. */
  ghost predicate IsMaximum(ls: seq<Option<List>>, c: seq<nat>, m: uint64, stay: set<nat>)
    requires Cursors(ls, c)
  {
    && (forall j: nat :: j < |ls| ==> KeyAt(ls, c, j) <= m)
    && (exists j: nat :: j < |ls| && KeyAt(ls, c, j) == m)
    && (forall j: nat :: j in stay <==> j < |ls| && KeyAt(ls, c, j) == m)
  }

  /** What is collected is right, and every cursor outside stay may move: nothing missing is at or
      before it. */
  ghost predicate Ready(ls: seq<Option<List>>, c: seq<nat>, res: List, stay: set<nat>, m: uint64)
    requires Cursors(ls, c)
  {
    && Sorted(res)
    && (forall p :: p in res ==> Common(ls, p.key) == Some(p.val))
    && (forall p, j: nat :: p in res && j < |ls| ==>
          p.key <= KeyAt(ls, c, j) && (j in stay ==> p.key < KeyAt(ls, c, j)))
    && (forall k, j: nat :: Missing(ls, res, k) && j < |ls| ==>
          KeyAt(ls, c, j) <= k && (j !in stay ==> KeyAt(ls, c, j) < k))
    && (exists j: nat :: j < |ls| && j !in stay)
  }

  lemma CommonHere(ls: seq<Option<List>>, c: seq<nat>, m: uint64)
    requires |ls| > 0 && Cursors(ls, c)
    requires forall j: nat :: j < |ls| ==> KeyAt(ls, c, j) == m
    ensures Common(ls, m) == Some(ls[0].value[c[0]].val)
  {
    forall j: nat | j < |ls| ensures GetOpt(ls[j], m) == Some(ls[j].value[c[j]].val) {
      assert KeyAt(ls, c, j) == m;
      GetAt(ls[j].value, c[j]);
    }
  }

  lemma HasKeyAfterSet(s: List, k: uint64, v: Val, j: uint64)
    requires Sorted(s)
    ensures HasKey(Set(s, k, v), j) <==> j == k || HasKey(s, j)
  {
    var r := Set(s, k, v);
    assert Posting(k, v) in r;
    if HasKey(s, j) && j != k {
      var i :| 0 <= i < |s| && s[i].key == j;
      assert s[i] in r;
    }
  }

  /** All cursors at the same key: it is common, and nothing before it is missing. */
  lemma Collect(ls: seq<Option<List>>, c: seq<nat>, res: List, m: uint64)
    requires |ls| > 0 && Cursors(ls, c) && Progress(ls, c, res)
    requires forall j: nat :: j < |ls| ==> KeyAt(ls, c, j) == m
    ensures Ready(ls, c, Set(res, m, ls[0].value[c[0]].val), {}, m)
  {
    var v := ls[0].value[c[0]].val;
    forall k ensures HasKey(Set(res, m, v), k) <==> k == m || HasKey(res, k) {
      HasKeyAfterSet(res, m, v, k);
    }
    CommonHere(ls, c, m);
    CollectedReady(ls, c, res, Set(res, m, v), m, v);
  }

  lemma CollectedReady(ls: seq<Option<List>>, c: seq<nat>, res: List, res': List, m: uint64, v: Val)
    requires |ls| > 0 && Cursors(ls, c) && Progress(ls, c, res) && Sorted(res')
    requires forall j: nat :: j < |ls| ==> KeyAt(ls, c, j) == m
    requires Common(ls, m) == Some(v)
    requires forall p :: p in res' <==> p == Posting(m, v) || (p in res && p.key != m)
    requires forall k :: HasKey(res', k) <==> k == m || HasKey(res, k)
    ensures Ready(ls, c, res', {}, m)
  {
    assert KeyAt(ls, c, 0) == m;
    forall k | Missing(ls, res', k) ensures m < k {
      assert Missing(ls, res, k);
      assert KeyAt(ls, c, 0) <= k;
    }
    forall p | p in res' ensures Common(ls, p.key) == Some(p.val) && p.key <= m {
      if p in res { assert p.key < KeyAt(ls, c, 0); }
    }
    assert 0 !in {};
  }

  /** Moving the cursors that may move keeps the progress made. */
  lemma Advance(ls: seq<Option<List>>, c: seq<nat>, d: seq<nat>, res: List, stay: set<nat>, m: uint64)
    requires Cursors(ls, c) && Cursors(ls, d) && Ready(ls, c, res, stay, m) && Moved(c, d, stay)
    ensures Progress(ls, d, res)
  {
    forall j: nat | j < |ls|
      ensures KeyAt(ls, c, j) <= KeyAt(ls, d, j) && (j !in stay ==> KeyAt(ls, c, j) < KeyAt(ls, d, j))
    {
      assert ls[j].value[c[j]].key <= ls[j].value[d[j]].key;
    }
    forall p, j: nat | p in res && j < |ls| ensures p.key < KeyAt(ls, d, j) {
      assert p.key <= KeyAt(ls, c, j);
    }
    forall k, j: nat | Missing(ls, res, k) && j < |ls| ensures KeyAt(ls, d, j) <= k {
      assert KeyAt(ls, c, j) <= k;
      if j !in stay {
        assert GetOpt(ls[j], k).Some?;
        NextKey(ls[j].value, c[j], k);
      }
    }
  }

  ghost function UpTo(n: nat): (s: set<nat>)
    ensures |s| == n
    ensures forall j: nat :: j in s <==> j < n
  {
    if n == 0 then {} else UpTo(n - 1) + {n - 1}
  }

  /** A set of indices below n has n members exactly when it holds all of them. */
  lemma FullSet(s: set<nat>, n: nat)
    requires forall j :: j in s ==> j < n
    ensures |s| == n <==> forall j: nat :: j < n ==> j in s
  {
    assert s <= UpTo(n);
    if |s| == n {
      forall j: nat | j < n ensures j in s {
        SubsetSize(s + {j}, UpTo(n));
      }
    }
    assert (forall j: nat :: j < n ==> j in s) ==> s == UpTo(n);
  }

  // ----- The algorithms -----

  method Intersect(lists: seq<Option<List>>) returns (r: Outcome<Option<List>>)
    requires AllSorted(lists)
    ensures r.Panic? <==> MeetsZeroKey(lists)
    ensures |lists| == 0 ==> r == Returned(None)
    ensures |lists| == 1 ==> r == Returned(lists[0])
    ensures |lists| >= 2 && SomeEmpty(lists) ==> r == Returned(None)
    ensures |lists| >= 2 && !SomeEmpty(lists) && r.Returned? ==>
              r.value.Some? && IsIntersection(lists, r.value.value)
  {
    var n := |lists|;
    if n == 0 {
      return Returned(None);
    }
    if n == 1 {
      return Returned(lists[0]);
    }
    var res: List := [];
    var nodes := new nat[n];
    for i := 0 to n
      invariant forall j :: 0 <= j < i ==> nodes[j] == 0 && lists[j].Some? && |lists[j].value| > 0
    {
      if lists[i] == None || |lists[i].value| == 0 {
        return Returned(None);
      }
      nodes[i] := 0;
    }
    Start(lists, nodes[..]);
    while true
      invariant Cursors(lists, nodes[..]) && Progress(lists, nodes[..], res)
      invariant MeetsZeroKey(lists) <==> KeyAt(lists, nodes[..], 0) == 0
      decreases Remaining(lists, nodes[..])
    {
      ghost var c := nodes[..];
      var scan := MaxNodes(lists, nodes);
      if scan.Panic? {
        return Panic;
      }
      var (maxValue, maxList) := scan.value;
      var exhausted;
      if |maxList| == n {
        AllAtMaximum(lists, c, maxValue, maxList);
        Collect(lists, c, res, maxValue);
        var front := lists[0].value[nodes[0]];
        res := Set(res, front.key, front.val);
        exhausted := MoveNext(lists, nodes, {});
        Round(lists, c, nodes[..], res, {}, maxValue, exhausted);
      } else {
        BehindMaximum(lists, c, res, maxValue, maxList);
        exhausted := MoveNext(lists, nodes, maxList);
        Round(lists, c, nodes[..], res, maxList, maxValue, exhausted);
      }
      if exhausted {
        return Returned(Some(res));
      }
    }
  }

  /** Moves every cursor outside stay to its next element, stopping at the end of a list. */
  method MoveNext(lists: seq<Option<List>>, nodes: array<nat>, stay: set<nat>) returns (exhausted: bool)
    requires Cursors(lists, nodes[..])
    modifies nodes
    ensures exhausted ==> Ends(lists, old(nodes[..]), stay)
    ensures !exhausted ==> Cursors(lists, nodes[..]) && Moved(old(nodes[..]), nodes[..], stay)
  {
    ghost var c := nodes[..];
    for i := 0 to |lists|
      invariant forall j: nat :: j < |lists| ==> nodes[j] == if j < i && j !in stay then c[j] + 1 else c[j]
      invariant forall j: nat :: j < i && j !in stay ==> c[j] + 1 < |lists[j].value|
    {
      if i !in stay {
        nodes[i] := nodes[i] + 1;
        if nodes[i] == |lists[i].value| {
          return true;
        }
      }
    }
    exhausted := false;
  }

  ghost predicate Moved(c: seq<nat>, d: seq<nat>, stay: set<nat>) {
    |c| == |d| && forall j: nat :: j < |c| ==> d[j] == if j in stay then c[j] else c[j] + 1
  }

  ghost predicate Ends(ls: seq<Option<List>>, c: seq<nat>, stay: set<nat>)
    requires Cursors(ls, c)
  {
    exists j: nat :: j < |ls| && j !in stay && c[j] + 1 == |ls[j].value|
  }

  /** After a round, either the search has ended with the intersection or the progress stands. */
  lemma Round(ls: seq<Option<List>>, c: seq<nat>, d: seq<nat>, res: List, stay: set<nat>, m: uint64, exhausted: bool)
    requires |ls| > 0 && Cursors(ls, c) && Ready(ls, c, res, stay, m)
    requires exhausted ==> Ends(ls, c, stay)
    requires !exhausted ==> Cursors(ls, d) && Moved(c, d, stay)
    ensures exhausted ==> IsIntersection(ls, res)
    ensures !exhausted ==> Progress(ls, d, res) && Remaining(ls, d) < Remaining(ls, c)
    ensures !exhausted ==> KeyAt(ls, d, 0) > 0 || KeyAt(ls, c, 0) == 0
  {
    if exhausted {
      var i: nat :| i < |ls| && i !in stay && c[i] + 1 == |ls[i].value|;
      Exhausted(ls, c, res, i);
    } else {
      Advance(ls, c, d, res, stay, m);
      var j: nat :| j < |ls| && j !in stay;
      assert d[j] != c[j];
      RemainingDrops(ls, c, d);
    }
  }

  lemma AllAtMaximum(ls: seq<Option<List>>, c: seq<nat>, m: uint64, stay: set<nat>)
    requires |ls| > 0 && Cursors(ls, c) && IsMaximum(ls, c, m, stay) && |stay| == |ls|
    ensures forall j: nat :: j < |ls| ==> KeyAt(ls, c, j) == m
  {
    FullSet(stay, |ls|);
    forall j: nat | j < |ls| ensures KeyAt(ls, c, j) == m {
      assert j in stay;
    }
  }

  lemma BehindMaximum(ls: seq<Option<List>>, c: seq<nat>, res: List, m: uint64, stay: set<nat>)
    requires Cursors(ls, c) && Progress(ls, c, res) && IsMaximum(ls, c, m, stay) && |stay| != |ls|
    ensures Ready(ls, c, res, stay, m)
  {
    FullSet(stay, |ls|);
    var top: nat :| top < |ls| && KeyAt(ls, c, top) == m;
    forall k, j: nat | Missing(ls, res, k) && j < |ls|
      ensures KeyAt(ls, c, j) <= k && (j !in stay ==> KeyAt(ls, c, j) < k)
    {
      assert KeyAt(ls, c, top) <= k;
    }
    assert exists j: nat :: j < |ls| && j !in stay;
  }

  /** The largest current key and the lists that stand on it. */
  method MaxNodes(lists: seq<Option<List>>, nodes: array<nat>) returns (r: Outcome<(uint64, set<nat>)>)
    requires |lists| > 0 && Cursors(lists, nodes[..])
    ensures r.Panic? <==> KeyAt(lists, nodes[..], 0) == 0
    ensures r.Returned? ==> IsMaximum(lists, nodes[..], r.value.0, r.value.1)
  {
    ghost var c := nodes[..];
    var maxList: Option<set<nat>> := None;
    var maxValue: uint64 := 0;
    for i := 0 to |lists|
      invariant i == 0 ==> maxValue == 0 && maxList == None
      invariant i > 0 ==> maxValue > 0 && maxList.Some? && KeyAt(lists, c, 0) > 0
      invariant maxList.Some? ==> forall j: nat :: j in maxList.value <==> j < i && KeyAt(lists, c, j) == maxValue
      invariant forall j :: 0 <= j < i ==> KeyAt(lists, c, j) <= maxValue
      invariant i > 0 ==> exists j :: 0 <= j < i && KeyAt(lists, c, j) == maxValue
    {
      var key := lists[i].value[nodes[i]].key;
      assert key == KeyAt(lists, c, i);
      if key > maxValue {
        maxValue := key;
        maxList := Some({i});
      } else if key == maxValue {
        if maxList == None {
          return Panic;
        }
        maxList := Some(maxList.value + {i});
      }
    }
    r := Returned((maxValue, maxList.value));
  }

  lemma Start(ls: seq<Option<List>>, c: seq<nat>)
    requires AllSorted(ls) && |c| == |ls|
    requires forall j :: 0 <= j < |ls| ==> c[j] == 0 && ls[j].Some? && |ls[j].value| > 0
    ensures Cursors(ls, c) && Progress(ls, c, [])
  {
    forall k, j | Missing(ls, [], k) && 0 <= j < |ls| ensures KeyAt(ls, c, j) <= k {
      assert GetOpt(ls[j], k).Some?;
      var i := GetSome(ls[j].value, k);
    }
  }

  method Union(lists: seq<Option<List>>) returns (res: Option<List>)
    requires AllSorted(lists)
    ensures |lists| == 0 ==> res == None
    ensures |lists| == 1 ==> res == lists[0]
    ensures |lists| > 1 ==> res.Some?
    ensures res.Some? ==> Sorted(res.value)
    ensures forall k :: GetOpt(res, k) == FirstOf(lists, k)
  {
    if |lists| == 0 {
      return None;
    }
    if |lists| == 1 {
      assert lists[..0] == [];
      return lists[0];
    }
    var r: List := [];
    var keySet: set<uint64> := {};
    for i := 0 to |lists|
      invariant Sorted(r) && KeysAre(keySet, r)
      invariant IsUnion(r, lists[..i], [])
    {
      if lists[i] == None {
        NextList(r, lists, i);
        continue;
      }
      var list := lists[i].value;
      for node := 0 to |list|
        invariant Sorted(r) && KeysAre(keySet, r)
        invariant IsUnion(r, lists[..i], list[..node])
      {
        var p := list[node];
        UnionStep(r, keySet, lists[..i], list, node);
        if p.key !in keySet {
          r := Set(r, p.key, p.val);
          keySet := keySet + {p.key};
        }
      }
      assert list[..|list|] == list;
      NextList(r, lists, i);
    }
    assert lists[..|lists|] == lists;
    res := Some(r);
    assert forall k :: Get([], k) == None;
    assert forall k :: GetOpt(res, k) == Get(r, k);
  }

  ghost predicate KeysAre(keySet: set<uint64>, r: List) {
    forall k :: k in keySet <==> HasKey(r, k)
  }

  /** The union of whole lists and, for keys in none of them, of a prefix of the next list. */
  ghost predicate IsUnion(r: List, whole: seq<Option<List>>, part: List) {
    forall k :: Get(r, k) == if FirstOf(whole, k).Some? then FirstOf(whole, k) else Get(part, k)
  }

  lemma NextList(r: List, lists: seq<Option<List>>, i: nat)
    requires i < |lists|
    requires IsUnion(r, lists[..i], if lists[i].Some? then lists[i].value else [])
    ensures IsUnion(r, lists[..i + 1], [])
  {
    assert lists[..i + 1][..i] == lists[..i];
    assert forall k :: Get([], k) == None;
  }

  lemma UnionStep(r: List, keySet: set<uint64>, whole: seq<Option<List>>, list: List, node: nat)
    requires Sorted(r) && KeysAre(keySet, r) && Sorted(list) && node < |list|
    requires IsUnion(r, whole, list[..node])
    ensures var p := list[node];
            if p.key in keySet then IsUnion(r, whole, list[..node + 1])
            else IsUnion(Set(r, p.key, p.val), whole, list[..node + 1])
                 && KeysAre(keySet + {p.key}, Set(r, p.key, p.val))
  {
    var p := list[node];
    GetPrefix(list, node);
    var r' := Set(r, p.key, p.val);
    forall k ensures Get(r', k) == if k == p.key then Some(p.val) else Get(r, k) {
      GetSet(r, p.key, p.val, k);
    }
    forall k ensures HasKey(r', k) <==> k == p.key || HasKey(r, k) {
      HasKeyAfterSet(r, p.key, p.val, k);
    }
    UnionOneMore(r, if p.key in keySet then r else r', whole, list[..node], list[..node + 1], p);
  }

  lemma UnionOneMore(r: List, r': List, whole: seq<Option<List>>, part: List, part': List, p: Posting)
    requires IsUnion(r, whole, part)
    requires forall k :: Get(part', k) == if k == p.key then Some(p.val) else Get(part, k)
    requires if HasKey(r, p.key) then r' == r && (Get(part, p.key).Some? ==> Get(part, p.key) == Some(p.val))
             else forall k :: Get(r', k) == if k == p.key then Some(p.val) else Get(r, k)
    ensures IsUnion(r', whole, part')
  {
  }

  lemma GetPrefix(l: List, n: nat)
    requires Sorted(l) && n < |l|
    ensures forall k :: Get(l[..n + 1], k) == if k == l[n].key then Some(l[n].val) else Get(l[..n], k)
    ensures Get(l[..n], l[n].key) == None
  {
    var p := l[..n + 1];
    forall k ensures Get(p, k) == if k == l[n].key then Some(l[n].val) else Get(l[..n], k) {
      GetAt(p, n);
      if Get(p, k).Some? && k != l[n].key {
        var i := GetSome(p, k);
        assert l[..n][i] == p[i];
        GetAt(l[..n], i);
      }
      if Get(l[..n], k).Some? {
        var i := GetSome(l[..n], k);
        assert p[i] == l[..n][i];
        GetAt(p, i);
      }
    }
  }
}
