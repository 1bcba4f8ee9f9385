/** Posting lists. The skip list library keeps its elements in strictly ascending key order;
    only that order and the effect of Set, Remove, Front and Next matter here, so a list is the
    sequence of its elements from front to back. */
module SkipList {
  import opened GoBase

  /** What a posting carries besides its key: the business id and the feature bits. */
  datatype Val = Val(id: Str, bits: uint64)

  datatype Posting = Posting(key: uint64, val: Val)

  type List = seq<Posting>

  ghost predicate Sorted(s: List) {
    forall i, j :: 0 <= i < j < |s| ==> s[i].key < s[j].key
  }

  ghost predicate HasKey(s: List, k: uint64) {
    exists i :: 0 <= i < |s| && s[i].key == k
  }

  /** The abstract view of a list: a partial map from keys to values. */
  ghost function Get(s: List, k: uint64): Option<Val> {
    if HasKey(s, k) then
      var i :| 0 <= i < |s| && s[i].key == k;
      Some(s[i].val)
    else None
  }

  lemma GetAt(s: List, i: nat)
    requires Sorted(s) && i < |s|
    ensures Get(s, s[i].key) == Some(s[i].val)
  {
    assert HasKey(s, s[i].key);
    var j :| 0 <= j < |s| && s[j].key == s[i].key && Get(s, s[i].key) == Some(s[j].val);
  }

  lemma GetSome(s: List, k: uint64) returns (i: nat)
    requires Get(s, k).Some?
    ensures i < |s| && s[i] == Posting(k, Get(s, k).value)
  {
    i :| 0 <= i < |s| && s[i].key == k && Get(s, k) == Some(s[i].val);
  }

  lemma SortedTail(s: List)
    requires Sorted(s) && s != []
    ensures Sorted(s[1..]) && forall p :: p in s[1..] ==> s[0].key < p.key
    ensures forall p :: p in s <==> p == s[0] || p in s[1..]
  {
    assert s == [s[0]] + s[1..];
  }

  lemma SortedFront(p: Posting, s: List)
    requires Sorted(s) && forall q :: q in s ==> p.key < q.key
    ensures Sorted([p] + s)
    ensures forall q :: q in [p] + s <==> q == p || q in s
  {
    assert forall i :: 0 <= i < |s| ==> s[i] in s;
  }

  /** Insert or overwrite. */
  function Set(s: List, k: uint64, v: Val): (r: List)
    requires Sorted(s)
    ensures Sorted(r)
    ensures forall p :: p in r <==> p == Posting(k, v) || (p in s && p.key != k)
  {
    hide Sorted;
    if s == [] then
      SortedFront(Posting(k, v), []);
      [Posting(k, v)] + s
    else
      SortedTail(s);
      if k < s[0].key then
        SortedFront(Posting(k, v), s);
        [Posting(k, v)] + s
      else if k == s[0].key then
        SortedFront(Posting(k, v), s[1..]);
        [Posting(k, v)] + s[1..]
      else
        SortedFront(s[0], Set(s[1..], k, v));
        [s[0]] + Set(s[1..], k, v)
  }

  function Remove(s: List, k: uint64): (r: List)
    requires Sorted(s)
    ensures Sorted(r)
    ensures forall p :: p in r <==> p in s && p.key != k
  {
    if s == [] then []
    else if s[0].key == k then
      assert s == [s[0]] + s[1..];
      s[1..]
    else
      assert s == [s[0]] + s[1..];
      [s[0]] + Remove(s[1..], k)
  }

  /** The members of a sorted list are exactly its key-value bindings. */
  lemma GetIsMembership(s: List, k: uint64, v: Val)
    requires Sorted(s)
    ensures Posting(k, v) in s <==> Get(s, k) == Some(v)
  {
    if Posting(k, v) in s {
      var i :| 0 <= i < |s| && s[i] == Posting(k, v);
      GetAt(s, i);
    }
    if Get(s, k) == Some(v) {
      var i := GetSome(s, k);
    }
  }

  lemma GetSet(s: List, k: uint64, v: Val, j: uint64)
    requires Sorted(s)
    ensures Get(Set(s, k, v), j) == if j == k then Some(v) else Get(s, j)
  {
    var r := Set(s, k, v);
    if j == k {
      GetIsMembership(r, k, v);
    } else {
      SameGet(r, s, j);
    }
  }

  lemma GetRemove(s: List, k: uint64, j: uint64)
    requires Sorted(s)
    ensures Get(Remove(s, k), j) == if j == k then None else Get(s, j)
  {
    if j == k {
      if Get(Remove(s, k), k).Some? { var i := GetSome(Remove(s, k), k); }
    } else {
      SameGet(Remove(s, k), s, j);
    }
  }

  lemma SameGet(s: List, t: List, k: uint64)
    requires Sorted(s) && Sorted(t)
    requires forall p: Posting :: p.key == k ==> (p in s <==> p in t)
    ensures Get(s, k) == Get(t, k)
  {
    if Get(s, k).Some? {
      var i := GetSome(s, k);
      GetIsMembership(t, k, s[i].val);
    } else if Get(t, k).Some? {
      var i := GetSome(t, k);
      GetIsMembership(s, k, t[i].val);
    }
  }

  /** The order is part of the abstract value: equal bindings, equal lists. */
  lemma {:induction false} SortedUnique(s: List, t: List)
    requires Sorted(s) && Sorted(t)
    requires forall k :: Get(s, k) == Get(t, k)
    ensures s == t
  {
    forall p ensures p in s <==> p in t {
      GetIsMembership(s, p.key, p.val);
      GetIsMembership(t, p.key, p.val);
    }
    SortedSameMembers(s, t);
  }

  lemma {:induction false} SortedSameMembers(s: List, t: List)
    requires Sorted(s) && Sorted(t)
    requires forall p :: p in s <==> p in t
    ensures s == t
  {
    assert s != [] ==> s[0] in t;
    assert t != [] ==> t[0] in s;
    if s != [] && t != [] {
      assert s[0] == t[0];
      forall p ensures p in s[1..] <==> p in t[1..] {
        assert s == [s[0]] + s[1..] && t == [t[0]] + t[1..];
        assert p in s[1..] ==> p in s && p.key != s[0].key;
        assert p in t[1..] ==> p in t && p.key != t[0].key;
      }
      SortedSameMembers(s[1..], t[1..]);
      assert s == [s[0]] + s[1..] && t == [t[0]] + t[1..];
    }
  }
}
