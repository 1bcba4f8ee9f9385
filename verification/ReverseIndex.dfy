/** The inverted index and its query evaluator (internal/reverse_index/skiplist_reverse_index.go). */
module ReverseIndex {
  import opened GoBase
  import opened SkipList
  import opened Types
  import opened HashMap
  import Bits
  import Merge

  /** Posting key -> posting list, as the segmented map holds it. */
  type Table = map<Str, Option<List>>

  ghost predicate TableOk(t: Table) {
    forall key :: key in t ==> t[key].Some? && Sorted(t[key].value)
  }

  /** What key binds an IntId to. */
  ghost function At(t: Table, key: Str, k: uint64): Option<Val> {
    if key in t then Merge.GetOpt(t[key], k) else None
  }

  ghost predicate PositiveKeys(t: Table) {
    forall key :: At(t, key, 0) == None
  }

  datatype Flags = Flags(on: uint64, off: uint64, ors: seq<uint64>)

  /** The bit filter, bit by bit: all of on, none of off, and some bit of each non-zero or-flag. */
  ghost predicate Passes(bits: uint64, f: Flags) {
    && Contains(bits, f.on)
    && !Overlap(bits, f.off)
    && (forall j :: 0 <= j < |f.ors| && f.ors[j] > 0 ==> Overlap(bits, f.ors[j]))
  }

  ghost predicate Contains(x: nat, y: nat) {
    forall i: nat :: Bits.Bit(y, i) ==> Bits.Bit(x, i)
  }

  ghost predicate Overlap(x: nat, y: nat) {
    exists i: nat :: Bits.Bit(x, i) && Bits.Bit(y, i)
  }

  const NO_FLAGS := Flags(0, 0, [])

  lemma NoFlagsPass(bits: uint64)
    ensures Passes(bits, NO_FLAGS)
  {
    forall i: nat ensures !Bits.Bit(0, i) { Bits.ZeroHasNoBits(i); }
  }

  lemma AndIsOverlap(x: nat, y: nat)
    ensures Bits.And(x, y) > 0 <==> Overlap(x, y)
  {
    if Bits.And(x, y) > 0 {
      var i := Bits.NonZeroHasBit(Bits.And(x, y));
      Bits.AndBit(x, y, i);
    }
    if Overlap(x, y) {
      var i: nat :| Bits.Bit(x, i) && Bits.Bit(y, i);
      Bits.AndBit(x, y, i);
      Bits.ZeroHasNoBits(i);
    }
  }

  lemma AndIsContainment(x: nat, y: nat)
    ensures Bits.And(x, y) == y <==> Contains(x, y)
  {
    forall i: nat ensures Bits.Bit(Bits.And(x, y), i) <==> Bits.Bit(x, i) && Bits.Bit(y, i) {
      Bits.AndBit(x, y, i);
    }
    if Contains(x, y) {
      forall i: nat ensures Bits.Bit(Bits.And(x, y), i) == Bits.Bit(y, i) {
        assert Bits.Bit(y, i) ==> Bits.Bit(x, i);
      }
      Bits.BitsDetermine(Bits.And(x, y), y);
    } else {
      var i: nat :| Bits.Bit(y, i) && !Bits.Bit(x, i);
      assert !Bits.Bit(Bits.And(x, y), i);
    }
  }

  /** The filter in machine terms: each flag says what and-ing it with the bits must give, and all flags
      are needed. */
  lemma FlagsMean(bits: uint64, f: Flags)
    ensures Passes(bits, f) <==>
              && Bits.And(bits, f.on) == f.on
              && Bits.And(bits, f.off) == 0
              && forall i :: 0 <= i < |f.ors| ==> f.ors[i] == 0 || Bits.And(bits, f.ors[i]) != 0
  {
    AndIsContainment(bits, f.on);
    AndIsOverlap(bits, f.off);
    forall i | 0 <= i < |f.ors| ensures Bits.And(bits, f.ors[i]) > 0 <==> Overlap(bits, f.ors[i]) {
      AndIsOverlap(bits, f.ors[i]);
    }
  }

  method FilterByBits(bits: uint64, f: Flags) returns (r: bool)
    ensures r <==> Passes(bits, f)
  {
    AndIsContainment(bits, f.on);
    AndIsOverlap(bits, f.off);
    if Bits.And(bits, f.on) != f.on {
      return false;
    }
    if Bits.And(bits, f.off) != 0 {
      return false;
    }
    for j := 0 to |f.ors|
      invariant forall i :: 0 <= i < j && f.ors[i] > 0 ==> Overlap(bits, f.ors[i])
    {
      AndIsOverlap(bits, f.ors[j]);
      if f.ors[j] > 0 && Bits.And(bits, f.ors[j]) <= 0 {
        return false;
      }
    }
    r := true;
  }

  // ----- The meaning of a query -----

  /** What a query binds an IntId to: a keyword looks the posting up and filters it, a non-empty
      Must needs every subquery, otherwise a Should needs one; an empty query binds nothing. */
  ghost function Denote(t: Table, q: TermQuery, f: Flags, k: uint64): Option<Val>
    decreases q
  {
    match q.keyword
    case Some(kw) =>
      var v := At(t, KeyOf(kw), k);
      if v.Some? && Passes(v.value.bits, f) then v else None
    case None =>
      if |q.must| > 0 then
        if forall j :: 0 <= j < |q.must| ==> Denote(t, q.must[j], f, k).Some?
        then Denote(t, q.must[0], f, k) else None
      else DenoteFirst(t, q.should, f, k)
  }

  ghost function DenoteFirst(t: Table, qs: seq<TermQuery>, f: Flags, k: uint64): Option<Val>
    decreases qs
  {
    if qs == [] then None
    else
      var p := DenoteFirst(t, qs[..|qs| - 1], f, k);
      if p.Some? then p else Denote(t, qs[|qs| - 1], f, k)
  }

  /** All postings of an IntId carry the same value. */
  ghost predicate Coherent(t: Table) {
    forall key1, key2, k :: At(t, key1, k).Some? && At(t, key2, k).Some? ==> At(t, key1, k) == At(t, key2, k)
  }

  /** All postings of an IntId under keywords' keys carry the same bits. */
  ghost predicate BitsAgree(t: Table) {
    forall a, b, k :: At(t, KeyOf(a), k).Some? && At(t, KeyOf(b), k).Some? ==>
      At(t, KeyOf(a), k).value.bits == At(t, KeyOf(b), k).value.bits
  }

  /** A query binds an IntId only to what some keyword's posting binds it to. */
  lemma {:induction false} DenoteFromTable(t: Table, q: TermQuery, f: Flags, k: uint64) returns (kw: Keyword)
    requires Denote(t, q, f, k).Some?
    ensures At(t, KeyOf(kw), k) == Denote(t, q, f, k)
    decreases q
  {
    match q.keyword
    case Some(word) =>
      kw := word;
    case None =>
      if |q.must| > 0 {
        kw := DenoteFromTable(t, q.must[0], f, k);
      } else {
        kw := DenoteFirstFromTable(t, q.should, f, k);
      }
  }

  lemma {:induction false} DenoteFirstFromTable(t: Table, qs: seq<TermQuery>, f: Flags, k: uint64) returns (kw: Keyword)
    requires DenoteFirst(t, qs, f, k).Some?
    ensures At(t, KeyOf(kw), k) == DenoteFirst(t, qs, f, k)
    decreases qs
  {
    if DenoteFirst(t, qs[..|qs| - 1], f, k).Some? {
      kw := DenoteFirstFromTable(t, qs[..|qs| - 1], f, k);
    } else {
      kw := DenoteFromTable(t, qs[|qs| - 1], f, k);
    }
  }

  /** Filtering once, at the root. */
  ghost function IfPasses(v: Option<Val>, f: Flags): Option<Val> {
    if v.Some? && Passes(v.value.bits, f) then v else None
  }

  /** Filtering at every leaf is filtering once at the root, for every tree, provided that the
      postings of an IntId agree in their bits. */
  lemma {:induction false} FilterPushdown(t: Table, q: TermQuery, f: Flags, k: uint64)
    requires BitsAgree(t)
    ensures Denote(t, q, f, k) == IfPasses(Denote(t, q, NO_FLAGS, k), f)
    decreases q
  {
    match q.keyword
    case Some(kw) =>
      if At(t, KeyOf(kw), k).Some? { NoFlagsPass(At(t, KeyOf(kw), k).value.bits); }
    case None =>
      if |q.must| > 0 {
        forall j | 0 <= j < |q.must|
          ensures Denote(t, q.must[j], f, k) == IfPasses(Denote(t, q.must[j], NO_FLAGS, k), f)
          ensures Denote(t, q.must[j], NO_FLAGS, k).Some? && Denote(t, q.must[0], NO_FLAGS, k).Some? ==>
                    Denote(t, q.must[j], NO_FLAGS, k).value.bits == Denote(t, q.must[0], NO_FLAGS, k).value.bits
        {
          FilterPushdown(t, q.must[j], f, k);
          if Denote(t, q.must[j], NO_FLAGS, k).Some? && Denote(t, q.must[0], NO_FLAGS, k).Some? {
            var a := DenoteFromTable(t, q.must[j], NO_FLAGS, k);
            var b := DenoteFromTable(t, q.must[0], NO_FLAGS, k);
          }
        }
        assert q.must[0] == q.must[0];
      } else {
        FilterPushdownFirst(t, q.should, f, k);
      }
  }

  lemma {:induction false} FilterPushdownFirst(t: Table, qs: seq<TermQuery>, f: Flags, k: uint64)
    requires BitsAgree(t)
    ensures DenoteFirst(t, qs, f, k) == IfPasses(DenoteFirst(t, qs, NO_FLAGS, k), f)
    decreases qs
  {
    if qs != [] {
      var n := |qs| - 1;
      FilterPushdownFirst(t, qs[..n], f, k);
      FilterPushdown(t, qs[n], f, k);
      if DenoteFirst(t, qs[..n], NO_FLAGS, k).Some? && Denote(t, qs[n], NO_FLAGS, k).Some? {
        var a := DenoteFirstFromTable(t, qs[..n], NO_FLAGS, k);
        var b := DenoteFromTable(t, qs[n], NO_FLAGS, k);
      }
    }
  }

  /** Moving the filter changes nothing, for any query, flags and IntId. */
  ghost predicate PushdownHolds(t: Table) {
    forall q, f, k :: Denote(t, q, f, k) == IfPasses(Denote(t, q, NO_FLAGS, k), f)
  }

  /** Two postings of an IntId with different bits: asked for both keywords and for the bits of one of
      them, filtering at the leaves loses the IntId, filtering at the root does not. */
  lemma PushdownFails(t: Table, a: Keyword, b: Keyword, k: uint64) returns (q: TermQuery, f: Flags)
    requires At(t, KeyOf(a), k).Some? && At(t, KeyOf(b), k).Some?
    requires At(t, KeyOf(a), k).value.bits != At(t, KeyOf(b), k).value.bits
    ensures Denote(t, q, f, k) == None && IfPasses(Denote(t, q, NO_FLAGS, k), f).Some?
  {
    var x, y := At(t, KeyOf(a), k).value.bits, At(t, KeyOf(b), k).value.bits;
    if Contains(x, y) && Contains(y, x) {
      Bits.BitsDetermine(x, y);
    }
    if Contains(y, x) {
      q, f := LeavesMissIt(t, b, a, k);
    } else {
      q, f := LeavesMissIt(t, a, b, k);
    }
  }

  lemma LeavesMissIt(t: Table, a: Keyword, b: Keyword, k: uint64) returns (q: TermQuery, f: Flags)
    requires At(t, KeyOf(a), k).Some? && At(t, KeyOf(b), k).Some?
    requires !Contains(At(t, KeyOf(b), k).value.bits, At(t, KeyOf(a), k).value.bits)
    ensures Denote(t, q, f, k) == None && IfPasses(Denote(t, q, NO_FLAGS, k), f).Some?
  {
    var x, y := At(t, KeyOf(a), k).value.bits, At(t, KeyOf(b), k).value.bits;
    var qa, qb := TermQuery(Some(a), [], []), TermQuery(Some(b), [], []);
    q, f := TermQuery(None, [qa, qb], []), Flags(x, 0, []);
    NoFlagsPass(x);
    NoFlagsPass(y);
    assert Passes(x, f) by {
      forall i: nat ensures !Bits.Bit(0, i) { Bits.ZeroHasNoBits(i); }
    }
    assert Denote(t, qa, NO_FLAGS, k).Some? && Denote(t, qb, NO_FLAGS, k).Some?;
    assert Denote(t, q.must[1], f, k) == None;
  }

  /** The filter can be moved from the root to the leaves exactly when the postings of every IntId agree
      in their bits. */
  lemma PushdownIff(t: Table)
    ensures PushdownHolds(t) <==> BitsAgree(t)
  {
    hide Denote, Passes;
    if BitsAgree(t) {
      forall q, f, k ensures Denote(t, q, f, k) == IfPasses(Denote(t, q, NO_FLAGS, k), f) {
        FilterPushdown(t, q, f, k);
      }
    } else {
      var a, b, k :| At(t, KeyOf(a), k).Some? && At(t, KeyOf(b), k).Some? &&
                     At(t, KeyOf(a), k).value.bits != At(t, KeyOf(b), k).value.bits;
      var q, f := PushdownFails(t, a, b, k);
    }
  }

  // ----- Postings of a document -----

  function ListOf(t: Table, key: Str): List {
    if key in t && t[key].Some? then t[key].value else []
  }

  lemma AtSet(t: Table, last: Str, intId: uint64, v: Val, key: Str, k: uint64)
    requires TableOk(t)
    ensures At(t[last := Some(Set(ListOf(t, last), intId, v))], key, k) ==
              if key == last && k == intId then Some(v) else At(t, key, k)
  {
    GetSet(ListOf(t, last), intId, v, k);
  }

  /** The table after a document has been posted under some keywords. */
  function AddPostings(t: Table, d: Document, kws: seq<Keyword>): (r: Table)
    requires TableOk(t)
    ensures TableOk(r)
  {
    if kws == [] then t
    else
      var t' := AddPostings(t, d, kws[..|kws| - 1]);
      AddPosting(t', d, kws[|kws| - 1])
  }

  function AddPosting(t: Table, d: Document, kw: Keyword): (r: Table)
    requires TableOk(t)
    ensures TableOk(r)
  {
    var key := KeyOf(kw);
    t[key := Some(Set(ListOf(t, key), d.intId, Val(d.id, d.bits)))]
  }

  lemma {:induction false} AtAddPostings(t: Table, d: Document, kws: seq<Keyword>, key: Str, k: uint64)
    requires TableOk(t)
    ensures At(AddPostings(t, d, kws), key, k) ==
              if k == d.intId && HasKeyword(kws, key) then Some(Val(d.id, d.bits)) else At(t, key, k)
  {
    if kws != [] {
      var n := |kws| - 1;
      AtAddPostings(t, d, kws[..n], key, k);
      AtSet(AddPostings(t, d, kws[..n]), KeyOf(kws[n]), d.intId, Val(d.id, d.bits), key, k);
      HasKeywordLast(kws, key);
    }
  }

  /** The table after one keyword's posting has been removed: the list stays, even when empty. */
  function DeletePosting(t: Table, intId: uint64, kw: Keyword): (r: Table)
    requires TableOk(t)
    ensures TableOk(r)
  {
    var key := KeyOf(kw);
    if key in t then t[key := Some(Remove(t[key].value, intId))] else t
  }

  function DeletePostings(t: Table, intId: uint64, kws: seq<Keyword>): (r: Table)
    requires TableOk(t)
    ensures TableOk(r)
  {
    if kws == [] then t
    else DeletePosting(DeletePostings(t, intId, kws[..|kws| - 1]), intId, kws[|kws| - 1])
  }

  lemma {:induction false} AtDeletePostings(t: Table, intId: uint64, kws: seq<Keyword>, key: Str, k: uint64)
    requires TableOk(t)
    ensures At(DeletePostings(t, intId, kws), key, k) ==
              if k == intId && HasKeyword(kws, key) then None else At(t, key, k)
  {
    if kws != [] {
      var n := |kws| - 1;
      AtDeletePostings(t, intId, kws[..n], key, k);
      AtRemove(DeletePostings(t, intId, kws[..n]), intId, kws[n], key, k);
      HasKeywordLast(kws, key);
    }
  }

  lemma AtRemove(t: Table, intId: uint64, kw: Keyword, key: Str, k: uint64)
    requires TableOk(t)
    ensures At(DeletePosting(t, intId, kw), key, k) == if key == KeyOf(kw) && k == intId then None else At(t, key, k)
  {
    if KeyOf(kw) in t { GetRemove(t[KeyOf(kw)].value, intId, k); }
  }

  // ----- The index -----

  /** The result of evaluating a query: a nil or sorted list with exactly the denoted bindings. */
  ghost predicate Represents(res: Option<List>, t: Table, q: TermQuery, f: Flags) {
    && (res.Some? ==> Sorted(res.value))
    && (forall k :: Merge.GetOpt(res, k) == Denote(t, q, f, k))
  }

  class SkipListReverseIndex {
    const table: ConcurrentHashMap<List>

    ghost predicate Valid()
      reads this, table, table.childMaps
    {
      table.Valid() && TableOk(table.contents)
    }

    constructor (segment: nat, hash: Str -> nat)
      requires segment > 0
      ensures Valid() && fresh(table) && fresh(table.childMaps)
      ensures table.contents == map[]
    {
      table := new ConcurrentHashMap(segment, hash);
    }

    method Add(doc: Document)
      requires Valid()
      modifies table`contents, table.childMaps
      ensures Valid()
      ensures table.contents == AddPostings(old(table.contents), doc, doc.keywords)
    {
      hide AddPosting, TableOk;
      ghost var t, kws := table.contents, doc.keywords;
      assert kws[..0] == [];
      for i := 0 to |doc.keywords|
        invariant Valid()
        invariant table.contents == AddPostings(t, doc, kws[..i])
      {
        assert kws[..i + 1][..i] == kws[..i];
        Post(doc, doc.keywords[i]);
      }
      assert kws[..|kws|] == kws;
    }

    method Post(doc: Document, keyword: Keyword)
      requires Valid()
      modifies table`contents, table.childMaps
      ensures Valid()
      ensures table.contents == AddPosting(old(table.contents), doc, keyword)
    {
      var key := KeyOf(keyword);
      var value, found := table.Get(key);
      var list := if found then value.value else [];
      table.Set(key, Some(Set(list, doc.intId, Val(doc.id, doc.bits))));
    }

    method Delete(intId: uint64, keyword: Keyword)
      requires Valid()
      modifies table`contents, table.childMaps
      ensures Valid()
      ensures table.contents == DeletePosting(old(table.contents), intId, keyword)
    {
      var key := KeyOf(keyword);
      var value, found := table.Get(key);
      if found {
        table.Set(key, Some(Remove(value.value, intId)));
      }
    }

    /** Evaluates a query. It panics only on a posting with key zero. */
    method search(q: TermQuery, f: Flags) returns (r: Outcome<Option<List>>)
      requires Valid()
      ensures PositiveKeys(table.contents) ==> r.Returned?
      ensures r.Returned? ==> Represents(r.value, table.contents, q, f)
      decreases q
    {
      ghost var t := table.contents;
      if q.keyword.Some? {
        var key := KeyOf(q.keyword.value);
        var value, found := table.Get(key);
        if found {
          var result := Filtered(value.value, f);
          return Returned(Some(result));
        }
        return Returned(None);
      }
      if |q.must| > 0 {
        var results: seq<Option<List>> := [];
        for j := 0 to |q.must|
          invariant |results| == j
          invariant forall i :: 0 <= i < j ==> Represents(results[i], t, q.must[i], f)
        {
          var sub := search(q.must[j], f);
          if sub.Panic? {
            return Panic;
          }
          results := results + [sub.value];
        }
        r := Merge.Intersect(results);
        IntersectionDenotes(results, t, q, f);
        if PositiveKeys(t) { NoZeroKeyMet(results, t, q, f); }
        if Merge.SomeEmpty(results) { EmptyIntersection(results, t, q, f); }
        if |results| == 1 { SingleIntersection(results, t, q, f); }
        return;
      }
      var results: seq<Option<List>> := [];
      for j := 0 to |q.should|
        invariant |results| == j
        invariant forall i :: 0 <= i < j ==> Represents(results[i], t, q.should[i], f)
      {
        var sub := search(q.should[j], f);
        if sub.Panic? {
          return Panic;
        }
        results := results + [sub.value];
      }
      var res := Merge.Union(results);
      forall k ensures Merge.FirstOf(results, k) == DenoteFirst(t, q.should, f, k) {
        UnionDenotes(results, t, q.should, f, k);
      }
      r := Returned(res);
    }

    /** The business ids of the result, in IntId order. */
    method Search(q: TermQuery, f: Flags) returns (r: Outcome<seq<Str>>, ghost hits: List)
      requires Valid()
      ensures PositiveKeys(table.contents) ==> r.Returned?
      ensures r.Returned? ==> IsHits(hits, table.contents, q, f) && r.value == Ids(hits)
    {
      hits := [];
      var skp := search(q, f);
      if skp.Panic? {
        return Panic, hits;
      }
      if skp.value == None {
        assert IsHits([], table.contents, q, f) by {
          forall k ensures Get([], k) == Denote(table.contents, q, f, k) {
            assert Merge.GetOpt(None, k) == None;
          }
        }
        return Returned([]), [];
      }
      var list := skp.value.value;
      hits := list;
      forall k ensures Get(list, k) == Denote(table.contents, q, f, k) {
        assert Merge.GetOpt(skp.value, k) == Get(list, k);
      }
      var result: seq<Str> := [];
      for i := 0 to |list|
        invariant result == Ids(list[..i])
      {
        result := result + [list[i].val.id];
      }
      assert list[..|list|] == list;
      r := Returned(result);
    }
  }

  function Ids(l: List): (r: seq<Str>)
    ensures |r| == |l|
    ensures forall i :: 0 <= i < |r| ==> r[i] == l[i].val.id
  {
    seq(|l|, i requires 0 <= i < |l| => l[i].val.id)
  }

  ghost predicate IsHits(hits: List, t: Table, q: TermQuery, f: Flags) {
    Sorted(hits) && forall k :: Get(hits, k) == Denote(t, q, f, k)
  }

  method Filtered(list: List, f: Flags) returns (result: List)
    requires Sorted(list)
    ensures Sorted(result)
    ensures forall k :: Get(result, k) ==
              if Get(list, k).Some? && Passes(Get(list, k).value.bits, f) then Get(list, k) else None
  {
    result := [];
    for i := 0 to |list|
      invariant Sorted(result)
      invariant forall p :: p in result <==> p in list[..i] && Passes(p.val.bits, f)
    {
      var pass := FilterByBits(list[i].val.bits, f);
      assert list[..i + 1] == list[..i] + [list[i]];
      if pass {
        result := Set(result, list[i].key, list[i].val);
      }
    }
    assert list[..|list|] == list;
    forall k
      ensures Get(result, k) ==
                if Get(list, k).Some? && Passes(Get(list, k).value.bits, f) then Get(list, k) else None
    {
      if Get(result, k).Some? {
        GetIsMembership(result, k, Get(result, k).value);
        GetIsMembership(list, k, Get(result, k).value);
      }
      if Get(list, k).Some? {
        GetIsMembership(result, k, Get(list, k).value);
        GetIsMembership(list, k, Get(list, k).value);
      }
    }
  }

  lemma IntersectionDenotes(results: seq<Option<List>>, t: Table, q: TermQuery, f: Flags)
    requires q.keyword == None && |q.must| == |results| > 0
    requires forall i :: 0 <= i < |results| ==> Represents(results[i], t, q.must[i], f)
    ensures forall k :: Merge.Common(results, k) == Denote(t, q, f, k)
  {
    forall k ensures Merge.Common(results, k) == Denote(t, q, f, k) {
      assert forall j :: 0 <= j < |results| ==> Merge.GetOpt(results[j], k) == Denote(t, q.must[j], f, k);
    }
  }

  lemma EmptyIntersection(results: seq<Option<List>>, t: Table, q: TermQuery, f: Flags)
    requires Merge.SomeEmpty(results)
    requires forall k :: Merge.Common(results, k) == Denote(t, q, f, k)
    ensures Represents(None, t, q, f)
  {
    var j :| 0 <= j < |results| && (results[j] == None || |results[j].value| == 0);
    forall k ensures Merge.GetOpt(None, k) == Denote(t, q, f, k) {
      assert Merge.GetOpt(results[j], k) == None;
      assert Merge.Common(results, k) == None;
    }
  }

  lemma SingleIntersection(results: seq<Option<List>>, t: Table, q: TermQuery, f: Flags)
    requires q.keyword == None && |q.must| == |results| == 1
    requires Represents(results[0], t, q.must[0], f)
    ensures Represents(results[0], t, q, f)
  {
    forall k ensures Merge.GetOpt(results[0], k) == Denote(t, q, f, k) {
      var v := Denote(t, q.must[0], f, k);
      assert Merge.GetOpt(results[0], k) == v;
      assert v.Some? ==> forall j :: 0 <= j < |q.must| ==> q.must[j] == q.must[0];
    }
  }

  lemma NoZeroKeyMet(results: seq<Option<List>>, t: Table, q: TermQuery, f: Flags)
    requires PositiveKeys(t)
    requires |q.must| == |results| > 0 && Represents(results[0], t, q.must[0], f)
    ensures !Merge.MeetsZeroKey(results)
  {
    if Merge.MeetsZeroKey(results) {
      GetAt(results[0].value, 0);
      assert Merge.GetOpt(results[0], 0) == Denote(t, q.must[0], f, 0);
      var kw := DenoteFromTable(t, q.must[0], f, 0);
    }
  }

  lemma {:induction false} UnionDenotes(results: seq<Option<List>>, t: Table, qs: seq<TermQuery>, f: Flags, k: uint64)
    requires |qs| == |results|
    requires forall i :: 0 <= i < |results| ==> Represents(results[i], t, qs[i], f)
    ensures Merge.FirstOf(results, k) == DenoteFirst(t, qs, f, k)
  {
    if qs != [] {
      UnionDenotes(results[..|qs| - 1], t, qs[..|qs| - 1], f, k);
      assert Merge.GetOpt(results[|qs| - 1], k) == Denote(t, qs[|qs| - 1], f, k);
    }
  }
}
