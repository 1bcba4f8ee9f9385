/** The state of an index - the stored documents and the posting lists - and what its operations
    keep (service/indexer.go). The class that carries this state out is in Indexer.dfy. */
module IndexState {
  import opened GoBase
  import opened SkipList
  import opened Types
  import opened ReverseIndex

  /** The forward index: stored documents by trimmed id. */
  type Store = map<Str, Document>

  datatype State = State(forward: Store, table: Table)

  function Delete(s: State, id: Str): State
    requires TableOk(s.table)
  {
    if id in s.forward then
      State(s.forward - {id}, DeletePostings(s.table, s.forward[id].intId, s.forward[id].keywords))
    else s
  }

  /** The stored document keeps its untrimmed id; only the forward key is trimmed. */
  function Add(s: State, doc: Document, intId: uint64): State
    requires TableOk(s.table)
  {
    var id := TrimSpace(doc.id);
    if id == [] then s
    else
      var s1 := Delete(s, id);
      var d := doc.(intId := intId);
      State(s1.forward[id := d], AddPostings(s1.table, d, d.keywords))
  }

  /** Posting stored documents again, in the order of iteration. */
  function Repost(t: Table, forward: Store, order: seq<Str>): (t': Table)
    requires TableOk(t)
    requires forall i :: 0 <= i < |order| ==> order[i] in forward
    ensures TableOk(t')
  {
    if order == [] then t
    else
      var n := |order| - 1;
      var d := forward[order[n]];
      AddPostings(Repost(t, forward, order[..n]), d, d.keywords)
  }

  /** The table that a restart builds from the stored documents. */
  function Rebuild(forward: Store, order: seq<Str>): (t: Table)
    requires forall i :: 0 <= i < |order| ==> order[i] in forward
    ensures TableOk(t)
  {
    Repost(map[], forward, order)
  }

  // ----- Coherence -----

  ghost predicate Posted(forward: Store, key: Str, k: uint64, id: Str) {
    id in forward && forward[id].intId == k && HasPostingKey(forward[id], key)
  }

  ghost predicate StoreOk(forward: Store) {
    && (forall id :: id in forward ==> TrimSpace(forward[id].id) == id && forward[id].intId > 0)
    && (forall id1, id2 :: id1 in forward && id2 in forward && forward[id1].intId == forward[id2].intId ==> id1 == id2)
  }

  /** An IntId is posted under a key exactly when a stored document has that IntId and a keyword
      with that key, and the posting carries that document's id and bits. */
  ghost predicate Mirrors(table: Table, forward: Store) {
    && TableOk(table)
    && (forall key, k, id :: Posted(forward, key, k, id) ==>
          At(table, key, k) == Some(Val(forward[id].id, forward[id].bits)))
    && (forall key, k :: At(table, key, k).Some? ==> exists id :: Posted(forward, key, k, id))
  }

  ghost predicate Invariant(s: State) {
    StoreOk(s.forward) && Mirrors(s.table, s.forward)
  }

  ghost predicate Unused(forward: Store, intId: uint64) {
    intId > 0 && forall id :: id in forward ==> forward[id].intId != intId
  }

  lemma EmptyInvariant()
    ensures Invariant(State(map[], map[]))
  {
  }

  lemma DeleteKeeps(s: State, id: Str)
    requires Invariant(s)
    ensures Invariant(Delete(s, id))
  {
    if id in s.forward {
      var d, s' := s.forward[id], Delete(s, id);
      forall key, k ensures At(s'.table, key, k) == if k == d.intId then None else At(s.table, key, k) {
        AtDeletePostings(s.table, d.intId, d.keywords, key, k);
        if k == d.intId && At(s.table, key, k).Some? {
          var id' :| Posted(s.forward, key, k, id');
          assert id' == id;
        }
      }
      forall key, k, id' | Posted(s'.forward, key, k, id')
        ensures At(s'.table, key, k) == Some(Val(s'.forward[id'].id, s'.forward[id'].bits))
      {
        assert Posted(s.forward, key, k, id');
      }
      forall key, k | At(s'.table, key, k).Some? ensures exists id' :: Posted(s'.forward, key, k, id') {
        var id' :| Posted(s.forward, key, k, id');
        assert Posted(s'.forward, key, k, id');
      }
    }
  }

  /** Posting a document that is stored under an unused IntId. */
  lemma PostKeeps(table: Table, forward: Store, id: Str, d: Document)
    requires Mirrors(table, forward) && id !in forward
    requires Unused(forward, d.intId)
    ensures Mirrors(AddPostings(table, d, d.keywords), forward[id := d])
  {
    var table', forward' := AddPostings(table, d, d.keywords), forward[id := d];
    forall key, k
      ensures At(table', key, k) ==
                if k == d.intId && HasPostingKey(d, key) then Some(Val(d.id, d.bits)) else At(table, key, k)
    {
      AtAddPostings(table, d, d.keywords, key, k);
    }
    forall key, k, id' | Posted(forward', key, k, id')
      ensures At(table', key, k) == Some(Val(forward'[id'].id, forward'[id'].bits))
    {
      if id' != id { assert Posted(forward, key, k, id'); }
    }
    forall key, k | At(table', key, k).Some? ensures exists id' :: Posted(forward', key, k, id') {
      if k == d.intId && HasPostingKey(d, key) {
        assert Posted(forward', key, k, id);
      } else {
        var id' :| Posted(forward, key, k, id');
        assert Posted(forward', key, k, id');
      }
    }
  }

  lemma AddKeeps(s: State, doc: Document, intId: uint64)
    requires Invariant(s)
    requires Unused(Delete(s, TrimSpace(doc.id)).forward, intId)
    ensures Invariant(Add(s, doc, intId))
  {
    var id := TrimSpace(doc.id);
    if id != [] {
      DeleteKeeps(s, id);
      PostKeeps(Delete(s, id).table, Delete(s, id).forward, id, doc.(intId := intId));
    }
  }

  /** A replaced document is never found by its old keywords. */
  lemma ReplacedIsGone(s: State, doc: Document, intId: uint64, key: Str)
    requires Invariant(s) && TrimSpace(doc.id) in s.forward
    requires TrimSpace(doc.id) != []
    requires Unused(s.forward, intId)
    ensures At(Add(s, doc, intId).table, key, s.forward[TrimSpace(doc.id)].intId) == None
    ensures !HasPostingKey(doc, key) ==>
              forall k :: At(Add(s, doc, intId).table, key, k).Some? ==>
                At(Add(s, doc, intId).table, key, k).value.id != doc.id
  {
    var id := TrimSpace(doc.id);
    var replaced, s' := s.forward[id].intId, Add(s, doc, intId);
    AddKeeps(s, doc, intId);
    forall id' ensures !Posted(s'.forward, key, replaced, id') {
      assert id' in s'.forward && id' != id ==> id' in s.forward && s.forward[id'] == s'.forward[id'];
    }
    if !HasPostingKey(doc, key) {
      forall k | At(s'.table, key, k).Some? ensures At(s'.table, key, k).value.id != doc.id {
        var id' :| Posted(s'.forward, key, k, id');
      }
    }
  }

  // ----- Restart -----

  ghost predicate IterationOrder(forward: Store, order: seq<Str>) {
    NoDuplicates(order) && forall id :: id in order <==> id in forward
  }

  ghost function Restrict(forward: Store, ids: seq<Str>): Store {
    map id | id in ids && id in forward :: forward[id]
  }

  lemma RestrictLast(forward: Store, ids: seq<Str>)
    requires ids != [] && NoDuplicates(ids) && ids[|ids| - 1] in forward
    ensures var n := |ids| - 1;
            && ids[n] !in Restrict(forward, ids[..n])
            && Restrict(forward, ids) == Restrict(forward, ids[..n])[ids[n] := forward[ids[n]]]
  {
    var n := |ids| - 1;
    assert ids == ids[..n] + [ids[n]];
    assert ids[n] !in ids[..n];
  }

  lemma {:induction false} RebuildMirrors(forward: Store, order: seq<Str>)
    requires StoreOk(forward) && NoDuplicates(order)
    requires forall i :: 0 <= i < |order| ==> order[i] in forward
    ensures Mirrors(Rebuild(forward, order), Restrict(forward, order))
  {
    if order != [] {
      var n := |order| - 1;
      RebuildMirrors(forward, order[..n]);
      RestrictLast(forward, order);
      PostKeeps(Rebuild(forward, order[..n]), Restrict(forward, order[..n]), order[n], forward[order[n]]);
    }
  }

  /** Loading on top of a table that already mirrors the store changes no posting. */
  lemma {:induction false} ReloadChangesNothing(t: Table, forward: Store, order: seq<Str>, key: Str, k: uint64)
    requires StoreOk(forward) && Mirrors(t, forward)
    requires forall i :: 0 <= i < |order| ==> order[i] in forward
    ensures At(Repost(t, forward, order), key, k) == At(t, key, k)
  {
    if order != [] {
      var n := |order| - 1;
      var d := forward[order[n]];
      ReloadChangesNothing(t, forward, order[..n], key, k);
      AtAddPostings(Repost(t, forward, order[..n]), d, d.keywords, key, k);
      if k == d.intId && HasKeyword(d.keywords, key) {
        assert Posted(forward, key, k, order[n]);
      }
    }
  }

  lemma RestartKeeps(forward: Store, order: seq<Str>)
    requires StoreOk(forward) && IterationOrder(forward, order)
    ensures Invariant(State(forward, Rebuild(forward, order)))
  {
    RebuildMirrors(forward, order);
    assert Restrict(forward, order) == forward;
  }

  // ----- Search -----

  /** The live documents that satisfy the query and the flags, each once, in ascending IntId
      order. A document stored with an untrimmed id is looked up under a key that never exists. */
  ghost predicate IsAnswer(r: seq<Document>, forward: Store, q: TermQuery, f: Flags) {
    && Ascending(r)
    && (forall d :: d in r <==> Hit(d, forward, q, f))
  }

  ghost predicate Hit(d: Document, forward: Store, q: TermQuery, f: Flags) {
    && TrimSpace(d.id) == d.id && d.id in forward && forward[d.id] == d
    && Matches(d, q) && Passes(d.bits, f)
  }

  lemma {:induction false} AnswerUnique(r1: seq<Document>, r2: seq<Document>, forward: Store, q: TermQuery, f: Flags)
    requires IsAnswer(r1, forward, q, f) && IsAnswer(r2, forward, q, f)
    ensures r1 == r2
  {
    SameSorted(r1, r2);
  }

  lemma {:induction false} SameSorted(r1: seq<Document>, r2: seq<Document>)
    requires Ascending(r1) && Ascending(r2)
    requires forall d :: d in r1 <==> d in r2
    ensures r1 == r2
  {
    assert r1 != [] ==> r1[0] in r2;
    assert r2 != [] ==> r2[0] in r1;
    if r1 != [] && r2 != [] {
      assert r1 == [r1[0]] + r1[1..] && r2 == [r2[0]] + r2[1..];
      assert r1[0] == r2[0];
      forall d ensures d in r1[1..] <==> d in r2[1..] {
        assert d in r1[1..] ==> d in r1 && d != r1[0];
        assert d in r2[1..] ==> d in r2 && d != r2[0];
      }
      SameSorted(r1[1..], r2[1..]);
    }
  }

  /** Evaluating a query on the postings is asking each stored document. */
  lemma {:induction false} DenoteIsMatches(s: State, q: TermQuery, f: Flags, id: Str)
    requires Invariant(s) && id in s.forward
    ensures var d := s.forward[id];
            Denote(s.table, q, f, d.intId) ==
              if Matches(d, q) && Passes(d.bits, f) then Some(Val(d.id, d.bits)) else None
    decreases q
  {
    var d := s.forward[id];
    match q.keyword
    case Some(kw) =>
      var key := KeyOf(kw);
      if HasPostingKey(d, key) {
        assert Posted(s.forward, key, d.intId, id);
      } else {
        forall id' ensures !Posted(s.forward, key, d.intId, id') {}
      }
    case None =>
      if |q.must| > 0 {
        forall j | 0 <= j < |q.must|
          ensures Denote(s.table, q.must[j], f, d.intId) ==
                    if Matches(d, q.must[j]) && Passes(d.bits, f) then Some(Val(d.id, d.bits)) else None
        {
          DenoteIsMatches(s, q.must[j], f, id);
        }
        assert q.must[0] == q.must[0];
      } else {
        DenoteFirstIsMatches(s, q.should, f, id);
      }
  }

  lemma {:induction false} DenoteFirstIsMatches(s: State, qs: seq<TermQuery>, f: Flags, id: Str)
    requires Invariant(s) && id in s.forward
    ensures var d := s.forward[id];
            DenoteFirst(s.table, qs, f, d.intId) ==
              if SomeMatches(d, qs) && Passes(d.bits, f)
              then Some(Val(d.id, d.bits)) else None
    decreases qs
  {
    if qs != [] {
      var n := |qs| - 1;
      DenoteFirstIsMatches(s, qs[..n], f, id);
      DenoteIsMatches(s, qs[n], f, id);
      AnyLast(q => Matches(s.forward[id], q), qs);
    }
  }

  ghost predicate SomeMatches(d: Document, qs: seq<TermQuery>) {
    Any(q => Matches(d, q), qs)
  }

  ghost predicate Any(p: TermQuery -> bool, qs: seq<TermQuery>) {
    exists j :: 0 <= j < |qs| && p(qs[j])
  }

  lemma AnyLast(p: TermQuery -> bool, qs: seq<TermQuery>)
    requires qs != []
    ensures Any(p, qs) <==> Any(p, qs[..|qs| - 1]) || p(qs[|qs| - 1])
  {
    var n := |qs| - 1;
    if Any(p, qs[..n]) {
      var j :| 0 <= j < n && p(qs[..n][j]);
      assert p(qs[j]);
    } else if Any(p, qs) {
      var j :| 0 <= j < |qs| && p(qs[j]);
      assert p(qs[j]);
    }
  }

  lemma NoStrayHits(s: State, q: TermQuery, f: Flags, k: uint64)
    requires Invariant(s) && Denote(s.table, q, f, k).Some?
    ensures exists id :: id in s.forward && s.forward[id].intId == k
  {
    var kw := DenoteFromTable(s.table, q, f, k);
    var id :| Posted(s.forward, KeyOf(kw), k, id);
  }

  lemma InvariantPositive(s: State)
    requires Invariant(s)
    ensures PositiveKeys(s.table) && Coherent(s.table)
  {
    forall key1, key2, k | At(s.table, key1, k).Some? && At(s.table, key2, k).Some?
      ensures At(s.table, key1, k) == At(s.table, key2, k)
    {
      var id1 :| Posted(s.forward, key1, k, id1);
      var id2 :| Posted(s.forward, key2, k, id2);
    }
    forall key ensures At(s.table, key, 0) == None {
      forall id ensures !Posted(s.forward, key, 0, id) {}
    }
  }

  /** So in an index in step the bit filter can be moved from the root of a query to its leaves. */
  lemma FilterCanMove(s: State)
    requires Invariant(s)
    ensures PushdownHolds(s.table)
  {
    hide Invariant, PushdownHolds;
    InvariantPositive(s);
    PushdownIff(s.table);
  }

  /** Fetching the stored documents of the hits, skipping ids that are not stored. */
  function Fetch(forward: Store, hits: List): seq<Document> {
    if hits == [] then []
    else
      var r := Fetch(forward, hits[..|hits| - 1]);
      var id := hits[|hits| - 1].val.id;
      if id in forward then r + [forward[id]] else r
  }

  lemma {:induction false} FetchMembers(forward: Store, hits: List, d: Document)
    ensures d in Fetch(forward, hits) <==>
            exists i :: 0 <= i < |hits| && hits[i].val.id in forward && forward[hits[i].val.id] == d
  {
    if hits != [] {
      var n := |hits| - 1;
      FetchMembers(forward, hits[..n], d);
      assert forall i :: 0 <= i < n ==> hits[..n][i] == hits[i];
    }
  }

  /** Fetching what was found returns exactly the answer. */
  lemma FetchIsAnswer(s: State, q: TermQuery, f: Flags, hits: List)
    requires Invariant(s) && IsHits(hits, s.table, q, f)
    ensures IsAnswer(Fetch(s.forward, hits), s.forward, q, f)
  {
    hide Matches, Passes, TrimSpace, Fetch, Ascending;
    forall i | 0 <= i < |hits| ensures Found(s, q, f, hits[i]) {
      HitIsFound(s, q, f, hits, i);
    }
    FetchSorted(s, q, f, hits);
    var r := Fetch(s.forward, hits);
    forall d ensures d in r <==> Hit(d, s.forward, q, f) {
      FetchMembers(s.forward, hits, d);
      if d in r {
        var i :| 0 <= i < |hits| && hits[i].val.id in s.forward && s.forward[hits[i].val.id] == d;
        FoundAndStored(s, q, f, hits[i]);
      }
      if Hit(d, s.forward, q, f) {
        DenoteIsMatches(s, q, f, d.id);
        var i := GetSome(hits, d.intId);
      }
    }
  }

  /** A document added with spaces around its id is stored, matches its own keywords and is hit by
      them; but the fetch looks it up under the untrimmed id and skips it, and no answer has it. */
  lemma UntrimmedNeverFound(s: State, doc: Document, intId: uint64, kw: Keyword, f: Flags, hits: List)
    requires Invariant(s) && Unused(Delete(s, TrimSpace(doc.id)).forward, intId)
    requires TrimSpace(doc.id) != doc.id && TrimSpace(doc.id) != []
    requires kw in doc.keywords && Passes(doc.bits, f)
    requires IsHits(hits, Add(s, doc, intId).table, TermQuery(Some(kw), [], []), f)
    ensures var s', d, q := Add(s, doc, intId), doc.(intId := intId), TermQuery(Some(kw), [], []);
            && TrimSpace(doc.id) in s'.forward && s'.forward[TrimSpace(doc.id)] == d && Matches(d, q)
            && Get(hits, intId) == Some(Val(doc.id, doc.bits))
            && d !in Fetch(s'.forward, hits)
    ensures forall r, q, f :: IsAnswer(r, Add(s, doc, intId).forward, q, f) ==> doc.(intId := intId) !in r
  {
    hide TrimSpace, Delete, AddPostings, Fetch, KeyOf, Passes;
    var s', d, q := Add(s, doc, intId), doc.(intId := intId), TermQuery(Some(kw), [], []);
    AddKeeps(s, doc, intId);
    var i :| 0 <= i < |doc.keywords| && doc.keywords[i] == kw;
    assert KeyOf(d.keywords[i]) == KeyOf(kw);
    hide Invariant;
    DenoteIsMatches(s', q, f, TrimSpace(doc.id));
    FetchIsAnswer(s', q, f, hits);
  }

  /** There are such ids: a space in front of a letter. */
  lemma UntrimmedId()
    ensures TrimSpace([32, 65]) == [65]
  {
    assert SpaceAtStart([32, 65]) == 1 && [32, 65][1..] == [65];
    assert SpaceAtStart([65]) == 0 && SpaceAtEnd([65]) == 0;
    assert TrimLeft([32, 65]) == TrimLeft([65]) == [65];
  }

  /** A hit is the posting of a stored document that satisfies the query. */
  ghost predicate Found(s: State, q: TermQuery, f: Flags, p: Posting) {
    exists id ::
      id in s.forward && IsPostingOf(p, s.forward[id]) && Matches(s.forward[id], q) && Passes(s.forward[id].bits, f)
  }

  ghost predicate IsPostingOf(p: Posting, d: Document) {
    p == Posting(d.intId, Val(d.id, d.bits))
  }

  lemma HitIsFound(s: State, q: TermQuery, f: Flags, hits: List, i: nat)
    requires Invariant(s) && IsHits(hits, s.table, q, f) && i < |hits|
    ensures Found(s, q, f, hits[i])
  {
    GetAt(hits, i);
    var k := hits[i].key;
    assert Get(hits, k) == Denote(s.table, q, f, k);
    NoStrayHits(s, q, f, k);
    var id :| id in s.forward && s.forward[id].intId == k;
    DenoteIsMatches(s, q, f, id);
    assert IsPostingOf(hits[i], s.forward[id]);
  }

  /** The document stored under a hit's own id is the hit's document. */
  lemma FoundAndStored(s: State, q: TermQuery, f: Flags, p: Posting)
    requires Invariant(s) && Found(s, q, f, p) && p.val.id in s.forward
    ensures var d := s.forward[p.val.id]; IsPostingOf(p, d) && Hit(d, s.forward, q, f)
  {
    var id :|
      id in s.forward && IsPostingOf(p, s.forward[id]) && Matches(s.forward[id], q) && Passes(s.forward[id].bits, f);
    TrimSpaceIdempotent(s.forward[p.val.id].id);
  }

  lemma {:induction false} FetchSorted(s: State, q: TermQuery, f: Flags, hits: List)
    requires Invariant(s) && Sorted(hits)
    requires forall i :: 0 <= i < |hits| ==> Found(s, q, f, hits[i])
    ensures Ascending(Fetch(s.forward, hits))
    ensures forall d :: d in Fetch(s.forward, hits) ==> hits != [] && d.intId <= hits[|hits| - 1].key
  {
    if hits != [] {
      var n := |hits| - 1;
      FetchSorted(s, q, f, hits[..n]);
      var r := Fetch(s.forward, hits[..n]);
      assert n > 0 ==> hits[..n][n - 1].key < hits[n].key;
      assert forall d :: d in r ==> d.intId < hits[n].key;
      if hits[n].val.id in s.forward {
        FoundAndStored(s, q, f, hits[n]);
        AscendingAppend(r, s.forward[hits[n].val.id]);
      }
    }
  }

  ghost predicate Ascending(r: seq<Document>) {
    forall i, j :: 0 <= i < j < |r| ==> r[i].intId < r[j].intId
  }

  lemma AscendingAppend(r: seq<Document>, d: Document)
    requires Ascending(r) && forall x :: x in r ==> x.intId < d.intId
    ensures Ascending(r + [d])
  {
    forall i, j | 0 <= i < j < |r + [d]| ensures (r + [d])[i].intId < (r + [d])[j].intId {
      assert r[i] in r;
    }
  }
}
