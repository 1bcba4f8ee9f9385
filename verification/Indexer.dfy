/** The index behind its facade (service/indexer.go): a stored forward index, an in-memory
    inverted index, and the ID generator. Calls come one at a time; encoding a document for the
    store and decoding it again is taken to give the document back. */
module Indexer {
  import opened GoBase
  import opened Types
  import opened ReverseIndex
  import opened IndexState
  import opened HashMap
  import SnowflakeRuns
  import Snowflake

  class Indexer {
    var forward: Store
    const reverse: SkipListReverseIndex
    const worker: Snowflake.Worker

    ghost predicate Valid()
      reads this, reverse, reverse.table, reverse.table.childMaps
    {
      reverse.Valid()
    }

    ghost function Abs(): State
      reads this, reverse, reverse.table
    {
      State(forward, reverse.table.contents)
    }

    /** Init over an opened store: the inverted index starts empty. */
    constructor (stored: Store, segment: nat, hash: Str -> nat, worker: Snowflake.Worker)
      requires segment > 0
      ensures Valid() && Abs() == State(stored, map[]) && this.worker == worker
      ensures fresh(reverse.table) && fresh(reverse.table.childMaps)
    {
      forward := stored;
      reverse := new SkipListReverseIndex(segment, hash);
      this.worker := worker;
    }

    method LoadFromIndexFile() returns (n: nat, ghost order: seq<Str>)
      requires Valid()
      modifies reverse.table`contents, reverse.table.childMaps
      ensures Valid() && n == |forward|
      ensures IterationOrder(forward, order)
      ensures Abs() == State(old(forward), Repost(old(reverse.table.contents), forward, order))
    {
      ghost var t := reverse.table.contents;
      var keys := KeysOf(forward);
      order := keys;
      n := 0;
      for i := 0 to |keys|
        invariant Valid() && n == i
        invariant reverse.table.contents == Repost(t, forward, keys[..i])
      {
        assert keys[..i + 1][..i] == keys[..i];
        reverse.Add(forward[keys[i]]);
        n := n + 1;
      }
      assert keys[..|keys|] == keys;
      CountNoDuplicates(keys, forward.Keys);
    }

    /** Replaces the document stored under the trimmed id. A blank id changes nothing. */
    method AddDoc(doc: Document, clock: nat -> uint64, t: nat)
      returns (n: nat, ghost intId: uint64, ghost call: SnowflakeRuns.Call, next: nat)
      requires Valid()
      requires TrimSpace(doc.id) != [] ==> Snowflake.WaitEnds(worker.Abs(), clock, t)
      modifies this`forward, worker, reverse.table`contents, reverse.table.childMaps
      ensures Valid()
      ensures n == if TrimSpace(doc.id) == [] then 0 else 1
      ensures n == 0 ==> Abs() == old(Abs()) && worker.Abs() == old(worker.Abs()) && next == t
      ensures n == 1 ==>
                && t < next && call == SnowflakeRuns.Call(clock(t), clock(next - 1))
                && intId == Snowflake.IdOf(old(worker.Abs()), call)
                && worker.Abs() == SnowflakeRuns.After(old(worker.Abs()), call)
      ensures n == 1 ==> Abs() == Add(old(Abs()), doc, intId)
    {
      hide TrimSpace, Delete, AddPostings, Snowflake.IdOf, SnowflakeRuns.After, SnowflakeRuns.Overflows;
      next := t;
      intId, call := 0, SnowflakeRuns.Call(0, 0);
      var docId := TrimSpace(doc.id);
      if |docId| == 0 {
        return 0, intId, call, next;
      }
      var _ := DeleteDoc(docId);
      var newId;
      newId, call, next := worker.GetId(clock, t);
      intId := newId;
      var d := doc.(intId := newId);
      forward := forward[docId := d];
      reverse.Add(d);
      n := 1;
    }

    method DeleteDoc(docId: Str) returns (n: nat)
      requires Valid()
      modifies this`forward, reverse.table`contents, reverse.table.childMaps
      ensures Valid()
      ensures n == if docId in old(forward) then 1 else 0
      ensures Abs() == Delete(old(Abs()), docId)
    {
      n := 0;
      if docId in forward {
        n := 1;
        var doc := forward[docId];
        ghost var t, kws := reverse.table.contents, doc.keywords;
        assert kws[..0] == [];
        for i := 0 to |doc.keywords|
          invariant Valid() && forward == old(forward)
          invariant reverse.table.contents == DeletePostings(t, doc.intId, kws[..i])
        {
          assert kws[..i + 1][..i] == kws[..i];
          reverse.Delete(doc.intId, doc.keywords[i]);
        }
        assert kws[..|kws|] == kws;
      }
      forward := forward - {docId};
    }

    /** On a coherent index a search never panics and returns exactly the answer. */
    method Search(q: TermQuery, f: Flags) returns (r: Outcome<seq<Document>>)
      requires Valid()
      ensures Invariant(Abs()) ==> r.Returned? && IsAnswer(r.value, forward, q, f)
    {
      if Invariant(Abs()) { InvariantPositive(Abs()); }
      var found;
      ghost var hits;
      found, hits := reverse.Search(q, f);
      if found.Panic? {
        return Panic;
      }
      var docIds := found.value;
      var results: seq<Document> := [];
      for i := 0 to |docIds|
        invariant results == Fetch(forward, hits[..i])
      {
        assert hits[..i + 1][..i] == hits[..i];
        if docIds[i] in forward {
          results := results + [forward[docIds[i]]];
        }
      }
      assert hits[..|hits|] == hits;
      if Invariant(Abs()) { FetchIsAnswer(Abs(), q, f, hits); }
      r := Returned(results);
    }

    method Count() returns (n: nat)
      requires Valid()
      ensures n == |forward|
    {
      var keys := KeysOf(forward);
      n := 0;
      for i := 0 to |keys|
        invariant n == i
      {
        n := n + 1;
      }
      CountNoDuplicates(keys, forward.Keys);
    }
  }
}
