/** The sharded cluster (service/distribute.go): every document belongs to the group its id hashes
    to, writes go to every replica of that group, and a search asks one replica of each group. */
module Cluster {
  import opened GoBase
  import opened Types
  import opened ReverseIndex
  import opened IndexState
  import opened IndexRuns

  /** A request to the cluster. */
  datatype Request = AddRequest(doc: Document) | DeleteRequest(id: Str)

  /** A document up to its IntId, which every replica draws for itself. */
  function Strip(d: Document): Document { d.(intId := 0) }

  /** What the operations of one index amount to, whatever IntIds it drew and however often it
      restarted. */
  function Requests(ops: seq<Op>): seq<Request> {
    if ops == [] then []
    else
      Requests(ops[..|ops| - 1]) +
      match ops[|ops| - 1]
      case AddOp(doc, _) => [AddRequest(doc)]
      case DeleteOp(id) => [DeleteRequest(id)]
      case RestartOp(_) => []
  }

  /** An index that has served the requests, in this order. */
  ghost predicate Served(s: State, requests: seq<Request>) {
    exists ops :: AllowedRun(EMPTY_INDEX, ops) && Requests(ops) == requests && Run(EMPTY_INDEX, ops) == s
  }

  function Apply(live: Store, r: Request): Store {
    match r
    case AddRequest(doc) => if TrimSpace(doc.id) == [] then live else live[TrimSpace(doc.id) := Strip(doc)]
    case DeleteRequest(id) => live - {id}
  }

  /** The live documents after some requests, up to IntIds. */
  function LiveDocs(requests: seq<Request>): Store {
    if requests == [] then map[] else Apply(LiveDocs(requests[..|requests| - 1]), requests[|requests| - 1])
  }

  ghost predicate SameDocs(forward: Store, live: Store) {
    && (forall id :: id in forward <==> id in live)
    && (forall id :: id in forward ==> Strip(forward[id]) == live[id])
  }

  lemma {:induction false} RunSnoc(s: State, ops: seq<Op>, op: Op)
    ensures AllowedRun(s, ops + [op]) <==> AllowedRun(s, ops) && Allowed(Run(s, ops), op)
    ensures AllowedRun(s, ops + [op]) ==> Run(s, ops + [op]) == Step(Run(s, ops), op)
    decreases |ops|
  {
    if ops == [] {
      assert [] + [op] == [op] && [op][1..] == [];
      if Allowed(s, op) { assert AllowedRun(Step(s, op), []); }
    } else {
      assert (ops + [op])[0] == ops[0] && (ops + [op])[1..] == ops[1..] + [op];
      if Allowed(s, ops[0]) { RunSnoc(Step(s, ops[0]), ops[1..], op); }
    }
  }

  lemma RequestsSnoc(ops: seq<Op>, op: Op)
    ensures Requests(ops + [op]) == Requests(ops) + Requests([op])
    ensures match op
            case AddOp(doc, _) => Requests([op]) == [AddRequest(doc)]
            case DeleteOp(id) => Requests([op]) == [DeleteRequest(id)]
            case RestartOp(_) => Requests([op]) == []
  {
    assert (ops + [op])[..|ops|] == ops;
    assert [op][..0] == [];
    assert Requests([]) == [];
  }

  lemma SameDocsStep(forward: Store, live: Store, op: Op, requests: seq<Request>)
    requires SameDocs(forward, live) && live == LiveDocs(requests)
    ensures SameDocs(LiveStep(forward, op), LiveDocs(requests + Requests([op])))
  {
    RequestsSnoc([], op);
    if op.RestartOp? {
      assert requests + [] == requests;
    } else {
      var r := Requests([op])[0];
      assert (requests + [r])[..|requests|] == requests;
      assert LiveDocs(requests + [r]) == Apply(live, r);
    }
  }

  lemma {:induction false} ServedDocs(ops: seq<Op>)
    requires AllowedRun(EMPTY_INDEX, ops)
    ensures SameDocs(Run(EMPTY_INDEX, ops).forward, LiveDocs(Requests(ops)))
    decreases |ops|
  {
    hide AllowedRun, Run, Allowed, Requests, LiveDocs, SameDocs;
    if ops == [] {
      NothingServed();
    } else {
      var before, op := ops[..|ops| - 1], ops[|ops| - 1];
      assert ops == before + [op];
      RunSnoc(EMPTY_INDEX, before, op);
      ServedDocs(before);
      ServedDocsSnoc(before, op);
    }
  }

  lemma NothingServed()
    ensures SameDocs(Run(EMPTY_INDEX, []).forward, LiveDocs(Requests([])))
  {
  }

  lemma ServedDocsSnoc(before: seq<Op>, op: Op)
    requires AllowedRun(EMPTY_INDEX, before) && Allowed(Run(EMPTY_INDEX, before), op)
    requires SameDocs(Run(EMPTY_INDEX, before).forward, LiveDocs(Requests(before)))
    ensures AllowedRun(EMPTY_INDEX, before + [op])
    ensures SameDocs(Run(EMPTY_INDEX, before + [op]).forward, LiveDocs(Requests(before + [op])))
  {
    RunSnoc(EMPTY_INDEX, before, op);
    RequestsSnoc(before, op);
    ServedDocsStep(Run(EMPTY_INDEX, before), Requests(before), op);
  }

  lemma ServedDocsStep(s: State, requests: seq<Request>, op: Op)
    requires Allowed(s, op) && SameDocs(s.forward, LiveDocs(requests))
    ensures SameDocs(Step(s, op).forward, LiveDocs(requests + Requests([op])))
  {
    StepForward(s, op);
    SameDocsStep(s.forward, LiveDocs(requests), op, requests);
  }

  /** Serving one more request. */
  lemma ServedStep(s: State, requests: seq<Request>, op: Op)
    requires Served(s, requests) && Allowed(s, op)
    ensures Served(Step(s, op), requests + Requests([op]))
  {
    var ops :| AllowedRun(EMPTY_INDEX, ops) && Requests(ops) == requests && Run(EMPTY_INDEX, ops) == s;
    RunSnoc(EMPTY_INDEX, ops, op);
    RequestsSnoc(ops, op);
  }

  lemma ServedInvariant(s: State, requests: seq<Request>)
    requires Served(s, requests)
    ensures Invariant(s) && SameDocs(s.forward, LiveDocs(requests))
  {
    var ops :| AllowedRun(EMPTY_INDEX, ops) && Requests(ops) == requests && Run(EMPTY_INDEX, ops) == s;
    EmptyInvariant();
    RunKeeps(EMPTY_INDEX, ops);
    ServedDocs(ops);
  }

  // ----- Routing -----

  /** getGroupIndex, for an arbitrary fixed hash; the CSV build path routes by the same value. */
  function Route(hash: Str -> nat, n: nat, id: Str): (g: nat)
    requires n > 0
    ensures g < n && exists k: nat :: hash(id) == k * n + g
  {
    assert hash(id) == hash(id) / n * n + hash(id) % n;
    hash(id) % n
  }

  function RoutedId(r: Request): Str {
    match r case AddRequest(doc) => doc.id case DeleteRequest(id) => id
  }

  /** The requests that reach the replicas of a group. */
  function Routed(hash: Str -> nat, n: nat, requests: seq<Request>, g: nat): seq<Request>
    requires n > 0
  {
    if requests == [] then []
    else
      var last := requests[|requests| - 1];
      Routed(hash, n, requests[..|requests| - 1], g) +
      if Route(hash, n, RoutedId(last)) == g then [last] else []
  }

  /** Trimming an id does not move it to another group. */
  predicate RouteIgnoresTrim(hash: Str -> nat, n: nat, id: Str)
    requires n > 0
  {
    TrimSpace(id) == [] || Route(hash, n, id) == Route(hash, n, TrimSpace(id))
  }

  ghost predicate WellRouted(hash: Str -> nat, n: nat, requests: seq<Request>)
    requires n > 0
  {
    forall i :: 0 <= i < |requests| && requests[i].AddRequest? ==> RouteIgnoresTrim(hash, n, requests[i].doc.id)
  }

  /** A group holds exactly the live documents whose id routes to it. */
  lemma {:induction false} GroupDocs(hash: Str -> nat, n: nat, requests: seq<Request>, g: nat)
    requires n > 0 && WellRouted(hash, n, requests)
    ensures var all, part := LiveDocs(requests), LiveDocs(Routed(hash, n, requests, g));
            && (forall id :: id in part <==> id in all && Route(hash, n, id) == g)
            && (forall id :: id in part ==> part[id] == all[id])
  {
    if requests != [] {
      var before, last := requests[..|requests| - 1], requests[|requests| - 1];
      assert requests == before + [last];
      GroupDocs(hash, n, before, g);
      RoutedSnoc(hash, n, before, last);
      var routed := Routed(hash, n, before, g);
      assert (routed + [last])[..|routed|] == routed && routed + [] == routed;
      assert last.AddRequest? ==> RouteIgnoresTrim(hash, n, last.doc.id);
      GroupStep(hash, n, LiveDocs(before), LiveDocs(routed), last, g);
    }
  }

  lemma GroupStep(hash: Str -> nat, n: nat, all: Store, part: Store, r: Request, g: nat)
    requires n > 0 && (r.AddRequest? ==> RouteIgnoresTrim(hash, n, r.doc.id))
    requires forall id :: id in part <==> id in all && Route(hash, n, id) == g
    requires forall id :: id in part ==> part[id] == all[id]
    ensures var all', part' := Apply(all, r), if Route(hash, n, RoutedId(r)) == g then Apply(part, r) else part;
            && (forall id :: id in part' <==> id in all' && Route(hash, n, id) == g)
            && (forall id :: id in part' ==> part'[id] == all'[id])
  {
  }

  // ----- Search -----

  /** Answers of one replica per group, group by group. */
  ghost predicate GroupAnswers(answers: seq<seq<Document>>, groups: seq<State>, q: TermQuery, f: Flags) {
    && |answers| == |groups|
    && forall g :: 0 <= g < |groups| ==> IsAnswer(answers[g], groups[g].forward, q, f)
  }

  function Concat<T>(ss: seq<seq<T>>): seq<T> {
    if ss == [] then [] else Concat(ss[..|ss| - 1]) + ss[|ss| - 1]
  }

  function Strips(ds: seq<Document>): (r: seq<Document>)
    ensures |r| == |ds|
    ensures forall i :: 0 <= i < |r| ==> r[i] == Strip(ds[i])
  {
    seq(|ds|, i requires 0 <= i < |ds| => Strip(ds[i]))
  }

  /** A live document that satisfies the query, up to its IntId. */
  ghost predicate LiveHit(d: Document, live: Store, q: TermQuery, f: Flags) {
    TrimSpace(d.id) == d.id && d.id in live && live[d.id] == d && Matches(d, q) && Passes(d.bits, f)
  }

  lemma {:induction false} MatchesStrip(d: Document, q: TermQuery)
    ensures Matches(Strip(d), q) == Matches(d, q)
    decreases q
  {
    match q.keyword
    case Some(_) =>
    case None =>
      forall j | 0 <= j < |q.must| ensures Matches(Strip(d), q.must[j]) == Matches(d, q.must[j]) {
        MatchesStrip(d, q.must[j]);
      }
      forall j | 0 <= j < |q.should| ensures Matches(Strip(d), q.should[j]) == Matches(d, q.should[j]) {
        MatchesStrip(d, q.should[j]);
      }
  }

  /** An answer holds each live hit once, up to IntIds. */
  lemma AnswerStrips(answer: seq<Document>, s: State, requests: seq<Request>, q: TermQuery, f: Flags)
    requires Served(s, requests) && IsAnswer(answer, s.forward, q, f)
    ensures NoDuplicates(Strips(answer))
    ensures forall x :: x in Strips(answer) <==> LiveHit(x, LiveDocs(requests), q, f)
  {
    ServedInvariant(s, requests);
    var r, live := Strips(answer), LiveDocs(requests);
    forall i, j | 0 <= i < j < |r| ensures r[i] != r[j] {
      assert answer[i] in answer && answer[j] in answer;
      assert Hit(answer[i], s.forward, q, f) && Hit(answer[j], s.forward, q, f);
    }
    forall x ensures x in r <==> LiveHit(x, live, q, f) {
      if x in r {
        var i :| 0 <= i < |r| && r[i] == x;
        assert answer[i] in answer;
        assert Hit(answer[i], s.forward, q, f);
        MatchesStrip(answer[i], q);
      }
      if LiveHit(x, live, q, f) {
        var d := s.forward[x.id];
        MatchesStrip(d, q);
        assert Hit(d, s.forward, q, f);
        var i :| 0 <= i < |answer| && answer[i] == d;
        assert r[i] == x;
      }
    }
  }

  /** The concatenated answers of the first m groups hold each hit of those groups once. */
  lemma {:induction false} ConcatStrips(hash: Str -> nat, n: nat, requests: seq<Request>, answers: seq<seq<Document>>,
                                        groups: seq<State>, m: nat, q: TermQuery, f: Flags)
    requires n > 0 && WellRouted(hash, n, requests)
    requires m <= n == |groups| && GroupAnswers(answers, groups, q, f)
    requires forall g :: 0 <= g < n ==> Served(groups[g], Routed(hash, n, requests, g))
    ensures NoDuplicates(Strips(Concat(answers[..m])))
    ensures forall x :: x in Strips(Concat(answers[..m])) <==>
                          LiveHit(x, LiveDocs(requests), q, f) && Route(hash, n, x.id) < m
  {
    if m > 0 {
      ConcatStrips(hash, n, requests, answers, groups, m - 1, q, f);
      var g := m - 1;
      ConcatLast(answers, m);
      GroupStrips(hash, n, requests, answers[g], groups[g], g, q, f);
      NoDuplicatesConcat(Strips(Concat(answers[..g])), Strips(answers[g]));
    }
  }

  lemma ConcatLast(answers: seq<seq<Document>>, m: nat)
    requires 0 < m <= |answers|
    ensures Strips(Concat(answers[..m])) == Strips(Concat(answers[..m - 1])) + Strips(answers[m - 1])
  {
    assert answers[..m][..m - 1] == answers[..m - 1];
  }

  /** One group's answer holds each hit of the group once. */
  lemma GroupStrips(hash: Str -> nat, n: nat, requests: seq<Request>, answer: seq<Document>, s: State, g: nat,
                    q: TermQuery, f: Flags)
    requires n > 0 && WellRouted(hash, n, requests)
    requires Served(s, Routed(hash, n, requests, g)) && IsAnswer(answer, s.forward, q, f)
    ensures NoDuplicates(Strips(answer))
    ensures forall x :: x in Strips(answer) <==> LiveHit(x, LiveDocs(requests), q, f) && Route(hash, n, x.id) == g
  {
    AnswerStrips(answer, s, Routed(hash, n, requests, g), q, f);
    GroupDocs(hash, n, requests, g);
  }

  /** Permuting documents permutes what is left of them without IntIds. */
  lemma {:induction false} StripsPermutation(s: seq<Document>, t: seq<Document>)
    requires multiset(s) == multiset(t)
    ensures multiset(Strips(s)) == multiset(Strips(t))
  {
    if s == [] {
      assert |multiset(t)| == |t|;
    } else {
      assert s[0] in multiset(t);
      var j :| 0 <= j < |t| && t[j] == s[0];
      var s', t' := Without(s, 0), Without(t, j);
      Cancel(multiset(s'), multiset(t'), s[0]);
      StripsPermutation(s', t');
      StripsRemove(s, 0);
      StripsRemove(t, j);
    }
  }

  function Without<T>(s: seq<T>, j: nat): (r: seq<T>)
    requires j < |s|
    ensures multiset(s) == multiset(r) + multiset{s[j]} && |r| == |s| - 1
  {
    assert s == s[..j] + [s[j]] + s[j + 1..];
    s[..j] + s[j + 1..]
  }

  lemma StripsRemove(t: seq<Document>, j: nat)
    requires j < |t|
    ensures multiset(Strips(t)) == multiset(Strips(Without(t, j))) + multiset{Strip(t[j])}
  {
    StripsWithout(t, j);
    assert multiset(Strips(t)) == multiset(Without(Strips(t), j)) + multiset{Strips(t)[j]};
  }

  lemma StripsWithout(t: seq<Document>, j: nat)
    requires j < |t|
    ensures Strips(t)[..j] + Strips(t)[j + 1..] == Strips(t[..j] + t[j + 1..])
  {
    var l, r := Strips(t)[..j] + Strips(t)[j + 1..], Strips(t[..j] + t[j + 1..]);
    forall i | 0 <= i < |r| ensures l[i] == r[i] {
      if i < j {
        assert l[i] == Strips(t)[i] == Strip(t[i]);
      } else {
        assert l[i] == Strips(t)[i + 1] == Strip(t[i + 1]);
      }
    }
  }

  lemma Cancel<T>(a: multiset<T>, b: multiset<T>, x: T)
    requires a + multiset{x} == b + multiset{x}
    ensures a == b
  {
    assert a == (a + multiset{x}) - multiset{x};
    assert b == (b + multiset{x}) - multiset{x};
  }

  /** The cluster refines one index: whichever replica answers for each group and in whatever
      order the answers are merged, the documents found are those one index given every request
      would find. */
  lemma ClusterRefinesIndex(hash: Str -> nat, n: nat, requests: seq<Request>, single: State, answer: seq<Document>,
                            groups: seq<State>, answers: seq<seq<Document>>, merged: seq<Document>,
                            q: TermQuery, f: Flags)
    requires n > 0 && WellRouted(hash, n, requests)
    requires Served(single, requests) && IsAnswer(answer, single.forward, q, f)
    requires |groups| == n && forall g :: 0 <= g < n ==> Served(groups[g], Routed(hash, n, requests, g))
    requires GroupAnswers(answers, groups, q, f)
    requires multiset(merged) == multiset(Concat(answers))
    ensures multiset(Strips(merged)) == multiset(Strips(answer))
  {
    assert answers[..n] == answers;
    ConcatStrips(hash, n, requests, answers, groups, n, q, f);
    AnswerStrips(answer, single, requests, q, f);
    SameElementsSameMultiset(Strips(Concat(answers)), Strips(answer));
    StripsPermutation(merged, Concat(answers));
  }

  // ----- Where the refinement breaks: routing by the untrimmed id, and a missed write -----

  lemma ServedNothing()
    ensures Served(EMPTY_INDEX, [])
  {
    assert AllowedRun(EMPTY_INDEX, []) && Requests([]) == [] && Run(EMPTY_INDEX, []) == EMPTY_INDEX;
  }

  lemma ServedAdd(s: State, requests: seq<Request>, doc: Document, intId: uint64)
    requires Served(s, requests) && Allowed(s, AddOp(doc, intId))
    ensures Served(Add(s, doc, intId), requests + [AddRequest(doc)])
  {
    ServedStep(s, requests, AddOp(doc, intId));
    RequestsSnoc([], AddOp(doc, intId));
  }

  lemma ServedDelete(s: State, requests: seq<Request>, docId: Str)
    requires Served(s, requests)
    ensures TableOk(s.table) && Served(Delete(s, docId), requests + [DeleteRequest(docId)])
    ensures docId in s.forward <==> docId in LiveDocs(requests)
  {
    ServedInvariant(s, requests);
    ServedStep(s, requests, DeleteOp(docId));
    RequestsSnoc([], DeleteOp(docId));
  }

  /** For any hash, group count and id that trimming would move to another group, adding the
      trimmed and then the untrimmed id leaves the first document behind in its group: the cluster
      still finds it, one index does not. So the refinement holds of all runs exactly when
      trimming never moves an id. */
  lemma MisroutedDiffers(hash: Str -> nat, n: nat, id: Str)
    returns (requests: seq<Request>, single: State, answer: seq<Document>, groups: seq<State>,
             answers: seq<seq<Document>>, q: TermQuery, f: Flags)
    requires n > 0 && !RouteIgnoresTrim(hash, n, id)
    ensures Served(single, requests) && IsAnswer(answer, single.forward, q, f)
    ensures |groups| == n && forall g :: 0 <= g < n ==> Served(groups[g], Routed(hash, n, requests, g))
    ensures GroupAnswers(answers, groups, q, f)
    ensures multiset(Strips(Concat(answers))) != multiset(Strips(answer))
  {
    hide Served, IsAnswer, TrimSpace;
    var kw, trimmed := Keyword([], [65]), TrimSpace(id);
    var d1, d2 := Document(trimmed, 0, 0, [kw], []), Document(id, 0, 0, [], []);
    TrimSpaceIdempotent(id);
    requests := [AddRequest(d1), AddRequest(d2)];
    q, f := TermQuery(Some(kw), [], []), NO_FLAGS;
    var home, away := Route(hash, n, trimmed), Route(hash, n, id);
    var s1, s2;
    s1, s2, single := ReplacedStates(d1, d2, trimmed);
    answer := [];
    var hit := d1.(intId := 1);
    groups := seq(n, g => if g == home then s1 else if g == away then s2 else EMPTY_INDEX);
    answers := seq(n, g => if g == home then [hit] else []);
    OnlyHit(hit, kw);
    NoHit(d2.(intId := 1), trimmed, kw);
    NoHit(d2.(intId := 2), trimmed, kw);
    forall g | 0 <= g < n
      ensures Served(groups[g], Routed(hash, n, requests, g))
      ensures IsAnswer(answers[g], groups[g].forward, q, f)
    {
      RoutedPair(hash, n, AddRequest(d1), AddRequest(d2), g);
    }
    StrayHit(answers, home, hit);
  }

  /** A write that misses the replica asked is not made up for: one index finds the document, the
      cluster does not, although every other replica has served everything. */
  lemma MissedWriteDiffers(hash: Str -> nat, n: nat, id: Str)
    returns (requests: seq<Request>, single: State, answer: seq<Document>, groups: seq<State>,
             answers: seq<seq<Document>>, q: TermQuery, f: Flags)
    requires n > 0 && TrimSpace(id) == id != []
    ensures WellRouted(hash, n, requests) && Served(single, requests) && IsAnswer(answer, single.forward, q, f)
    ensures |groups| == n && Served(groups[Route(hash, n, id)], [])
    ensures forall g :: 0 <= g < n && g != Route(hash, n, id) ==> Served(groups[g], Routed(hash, n, requests, g))
    ensures GroupAnswers(answers, groups, q, f)
    ensures multiset(Strips(Concat(answers))) != multiset(Strips(answer))
  {
    hide Served, IsAnswer, TrimSpace;
    var kw := Keyword([], [65]);
    var d := Document(id, 0, 0, [kw], []);
    var s1, s2, both := ReplacedStates(d, d, id);
    requests, q, f := [AddRequest(d)], TermQuery(Some(kw), [], []), NO_FLAGS;
    single, answer := s1, [d.(intId := 1)];
    groups, answers := seq(n, _ => EMPTY_INDEX), seq(n, _ => []);
    RoutedOne(hash, n, AddRequest(d));
    OnlyHit(d.(intId := 1), kw);
    NoHit(d, [], kw);
    ConcatNothing(answers);
    assert Strips(answer)[0] in multiset(Strips(answer));
  }

  lemma RoutedOne(hash: Str -> nat, n: nat, r: Request)
    requires n > 0
    ensures forall g :: 0 <= g < n ==> Routed(hash, n, [r], g) == if Route(hash, n, RoutedId(r)) == g then [r] else []
  {
    assert [r][..0] == [];
  }

  lemma {:induction false} ConcatNothing<T>(ss: seq<seq<T>>)
    requires forall i :: 0 <= i < |ss| ==> ss[i] == []
    ensures Concat(ss) == []
  {
    if ss != [] { ConcatNothing(ss[..|ss| - 1]); }
  }

  lemma NoHit(d: Document, key: Str, kw: Keyword)
    requires d.id != key
    ensures IsAnswer([], map[key := d], TermQuery(Some(kw), [], []), NO_FLAGS)
    ensures IsAnswer([], map[], TermQuery(Some(kw), [], []), NO_FLAGS)
  {
  }

  /** One index that got both documents, one that got the first, and one that got the second. */
  lemma ReplacedStates(d1: Document, d2: Document, id: Str) returns (s1: State, s2: State, single: State)
    requires TrimSpace(d1.id) == TrimSpace(d2.id) == id != []
    ensures Served(EMPTY_INDEX, [])
    ensures Served(s1, [AddRequest(d1)]) && s1.forward == map[id := d1.(intId := 1)]
    ensures Served(s2, [AddRequest(d2)]) && s2.forward == map[id := d2.(intId := 1)]
    ensures Served(single, [AddRequest(d1), AddRequest(d2)]) && single.forward == map[id := d2.(intId := 2)]
  {
    ServedNothing();
    s1, s2 := Add(EMPTY_INDEX, d1, 1), Add(EMPTY_INDEX, d2, 1);
    ServedAdd(EMPTY_INDEX, [], d1, 1);
    ServedAdd(EMPTY_INDEX, [], d2, 1);
    assert [] + [AddRequest(d1)] == [AddRequest(d1)] && [] + [AddRequest(d2)] == [AddRequest(d2)];
    single := Add(s1, d2, 2);
    assert Allowed(s1, AddOp(d2, 2));
    ServedAdd(s1, [AddRequest(d1)], d2, 2);
    assert [AddRequest(d1)] + [AddRequest(d2)] == [AddRequest(d1), AddRequest(d2)];
  }

  lemma RoutedPair(hash: Str -> nat, n: nat, r1: Request, r2: Request, g: nat)
    requires n > 0
    ensures var (first, second) := (Route(hash, n, RoutedId(r1)) == g, Route(hash, n, RoutedId(r2)) == g);
            Routed(hash, n, [r1, r2], g) ==
              if first && second then [r1, r2] else if first then [r1] else if second then [r2] else []
  {
    assert [r1, r2][..1] == [r1];
    RoutedOne(hash, n, r1);
    assert Routed(hash, n, [r1, r2], g) ==
      Routed(hash, n, [r1], g) + if Route(hash, n, RoutedId(r2)) == g then [r2] else [];
  }

  lemma StrayHit(answers: seq<seq<Document>>, home: nat, hit: Document)
    requires home < |answers| && hit in answers[home]
    ensures multiset(Strips(Concat(answers))) != multiset(Strips([]))
  {
    InConcat(answers, home, hit);
    var i :| 0 <= i < |Concat(answers)| && Concat(answers)[i] == hit;
    assert Strips(Concat(answers))[i] in multiset(Strips(Concat(answers)));
    assert Strips([]) == [];
  }

  lemma OnlyHit(d: Document, kw: Keyword)
    requires TrimSpace(d.id) == d.id && d.bits == 0 && d.keywords == [kw]
    ensures IsAnswer([d], map[d.id := d], TermQuery(Some(kw), [], []), NO_FLAGS)
  {
    NoFlagsPass(0);
    assert HasKeyword([kw], KeyOf(kw)) by { assert KeyOf([kw][0]) == KeyOf(kw); }
  }

  lemma {:induction false} InConcat<T>(ss: seq<seq<T>>, i: nat, x: T)
    requires i < |ss| && x in ss[i]
    ensures x in Concat(ss)
  {
    if i < |ss| - 1 { InConcat(ss[..|ss| - 1], i, x); }
  }

  // ----- Building from a file -----

  function Adds(docs: seq<Document>): (r: seq<Request>)
    ensures |r| == |docs|
  {
    seq(|docs|, i requires 0 <= i < |docs| => AddRequest(docs[i]))
  }

  lemma AddsSnoc(docs: seq<Document>, i: nat)
    requires i < |docs|
    ensures Adds(docs[..i + 1]) == Adds(docs[..i]) + [AddRequest(docs[i])]
  {
  }

  /** Each worker reads the whole file and keeps the documents of its group: those that the cluster
      would have routed to it. Without groups it keeps them all. */
  method LoadFile(hash: Str -> nat, totalShards: nat, currentGroup: nat, docs: seq<Document>)
    returns (loaded: seq<Request>)
    ensures totalShards > 0 ==> loaded == Routed(hash, totalShards, Adds(docs), currentGroup)
    ensures totalShards == 0 ==> loaded == Adds(docs)
  {
    loaded := [];
    for i := 0 to |docs|
      invariant totalShards > 0 ==> loaded == Routed(hash, totalShards, Adds(docs[..i]), currentGroup)
      invariant totalShards == 0 ==> loaded == Adds(docs[..i])
    {
      AddsSnoc(docs, i);
      if totalShards > 0 { RoutedSnoc(hash, totalShards, Adds(docs[..i]), AddRequest(docs[i])); }
      if totalShards > 0 && hash(docs[i].id) % totalShards != currentGroup {
        continue;
      }
      loaded := loaded + [AddRequest(docs[i])];
    }
    assert docs[..|docs|] == docs;
  }

  // ----- Counting -----

  function Sum(counts: seq<nat>): nat {
    if counts == [] then 0 else Sum(counts[..|counts| - 1]) + counts[|counts| - 1]
  }

  /** The live ids of the first k groups. */
  function IdsBelow(hash: Str -> nat, n: nat, live: Store, k: nat): set<Str>
    requires n > 0
  {
    set id | id in live && Route(hash, n, id) < k
  }

  lemma {:induction false} SumIsIds(hash: Str -> nat, n: nat, requests: seq<Request>, counts: seq<nat>)
    requires n > 0 && WellRouted(hash, n, requests) && |counts| <= n
    requires forall g :: 0 <= g < |counts| ==> counts[g] == |LiveDocs(Routed(hash, n, requests, g))|
    ensures Sum(counts) == |IdsBelow(hash, n, LiveDocs(requests), |counts|)|
    decreases |counts|
  {
    hide LiveDocs, Routed, WellRouted, Route;
    var all := LiveDocs(requests);
    if counts == [] {
      assert IdsBelow(hash, n, all, 0) == {};
    } else {
      var g := |counts| - 1;
      SumIsIds(hash, n, requests, counts[..g]);
      GroupDocs(hash, n, requests, g);
      var part := LiveDocs(Routed(hash, n, requests, g));
      assert IdsBelow(hash, n, all, g + 1) == IdsBelow(hash, n, all, g) + part.Keys;
      assert IdsBelow(hash, n, all, g) !! part.Keys;
      assert |part| == |part.Keys|;
    }
  }

  /** Sentinel.Count: the counts of one replica per group add up to what one index would count. */
  lemma CountsAddUp(hash: Str -> nat, n: nat, requests: seq<Request>, single: State,
                    groups: seq<State>, counts: seq<nat>)
    requires n > 0 && WellRouted(hash, n, requests) && Served(single, requests)
    requires |groups| == n && forall g :: 0 <= g < n ==> Served(groups[g], Routed(hash, n, requests, g))
    requires |counts| == n && forall g :: 0 <= g < n ==> counts[g] == |groups[g].forward|
    ensures Sum(counts) == |single.forward|
  {
    hide LiveDocs, Routed, WellRouted, Served, Invariant;
    forall g | 0 <= g < n ensures counts[g] == |LiveDocs(Routed(hash, n, requests, g))| {
      ServedInvariant(groups[g], Routed(hash, n, requests, g));
      SameCount(groups[g].forward, LiveDocs(Routed(hash, n, requests, g)));
    }
    SumIsIds(hash, n, requests, counts);
    ServedInvariant(single, requests);
    SameCount(single.forward, LiveDocs(requests));
    assert IdsBelow(hash, n, LiveDocs(requests), n) == LiveDocs(requests).Keys;
    assert |LiveDocs(requests)| == |LiveDocs(requests).Keys|;
  }

  lemma SameCount(forward: Store, live: Store)
    requires SameDocs(forward, live)
    ensures |forward| == |live|
  {
    assert forward.Keys == live.Keys;
    assert |forward| == |forward.Keys| && |live| == |live.Keys|;
  }

  // ----- Writes -----

  /** What becomes of a write on one replica: the lookup does not list it, the call does not reach
      it, the work is done but the reply is lost, or the reply arrives. */
  datatype Delivery = Unlisted | Unreached | ReplyLost | Answered

  predicate Takes(o: Delivery) { o.ReplyLost? || o.Answered? }

  predicate AnyListed(outcomes: seq<Delivery>) {
    exists r :: 0 <= r < |outcomes| && !outcomes[r].Unlisted?
  }

  /** The replicas below k that report the write as effective. */
  function Reporting(outcomes: seq<Delivery>, effective: seq<bool>, k: nat): set<nat>
    requires k <= |outcomes| == |effective|
  {
    set r: nat | r < k && outcomes[r].Answered? && effective[r]
  }

  lemma ReportingStep(outcomes: seq<Delivery>, effective: seq<bool>, k: nat)
    requires k < |outcomes| == |effective|
    ensures |Reporting(outcomes, effective, k + 1)| ==
              |Reporting(outcomes, effective, k)| + if outcomes[k].Answered? && effective[k] then 1 else 0
  {
    var (all, before) := (Reporting(outcomes, effective, k + 1), Reporting(outcomes, effective, k));
    if outcomes[k].Answered? && effective[k] {
      assert all == before + {k};
    } else {
      assert all == before;
    }
  }

  lemma {:induction false} AtMostAll(outcomes: seq<Delivery>, effective: seq<bool>, k: nat)
    requires k <= |outcomes| == |effective|
    ensures |Reporting(outcomes, effective, k)| <= k
    ensures |Reporting(outcomes, effective, k)| == k <==>
              forall r :: 0 <= r < k ==> outcomes[r].Answered? && effective[r]
  {
    if k == 0 {
      assert Reporting(outcomes, effective, 0) == {};
    } else {
      AtMostAll(outcomes, effective, k - 1);
      ReportingStep(outcomes, effective, k - 1);
    }
  }

  /** Although the number is kept in 32 bits, it is that of the replicas exactly when all report, for
      fewer than 2^32 of them. */
  lemma AllReport(outcomes: seq<Delivery>, effective: seq<bool>)
    requires |outcomes| == |effective|
    ensures |Reporting(outcomes, effective, |outcomes|)| % TWO_32 == |outcomes| <==>
              |outcomes| < TWO_32 && forall r :: 0 <= r < |outcomes| ==> outcomes[r].Answered? && effective[r]
  {
    AtMostAll(outcomes, effective, |outcomes|);
  }

  /** What the replicas of one group have served after a write. */
  ghost function Delivered(served: seq<seq<Request>>, outcomes: seq<Delivery>, request: Request): (r: seq<seq<Request>>)
    requires |served| == |outcomes|
    ensures |r| == |served|
  {
    seq(|served|, r requires 0 <= r < |served| => if Takes(outcomes[r]) then served[r] + [request] else served[r])
  }

  /** A replica has served everything it was sent or has fallen behind. */
  ghost predicate Keeping(served: seq<Request>, routed: seq<Request>) {
    served == routed || |served| < |routed|
  }

  lemma DeliveredKeeps(served: seq<seq<Request>>, outcomes: seq<Delivery>, request: Request, routed: seq<Request>)
    requires |served| == |outcomes| && forall r :: 0 <= r < |served| ==> Keeping(served[r], routed)
    ensures forall r :: 0 <= r < |served| ==>
              var now := Delivered(served, outcomes, request)[r];
              && Keeping(now, routed + [request])
              && (now == routed + [request] <==> served[r] == routed && Takes(outcomes[r]))
  {
  }

  lemma RoutedSnoc(hash: Str -> nat, n: nat, requests: seq<Request>, r: Request)
    requires n > 0
    ensures forall g :: 0 <= g < n ==>
              Routed(hash, n, requests + [r], g) ==
                if Route(hash, n, RoutedId(r)) == g then Routed(hash, n, requests, g) + [r]
                else Routed(hash, n, requests, g)
  {
    assert (requests + [r])[..|requests|] == requests;
  }

  predicate SameShape(a: seq<seq<State>>, b: seq<seq<State>>) {
    |a| == |b| && forall g :: 0 <= g < |a| ==> |a[g]| == |b[g]|
  }

  /** Every replica has served what was delivered to it, and that is all there was or less. */
  ghost predicate Consistent(hash: Str -> nat, groups: seq<seq<State>>, served: seq<seq<seq<Request>>>,
                             history: seq<Request>)
  {
    && |groups| > 0 && |served| == |groups|
    && (forall g :: 0 <= g < |groups| ==> |served[g]| == |groups[g]|)
    && forall g, r :: 0 <= g < |groups| && 0 <= r < |groups[g]| ==>
         Served(groups[g][r], served[g][r]) && Keeping(served[g][r], Routed(hash, |groups|, history, g))
  }

  /** A replica has served everything after a write to group g if it had before and, in that group,
      the write takes effect on it. */
  ghost predicate KeepUp(hash: Str -> nat, served: seq<seq<seq<Request>>>, history: seq<Request>,
                         served': seq<seq<seq<Request>>>, history': seq<Request>, g: nat, outcomes: seq<Delivery>)
    requires g < |served| == |served'| && |served[g]| == |outcomes|
    requires forall h :: 0 <= h < |served| ==> |served[h]| == |served'[h]|
  {
    forall h, r :: 0 <= h < |served| && 0 <= r < |served[h]| ==>
      (served'[h][r] == Routed(hash, |served|, history', h) <==>
       served[h][r] == Routed(hash, |served|, history, h) && (h == g ==> Takes(outcomes[r])))
  }

  lemma WriteKeeps(hash: Str -> nat, groups: seq<seq<State>>, served: seq<seq<seq<Request>>>, history: seq<Request>,
                   request: Request, g: nat, replicas: seq<State>, outcomes: seq<Delivery>)
    requires Consistent(hash, groups, served, history) && g == Route(hash, |groups|, RoutedId(request))
    requires |outcomes| == |groups[g]| == |replicas|
    requires forall r :: 0 <= r < |replicas| ==> Served(replicas[r], Delivered(served[g], outcomes, request)[r])
    ensures var served' := served[g := Delivered(served[g], outcomes, request)];
            && Consistent(hash, groups[g := replicas], served', history + [request])
            && KeepUp(hash, served, history, served', history + [request], g, outcomes)
  {
    hide Served, Route, Routed, Delivered, Keeping;
    RoutedSnoc(hash, |groups|, history, request);
    DeliveredKeeps(served[g], outcomes, request, Routed(hash, |groups|, history, g));
  }

  /** Every replica that takes a document stores it, unless its id is blank. */
  ghost function Stored(doc: Document, n: nat): (r: seq<bool>)
    ensures |r| == n && forall i :: 0 <= i < n ==> r[i] == (TrimSpace(doc.id) != [])
  {
    seq(n, _ => TrimSpace(doc.id) != [])
  }

  /** Which replicas of a group have the document. */
  ghost function Holding(served: seq<seq<Request>>, docId: Str): (r: seq<bool>)
    ensures |r| == |served|
  {
    seq(|served|, r requires 0 <= r < |served| => docId in LiveDocs(served[r]))
  }

  /** The write side: the replicas of every group, as the values of their indexes, what was asked of
      the cluster and what each replica has served of it. */
  class Sentinel {
    const hash: Str -> nat
    var groups: seq<seq<State>>
    ghost var history: seq<Request>
    ghost var served: seq<seq<seq<Request>>>

    ghost predicate Valid()
      reads this
    {
      Consistent(hash, groups, served, history)
    }

    /** A replica whose answers ClusterRefinesIndex is about. */
    ghost predicate CaughtUp(g: int, r: int)
      requires Valid() && 0 <= g < |groups| && 0 <= r < |groups[g]|
      reads this
    {
      served[g][r] == Routed(hash, |groups|, history, g)
    }

    constructor (hash: Str -> nat, sizes: seq<nat>)
      requires |sizes| > 0
      ensures Valid() && history == [] && |groups| == |sizes|
      ensures forall g :: 0 <= g < |groups| ==> |groups[g]| == sizes[g]
      ensures forall g, r :: 0 <= g < |groups| && 0 <= r < |groups[g]| ==> CaughtUp(g, r)
    {
      this.hash := hash;
      groups := seq(|sizes|, g requires 0 <= g < |sizes| => seq(sizes[g], _ => EMPTY_INDEX));
      history := [];
      served := seq(|sizes|, g requires 0 <= g < |sizes| => seq(sizes[g], _ => []));
      new;
      ServedNothing();
    }

    /** Writes to every listed replica of the group; each draws its own fresh IntId. Replicas that
        fail are only logged, so a replica keeps up exactly as long as every write to its group
        takes effect on it. */
    method AddDoc(doc: Document, outcomes: seq<Delivery>, draws: seq<uint64>) returns (total: nat, ok: bool)
      requires Valid()
      requires var replicas := groups[Route(hash, |groups|, doc.id)];
               && |outcomes| == |draws| == |replicas|
               && forall r :: 0 <= r < |draws| && Takes(outcomes[r]) ==> Allowed(replicas[r], AddOp(doc, draws[r]))
      modifies this
      ensures Valid() && SameShape(old(groups), groups)
      ensures ok == AnyListed(outcomes)
      ensures history == if ok then old(history) + [AddRequest(doc)] else old(history)
      ensures var g := Route(hash, |old(groups)|, doc.id);
              && served == (if ok then old(served)[g := Delivered(old(served)[g], outcomes, AddRequest(doc))]
                            else old(served))
              && groups == (if ok then old(groups)[g := groups[g]] else old(groups))
      ensures forall g, r :: 0 <= g < |groups| && 0 <= r < |groups[g]| ==>
                (CaughtUp(g, r) <==>
                 old(CaughtUp(g, r)) && (ok && g == Route(hash, |groups|, doc.id) ==> Takes(outcomes[r])))
      ensures total == |Reporting(outcomes, Stored(doc, |outcomes|), |outcomes|)| % TWO_32
    {
      hide Served, Route, Keeping, Delivered, Reporting, Stored, AnyListed;
      var g := Route(hash, |groups|, doc.id);
      ok := AnyListed(outcomes);
      if !ok {
        NothingReported(outcomes, Stored(doc, |outcomes|));
        total := 0;
        return;
      }
      var replicas;
      replicas, total := AddToAll(groups[g], served[g], doc, outcomes, draws);
      WriteKeeps(hash, groups, served, history, AddRequest(doc), g, replicas, outcomes);
      groups, served := groups[g := replicas], served[g := Delivered(served[g], outcomes, AddRequest(doc))];
      history := history + [AddRequest(doc)];
    }

    /** Deletes on every listed replica of the group. */
    method DeleteDoc(docId: Str, outcomes: seq<Delivery>) returns (total: nat)
      requires Valid() && |outcomes| == |groups[Route(hash, |groups|, docId)]|
      modifies this
      ensures Valid() && SameShape(old(groups), groups)
      ensures history == if AnyListed(outcomes) then old(history) + [DeleteRequest(docId)] else old(history)
      ensures var g, ok := Route(hash, |old(groups)|, docId), AnyListed(outcomes);
              && served == (if ok then old(served)[g := Delivered(old(served)[g], outcomes, DeleteRequest(docId))]
                            else old(served))
              && groups == (if ok then old(groups)[g := groups[g]] else old(groups))
      ensures forall g, r :: 0 <= g < |groups| && 0 <= r < |groups[g]| ==>
                (CaughtUp(g, r) <==>
                 old(CaughtUp(g, r)) &&
                 (AnyListed(outcomes) && g == Route(hash, |groups|, docId) ==> Takes(outcomes[r])))
      ensures var holding := Holding(old(served)[Route(hash, |groups|, docId)], docId);
              total == |Reporting(outcomes, holding, |outcomes|)| % TWO_32
    {
      var g := Route(hash, |groups|, docId);
      if !AnyListed(outcomes) {
        NothingReported(outcomes, Holding(served[g], docId));
        total := 0;
        return;
      }
      var replicas;
      replicas, total := DeleteFromAll(groups[g], served[g], docId, outcomes);
      WriteKeeps(hash, groups, served, history, DeleteRequest(docId), g, replicas, outcomes);
      groups, served := groups[g := replicas], served[g := Delivered(served[g], outcomes, DeleteRequest(docId))];
      history := history + [DeleteRequest(docId)];
    }

    /** The replicas asked, one of each group. */
    function Asked(pick: seq<nat>): (r: seq<State>)
      requires |pick| == |groups| && forall g :: 0 <= g < |groups| ==> pick[g] < |groups[g]|
      reads this
      ensures |r| == |groups| && forall g :: 0 <= g < |groups| ==> r[g] == groups[g][pick[g]]
    {
      var now := groups;
      seq(|now|, g requires 0 <= g < |now| => now[g][pick[g]])
    }

    /** After any writes, a search that asks replicas that have kept up finds what one index would. */
    lemma SearchAfterWrites(pick: seq<nat>, single: State, answer: seq<Document>, answers: seq<seq<Document>>,
                            merged: seq<Document>, q: TermQuery, f: Flags)
      requires Valid() && WellRouted(hash, |groups|, history) && |pick| == |groups|
      requires forall g :: 0 <= g < |groups| ==> pick[g] < |groups[g]| && CaughtUp(g, pick[g])
      requires Served(single, history) && IsAnswer(answer, single.forward, q, f)
      requires GroupAnswers(answers, Asked(pick), q, f) && multiset(merged) == multiset(Concat(answers))
      ensures multiset(Strips(merged)) == multiset(Strips(answer))
    {
      hide Served, WellRouted, IsAnswer, GroupAnswers, Concat, Strips;
      ClusterRefinesIndex(hash, |groups|, history, single, answer, Asked(pick), answers, merged, q, f);
    }
  }

  lemma NothingReported(outcomes: seq<Delivery>, effective: seq<bool>)
    requires |outcomes| == |effective| && !AnyListed(outcomes)
    ensures |Reporting(outcomes, effective, |outcomes|)| == 0
    ensures forall r :: 0 <= r < |outcomes| ==> !Takes(outcomes[r])
  {
    assert Reporting(outcomes, effective, |outcomes|) == {};
  }

  /** The calls to the replicas of one group, with the count of the replies. */
  method AddToAll(replicas: seq<State>, ghost served: seq<seq<Request>>, doc: Document, outcomes: seq<Delivery>,
                  draws: seq<uint64>)
    returns (after: seq<State>, total: nat)
    requires |replicas| == |served| == |outcomes| == |draws|
    requires forall r :: 0 <= r < |replicas| ==> Served(replicas[r], served[r])
    requires forall r :: 0 <= r < |draws| && Takes(outcomes[r]) ==> Allowed(replicas[r], AddOp(doc, draws[r]))
    ensures |after| == |replicas|
    ensures forall r :: 0 <= r < |after| ==> Served(after[r], Delivered(served, outcomes, AddRequest(doc))[r])
    ensures total == |Reporting(outcomes, Stored(doc, |outcomes|), |outcomes|)| % TWO_32
  {
    hide Served, Add, Reporting, Stored, TrimSpace;
    after, total := replicas, 0;
    ghost var effective := Stored(doc, |outcomes|);
    ghost var now := Delivered(served, outcomes, AddRequest(doc));
    NoneYet(outcomes, effective);
    for r := 0 to |replicas|
      invariant |after| == |replicas| && forall i :: r <= i < |after| ==> after[i] == replicas[i]
      invariant forall i :: 0 <= i < r ==> Served(after[i], now[i])
      invariant total == |Reporting(outcomes, effective, r)| % TWO_32
    {
      ReportingStep(outcomes, effective, r);
      if Takes(outcomes[r]) {
        assert Allowed(replicas[r], AddOp(doc, draws[r]));
        ServedAdd(replicas[r], served[r], doc, draws[r]);
        after := after[r := Add(after[r], doc, draws[r])];
      }
      if outcomes[r].Answered? {
        total := (total + if TrimSpace(doc.id) == [] then 0 else 1) % TWO_32;
      }
    }
  }

  method DeleteFromAll(replicas: seq<State>, ghost served: seq<seq<Request>>, docId: Str, outcomes: seq<Delivery>)
    returns (after: seq<State>, total: nat)
    requires |replicas| == |served| == |outcomes|
    requires forall r :: 0 <= r < |replicas| ==> Served(replicas[r], served[r])
    ensures |after| == |replicas|
    ensures forall r :: 0 <= r < |after| ==> Served(after[r], Delivered(served, outcomes, DeleteRequest(docId))[r])
    ensures total == |Reporting(outcomes, Holding(served, docId), |outcomes|)| % TWO_32
  {
    hide Served, LiveDocs, Delete, Invariant, Reporting, TableOk;
    after, total := replicas, 0;
    ghost var effective, now := Holding(served, docId), Delivered(served, outcomes, DeleteRequest(docId));
    NoneYet(outcomes, effective);
    for r := 0 to |replicas|
      invariant |after| == |replicas| && forall i :: r <= i < |after| ==> after[i] == replicas[i]
      invariant forall i :: 0 <= i < r ==> Served(after[i], now[i])
      invariant total == |Reporting(outcomes, effective, r)| % TWO_32
    {
      ReportingStep(outcomes, effective, r);
      if Takes(outcomes[r]) {
        ServedDelete(replicas[r], served[r], docId);
        if outcomes[r].Answered? && docId in after[r].forward {
          total := (total + 1) % TWO_32;
        }
        after := after[r := Delete(after[r], docId)];
      }
    }
  }

  lemma NoneYet(outcomes: seq<Delivery>, effective: seq<bool>)
    requires |outcomes| == |effective|
    ensures |Reporting(outcomes, effective, 0)| == 0
  {
    assert Reporting(outcomes, effective, 0) == {};
  }
}
