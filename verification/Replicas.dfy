/** When the replicas a search asks answer like one index, whatever they have served. */
module Replicas {
  import opened GoBase
  import opened Types
  import opened ReverseIndex
  import opened IndexState
  import opened Cluster

  // ----- What a store contributes to answers -----

  /** Some query finds the document in the store, up to its IntId. */
  predicate Findable(x: Document, forward: Store) {
    x.keywords != [] && TrimSpace(x.id) == x.id && x.id in forward && Strip(forward[x.id]) == x
  }

  ghost predicate Wanted(x: Document, q: TermQuery, f: Flags) {
    Matches(x, q) && Passes(x.bits, f)
  }

  /** A document without keywords satisfies no query. */
  lemma {:induction false} MatchNeedsKeyword(d: Document, q: TermQuery)
    requires Matches(d, q)
    ensures d.keywords != []
    decreases q
  {
    if q.keyword.None? {
      if |q.must| > 0 {
        MatchNeedsKeyword(d, q.must[0]);
      } else {
        var j :| 0 <= j < |q.should| && Matches(d, q.should[j]);
        MatchNeedsKeyword(d, q.should[j]);
      }
    }
  }

  /** An answer has each findable document that is wanted once, and no other. */
  lemma AnswerCount(answer: seq<Document>, forward: Store, q: TermQuery, f: Flags, x: Document)
    requires IsAnswer(answer, forward, q, f)
    ensures multiset(Strips(answer))[x] == if Wanted(x, q, f) && Findable(x, forward) then 1 else 0
  {
    hide Matches, Passes, TrimSpace;
    var r := Strips(answer);
    forall i, j | 0 <= i < j < |r| ensures r[i] != r[j] {
      assert answer[i] in answer && answer[j] in answer;
    }
    if x in r {
      var i :| 0 <= i < |r| && r[i] == x;
      assert answer[i] in answer;
      MatchesStrip(answer[i], q);
      MatchNeedsKeyword(x, q);
    }
    if Wanted(x, q, f) && Findable(x, forward) {
      var d := forward[x.id];
      MatchesStrip(d, q);
      assert Hit(d, forward, q, f);
      var i :| 0 <= i < |answer| && answer[i] == d;
      assert r[i] == x;
    }
    NoDuplicatesMultiset(r);
  }

  /** How many replicas have the document. */
  function Copies(x: Document, groups: seq<State>): nat {
    if groups == [] then 0
    else Copies(x, groups[..|groups| - 1]) + if Findable(x, groups[|groups| - 1].forward) then 1 else 0
  }

  lemma {:induction false} ConcatCount(answers: seq<seq<Document>>, groups: seq<State>, q: TermQuery, f: Flags,
                                       x: Document)
    requires GroupAnswers(answers, groups, q, f)
    ensures multiset(Strips(Concat(answers)))[x] == if Wanted(x, q, f) then Copies(x, groups) else 0
    decreases |groups|
  {
    hide IsAnswer, Findable, Wanted;
    if groups != [] {
      var n := |groups| - 1;
      ConcatCount(answers[..n], groups[..n], q, f, x);
      AnswerCount(answers[n], groups[n].forward, q, f, x);
      assert answers[..n + 1] == answers;
      ConcatLast(answers, n + 1);
    }
  }

  // ----- Every query has an answer -----

  /** Documents with different IntIds can be put in order. */
  lemma {:induction false} InOrder(docs: set<Document>) returns (r: seq<Document>)
    requires forall d, e :: d in docs && e in docs && d.intId == e.intId ==> d == e
    ensures Ascending(r) && forall d :: d in r <==> d in docs
  {
    if docs == {} {
      r := [];
    } else {
      var last := Latest(docs);
      var before := InOrder(docs - {last});
      r := before + [last];
      AscendingAppend(before, last);
    }
  }

  lemma {:induction false} Latest(docs: set<Document>) returns (last: Document)
    requires docs != {}
    ensures last in docs && forall d :: d in docs ==> d.intId <= last.intId
  {
    var d :| d in docs;
    if docs == {d} {
      last := d;
    } else {
      var other := Latest(docs - {d});
      last := if other.intId > d.intId then other else d;
    }
  }

  lemma AnswerExists(forward: Store, q: TermQuery, f: Flags) returns (answer: seq<Document>)
    requires StoreOk(forward)
    ensures IsAnswer(answer, forward, q, f)
  {
    hide Matches, Passes, TrimSpace;
    var hits := set id | id in forward && Hit(forward[id], forward, q, f) :: forward[id];
    answer := InOrder(hits);
    forall d ensures d in answer <==> Hit(d, forward, q, f) {
      if Hit(d, forward, q, f) { assert forward[d.id] in hits; }
    }
  }

  lemma {:induction false} GroupAnswersExist(groups: seq<State>, q: TermQuery, f: Flags)
    returns (answers: seq<seq<Document>>)
    requires forall g :: 0 <= g < |groups| ==> StoreOk(groups[g].forward)
    ensures GroupAnswers(answers, groups, q, f)
    decreases |groups|
  {
    if groups == [] {
      answers := [];
    } else {
      var n := |groups| - 1;
      var before := GroupAnswersExist(groups[..n], q, f);
      var last := AnswerExists(groups[n].forward, q, f);
      answers := before + [last];
    }
  }

  // ----- The exact condition -----

  /** Merging the replicas' answers gives, for every query, what the one index answers. */
  ghost predicate AnswerAlike(single: State, groups: seq<State>) {
    forall q, f, answer, answers ::
      IsAnswer(answer, single.forward, q, f) && GroupAnswers(answers, groups, q, f) ==>
        multiset(Strips(Concat(answers))) == multiset(Strips(answer))
  }

  /** A document with keywords is in the one index if one replica has it, and no two replicas do. */
  ghost predicate HoldAlike(single: State, groups: seq<State>) {
    forall x: Document :: Copies(x, groups) == if Findable(x, single.forward) then 1 else 0
  }

  /** The replicas asked answer every query like one index exactly when each findable document of
      that index is on exactly one of them, and they have no others. */
  lemma AnswerAlikeIff(single: State, groups: seq<State>)
    requires StoreOk(single.forward) && forall g :: 0 <= g < |groups| ==> StoreOk(groups[g].forward)
    ensures AnswerAlike(single, groups) <==> HoldAlike(single, groups)
  {
    if HoldAlike(single, groups) {
      forall q, f, answer, answers | IsAnswer(answer, single.forward, q, f) && GroupAnswers(answers, groups, q, f)
        ensures multiset(Strips(Concat(answers))) == multiset(Strips(answer))
      {
        HeldAnswered(single, groups, q, f, answer, answers);
      }
    }
    if AnswerAlike(single, groups) {
      forall x: Document ensures Copies(x, groups) == if Findable(x, single.forward) then 1 else 0 {
        AnsweredHeld(single, groups, x);
      }
    }
  }

  lemma HeldAnswered(single: State, groups: seq<State>, q: TermQuery, f: Flags, answer: seq<Document>,
                     answers: seq<seq<Document>>)
    requires HoldAlike(single, groups) && IsAnswer(answer, single.forward, q, f) && GroupAnswers(answers, groups, q, f)
    ensures multiset(Strips(Concat(answers))) == multiset(Strips(answer))
  {
    hide IsAnswer, GroupAnswers, Findable, Wanted, Copies, Strips, Concat;
    var (a, b) := (multiset(Strips(Concat(answers))), multiset(Strips(answer)));
    forall x: Document ensures a[x] == b[x] {
      ConcatCount(answers, groups, q, f, x);
      AnswerCount(answer, single.forward, q, f, x);
    }
  }

  lemma AnsweredHeld(single: State, groups: seq<State>, x: Document)
    requires StoreOk(single.forward) && forall g :: 0 <= g < |groups| ==> StoreOk(groups[g].forward)
    requires AnswerAlike(single, groups)
    ensures Copies(x, groups) == if Findable(x, single.forward) then 1 else 0
  {
    hide IsAnswer, GroupAnswers, Copies, Strips, Concat, TrimSpace, StoreOk, Passes;
    if x.keywords == [] {
      NoCopies(x, groups);
    } else {
      var q, f := TermQuery(Some(x.keywords[0]), [], []), NO_FLAGS;
      assert HasKeyword(x.keywords, KeyOf(x.keywords[0]));
      NoFlagsPass(x.bits);
      var answer := AnswerExists(single.forward, q, f);
      var answers := GroupAnswersExist(groups, q, f);
      ConcatCount(answers, groups, q, f, x);
      AnswerCount(answer, single.forward, q, f, x);
    }
  }

  lemma {:induction false} NoCopies(x: Document, groups: seq<State>)
    requires x.keywords == []
    ensures Copies(x, groups) == 0
    decreases |groups|
  {
    if groups != [] { NoCopies(x, groups[..|groups| - 1]); }
  }

  // ----- Runs of requests -----

  /** The replicas of these groups have served the requests routed to them, one index all of them. */
  ghost predicate ServedAll(hash: Str -> nat, n: nat, requests: seq<Request>, single: State, groups: seq<State>)
    requires n > 0
  {
    && Served(single, requests)
    && |groups| == n && forall g :: 0 <= g < n ==> Served(groups[g], Routed(hash, n, requests, g))
  }

  lemma StoresOk(hash: Str -> nat, n: nat, requests: seq<Request>, single: State, groups: seq<State>)
    requires n > 0 && ServedAll(hash, n, requests, single, groups)
    ensures StoreOk(single.forward) && forall g :: 0 <= g < |groups| ==> StoreOk(groups[g].forward)
  {
    hide Served, Routed, StoreOk, Mirrors, LiveDocs;
    ServedInvariant(single, requests);
    forall g | 0 <= g < n ensures StoreOk(groups[g].forward) {
      ServedInvariant(groups[g], Routed(hash, n, requests, g));
    }
  }

  /** If routing ignores trimming, replicas that have served everything hold documents alike. */
  lemma CaughtUpHoldAlike(hash: Str -> nat, n: nat, requests: seq<Request>, single: State, groups: seq<State>)
    requires n > 0 && WellRouted(hash, n, requests) && ServedAll(hash, n, requests, single, groups)
    ensures HoldAlike(single, groups)
  {
    hide Served, WellRouted, IsAnswer, GroupAnswers, HoldAlike, Strips, Concat, StoreOk;
    StoresOk(hash, n, requests, single, groups);
    forall q, f, answer, answers | IsAnswer(answer, single.forward, q, f) && GroupAnswers(answers, groups, q, f)
      ensures multiset(Strips(Concat(answers))) == multiset(Strips(answer))
    {
      ClusterRefinesIndex(hash, n, requests, single, answer, groups, answers, Concat(answers), q, f);
    }
    AnswerAlikeIff(single, groups);
  }

  /** In how many of the first m groups the requests routed there leave the document findable. */
  function LiveCopies(hash: Str -> nat, n: nat, requests: seq<Request>, x: Document, m: nat): nat
    requires n > 0
  {
    if m == 0 then 0
    else
      LiveCopies(hash, n, requests, x, m - 1)
      + if Findable(x, LiveDocs(Routed(hash, n, requests, m - 1))) then 1 else 0
  }

  /** The requests leave every findable document in exactly one group, and no other. */
  ghost predicate SpreadAlike(hash: Str -> nat, n: nat, requests: seq<Request>)
    requires n > 0
  {
    forall x: Document ::
      LiveCopies(hash, n, requests, x, n) == if Findable(x, LiveDocs(requests)) then 1 else 0
  }

  lemma ServedFindable(s: State, requests: seq<Request>, x: Document)
    requires Served(s, requests)
    ensures Findable(x, s.forward) == Findable(x, LiveDocs(requests))
  {
    hide Served;
    ServedInvariant(s, requests);
    LiveDocsStripped(requests);
  }

  lemma {:induction false} LiveDocsStripped(requests: seq<Request>)
    ensures forall id :: id in LiveDocs(requests) ==> Strip(LiveDocs(requests)[id]) == LiveDocs(requests)[id]
  {
    if requests != [] { LiveDocsStripped(requests[..|requests| - 1]); }
  }

  lemma {:induction false} CopiesAreLive(hash: Str -> nat, n: nat, requests: seq<Request>, single: State,
                                         groups: seq<State>, x: Document, m: nat)
    requires n > 0 && ServedAll(hash, n, requests, single, groups) && m <= n
    ensures Copies(x, groups[..m]) == LiveCopies(hash, n, requests, x, m)
  {
    hide Served, LiveDocs, Routed, Findable;
    if m > 0 {
      CopiesAreLive(hash, n, requests, single, groups, x, m - 1);
      ServedFindable(groups[m - 1], Routed(hash, n, requests, m - 1), x);
      assert groups[..m][..m - 1] == groups[..m - 1];
    }
  }

  /** After any run of requests the cluster answers every query like one index exactly when the requests,
      as they were routed, leave every findable document in exactly one group, and no other. */
  lemma RunRefinesIff(hash: Str -> nat, n: nat, requests: seq<Request>, single: State, groups: seq<State>)
    requires n > 0 && ServedAll(hash, n, requests, single, groups)
    ensures AnswerAlike(single, groups) <==> SpreadAlike(hash, n, requests)
  {
    hide Served, LiveDocs, Routed, Findable, AnswerAlike, Copies, LiveCopies, StoreOk;
    forall x: Document
      ensures Copies(x, groups) == LiveCopies(hash, n, requests, x, n)
      ensures Findable(x, single.forward) == Findable(x, LiveDocs(requests))
    {
      CopiesAreLive(hash, n, requests, single, groups, x, n);
      assert groups[..n] == groups;
      ServedFindable(single, requests, x);
    }
    StoresOk(hash, n, requests, single, groups);
    AnswerAlikeIff(single, groups);
  }

  lemma RunMayDiffer(hash: Str -> nat, n: nat, id: Str)
    returns (requests: seq<Request>, single: State, groups: seq<State>)
    requires n > 0 && !RouteIgnoresTrim(hash, n, id)
    ensures ServedAll(hash, n, requests, single, groups) && !AnswerAlike(single, groups)
  {
    hide Served, Routed, IsAnswer, GroupAnswers, Strips, Concat;
    var answer, answers, q, f;
    requests, single, answer, groups, answers, q, f := MisroutedDiffers(hash, n, id);
  }

  /** The cluster answers like one index after every run. */
  ghost predicate AlwaysRefines(hash: Str -> nat, n: nat)
    requires n > 0
  {
    forall requests, single, groups :: ServedAll(hash, n, requests, single, groups) ==> AnswerAlike(single, groups)
  }

  /** That is so exactly when trimming never moves an id to another group. */
  lemma AlwaysRefinesIff(hash: Str -> nat, n: nat)
    requires n > 0
    ensures AlwaysRefines(hash, n) <==> forall id :: RouteIgnoresTrim(hash, n, id)
  {
    hide Served, Routed, RouteIgnoresTrim, AnswerAlike, HoldAlike;
    if forall id :: RouteIgnoresTrim(hash, n, id) {
      forall requests, single, groups | ServedAll(hash, n, requests, single, groups)
        ensures AnswerAlike(single, groups)
      {
        StoresOk(hash, n, requests, single, groups);
        CaughtUpHoldAlike(hash, n, requests, single, groups);
        AnswerAlikeIff(single, groups);
      }
    } else {
      var id :| !RouteIgnoresTrim(hash, n, id);
      var requests, single, groups := RunMayDiffer(hash, n, id);
    }
  }
}
