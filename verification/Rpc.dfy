/** A search from end to end: the sentinel encodes the request, one worker of each group decodes it,
    searches its index and encodes the reply, and the sentinel decodes and merges the replies. */
module Rpc {
  import opened GoBase
  import opened Types
  import opened ReverseIndex
  import opened Messages
  import IndexState
  import Layout
  import RoundTrip
  import Cluster
  import FanIn

  function RequestBytes(q: TermQuery, f: Flags): Str {
    Marshal(RequestMsg(SearchRequest(Some(q), f.on, f.off, f.ors)))
  }

  /** Which of the sentinel's arguments goes where. */
  lemma RequestSent(q: TermQuery, f: Flags)
    ensures RequestBytes(q, f) ==
              Layout.Payload(0x0A, MarshalQuery(q)) + Layout.NumberUnlessZero(0x10, f.on)
              + Layout.NumberUnlessZero(0x18, f.off) + Layout.PayloadUnlessEmpty(0x22, Layout.AllNumbers(f.ors))
  {
    hide MarshalQuery, Layout.Payload, Layout.NumberUnlessZero, Layout.PayloadUnlessEmpty, Layout.AllNumbers;
    Layout.RequestLayout(SearchRequest(Some(q), f.on, f.off, f.ors));
  }

  /** What a worker replies to the bytes of a request. */
  ghost predicate Replies(s: IndexState.State, request: Str, reply: Str) {
    var m := Decode(RequestMsg(NO_REQUEST), request);
    && m.Ok? && m.value.RequestMsg? && m.value.request.query.Some?
    && var r := m.value.request;
       exists answer ::
         && IndexState.IsAnswer(answer, s.forward, r.query.value, Flags(r.onFlag, r.offFlag, r.orFlags))
         && reply == Marshal(ResponseMsg(answer))
  }

  /** The documents of a reply. */
  function Received(reply: Str): seq<Document> {
    match Decode(ResponseMsg([]), reply)
    case Ok(m) => if m.ResponseMsg? then m.docs else []
    case Err(_) => []
  }

  /** The wire changes neither the query, nor the flags, nor the documents and their order. */
  lemma RemoteAnswer(s: IndexState.State, q: TermQuery, f: Flags, reply: Str)
    requires |RequestBytes(q, f)| < TWO_63 && |reply| < TWO_63
    requires Replies(s, RequestBytes(q, f), reply)
    ensures IndexState.IsAnswer(Received(reply), s.forward, q, f)
  {
    hide Decode, Marshal, IndexState.IsAnswer;
    var request := SearchRequest(Some(q), f.on, f.off, f.ors);
    RoundTrip.RoundTrip(RequestMsg(request));
    var answer :| IndexState.IsAnswer(answer, s.forward, q, f) && reply == Marshal(ResponseMsg(answer));
    RoundTrip.RoundTrip(ResponseMsg(answer));
  }

  function AllReceived(replies: seq<Str>): (r: seq<seq<Document>>)
    ensures |r| == |replies|
  {
    seq(|replies|, g requires 0 <= g < |replies| => Received(replies[g]))
  }

  /** A search of the cluster over the wire that is not timed out finds, up to IntIds, exactly the
      documents that one index given every request would find, each as often. */
  lemma SearchOverTheWire(hash: Str -> nat, n: nat, requests: seq<Cluster.Request>, single: IndexState.State,
                          answer: seq<Document>, groups: seq<IndexState.State>, replies: seq<Str>,
                          q: TermQuery, f: Flags, steps: seq<FanIn.Step>, capacity: nat)
    requires n > 0 && Cluster.WellRouted(hash, n, requests)
    requires Cluster.Served(single, requests) && IndexState.IsAnswer(answer, single.forward, q, f)
    requires |groups| == n && forall g :: 0 <= g < n ==> Cluster.Served(groups[g], Cluster.Routed(hash, n, requests, g))
    requires |RequestBytes(q, f)| < TWO_63
    requires |replies| == n
    requires forall g :: 0 <= g < n ==> |replies[g]| < TWO_63 && Replies(groups[g], RequestBytes(q, f), replies[g])
    requires FanIn.IsRun(FanIn.Init(AllReceived(replies)), steps, capacity)
    requires FanIn.Returned(FanIn.After(FanIn.Init(AllReceived(replies)), steps, capacity))
    requires forall i :: 0 <= i < |steps| ==> !steps[i].Timeout?
    ensures var found := FanIn.Items(FanIn.After(FanIn.Init(AllReceived(replies)), steps, capacity).merged);
            multiset(Cluster.Strips(found)) == multiset(Cluster.Strips(answer))
  {
    hide Decode, Marshal, IndexState.IsAnswer, Replies, RequestBytes, Received, Cluster.Served, Cluster.Routed,
      Cluster.WellRouted, FanIn.IsRun, FanIn.After, FanIn.Init, Cluster.Strips, FanIn.Items, FanIn.Returned;
    forall g | 0 <= g < n ensures IndexState.IsAnswer(AllReceived(replies)[g], groups[g].forward, q, f) {
      RemoteAnswer(groups[g], q, f, replies[g]);
    }
    FanIn.ClusterSearch(hash, n, requests, single, answer, groups, AllReceived(replies), q, f, steps, capacity);
  }
}
