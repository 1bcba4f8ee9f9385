/** Whole runs of an index: adds, replacing adds, deletes and restarts, and what a search finds
    after any of them (service/indexer.go). */
module IndexRuns {
  import opened GoBase
  import opened SkipList
  import opened Types
  import opened ReverseIndex
  import opened IndexState
  import opened SnowflakeRuns
  import Snowflake

  /** A restart reads the stored documents back in whatever order the store iterates. */
  datatype Op = AddOp(doc: Document, intId: uint64) | DeleteOp(id: Str) | RestartOp(order: seq<Str>)

  const EMPTY_INDEX := IndexState.State(map[], map[])

  ghost predicate Allowed(s: IndexState.State, op: Op) {
    && TableOk(s.table)
    && match op
       case AddOp(doc, intId) => TrimSpace(doc.id) == [] || Unused(Delete(s, TrimSpace(doc.id)).forward, intId)
       case DeleteOp(_) => true
       case RestartOp(order) => IterationOrder(s.forward, order)
  }

  ghost function Step(s: IndexState.State, op: Op): IndexState.State
    requires Allowed(s, op)
  {
    match op
    case AddOp(doc, intId) => Add(s, doc, intId)
    case DeleteOp(id) => Delete(s, id)
    case RestartOp(order) => s.(table := Rebuild(s.forward, order))
  }

  ghost predicate AllowedRun(s: IndexState.State, ops: seq<Op>)
    decreases |ops|
  {
    ops != [] ==> Allowed(s, ops[0]) && AllowedRun(Step(s, ops[0]), ops[1..])
  }

  ghost function Run(s: IndexState.State, ops: seq<Op>): IndexState.State
    requires AllowedRun(s, ops)
    decreases |ops|
  {
    if ops == [] then s else Run(Step(s, ops[0]), ops[1..])
  }

  lemma StepKeeps(s: IndexState.State, op: Op)
    requires Invariant(s) && Allowed(s, op)
    ensures Invariant(Step(s, op))
  {
    match op
    case AddOp(doc, intId) => if TrimSpace(doc.id) != [] { AddKeeps(s, doc, intId); }
    case DeleteOp(id) => DeleteKeeps(s, id);
    case RestartOp(order) => RestartKeeps(s.forward, order);
  }

  lemma {:induction false} RunKeeps(s: IndexState.State, ops: seq<Op>)
    requires Invariant(s) && AllowedRun(s, ops)
    ensures Invariant(Run(s, ops))
    decreases |ops|
  {
    if ops != [] {
      StepKeeps(s, ops[0]);
      RunKeeps(Step(s, ops[0]), ops[1..]);
    }
  }

  // ----- The reference: a plain map of live documents -----

  /** The last document added under each trimmed id stays live until it is deleted. */
  function LiveStep(forward: Store, op: Op): Store {
    match op
    case AddOp(doc, intId) =>
      if TrimSpace(doc.id) == [] then forward else forward[TrimSpace(doc.id) := doc.(intId := intId)]
    case DeleteOp(id) => forward - {id}
    case RestartOp(_) => forward
  }

  function Live(forward: Store, ops: seq<Op>): Store
    decreases |ops|
  {
    if ops == [] then forward else Live(LiveStep(forward, ops[0]), ops[1..])
  }

  lemma StepForward(s: IndexState.State, op: Op)
    requires Allowed(s, op)
    ensures Step(s, op).forward == LiveStep(s.forward, op)
  {
    match op
    case AddOp(doc, intId) =>
      var id := TrimSpace(doc.id);
      assert (s.forward - {id})[id := doc.(intId := intId)] == s.forward[id := doc.(intId := intId)];
    case DeleteOp(id) => assert id !in s.forward ==> s.forward - {id} == s.forward;
    case RestartOp(_) =>
  }

  lemma {:induction false} RunForward(s: IndexState.State, ops: seq<Op>)
    requires AllowedRun(s, ops)
    ensures Run(s, ops).forward == Live(s.forward, ops)
    decreases |ops|
  {
    if ops != [] {
      StepForward(s, ops[0]);
      RunForward(Step(s, ops[0]), ops[1..]);
    }
  }

  /** After any run, what a search finds and fetches is exactly the live documents that satisfy
      the query and the flags, each once, in ascending IntId order. */
  lemma SearchIsExact(ops: seq<Op>, q: TermQuery, f: Flags, hits: List)
    requires AllowedRun(EMPTY_INDEX, ops)
    requires IsHits(hits, Run(EMPTY_INDEX, ops).table, q, f)
    ensures IsAnswer(Fetch(Run(EMPTY_INDEX, ops).forward, hits), Live(map[], ops), q, f)
  {
    EmptyInvariant();
    RunKeeps(EMPTY_INDEX, ops);
    RunForward(EMPTY_INDEX, ops);
    FetchIsAnswer(Run(EMPTY_INDEX, ops), q, f, hits);
  }

  /** Every evaluation binds exactly the same postings when two indexes mirror the same store. */
  lemma SameStoreSameHits(s1: IndexState.State, s2: IndexState.State, q: TermQuery, f: Flags, hits1: List, hits2: List)
    requires Invariant(s1) && Invariant(s2) && s1.forward == s2.forward
    requires IsHits(hits1, s1.table, q, f) && IsHits(hits2, s2.table, q, f)
    ensures hits1 == hits2
  {
    forall k ensures Get(hits1, k) == Get(hits2, k) {
      assert Get(hits1, k) == Denote(s1.table, q, f, k) && Get(hits2, k) == Denote(s2.table, q, f, k);
      if Denote(s1.table, q, f, k).Some? || Denote(s2.table, q, f, k).Some? {
        if Denote(s1.table, q, f, k).Some? { NoStrayHits(s1, q, f, k); } else { NoStrayHits(s2, q, f, k); }
        var id :| id in s1.forward && s1.forward[id].intId == k;
        DenoteIsMatches(s1, q, f, id);
        DenoteIsMatches(s2, q, f, id);
      }
    }
    SortedUnique(hits1, hits2);
  }

  /** A restart at any point of any run changes no search. */
  lemma RestartChangesNoSearch(ops: seq<Op>, order: seq<Str>, q: TermQuery, f: Flags, hits1: List, hits2: List)
    requires AllowedRun(EMPTY_INDEX, ops)
    requires var s := Run(EMPTY_INDEX, ops);
             && IterationOrder(s.forward, order)
             && IsHits(hits1, s.table, q, f)
             && IsHits(hits2, Rebuild(s.forward, order), q, f)
    ensures hits1 == hits2
  {
    EmptyInvariant();
    RunKeeps(EMPTY_INDEX, ops);
    var s := Run(EMPTY_INDEX, ops);
    RestartKeeps(s.forward, order);
    SameStoreSameHits(s, s.(table := Rebuild(s.forward, order)), q, f, hits1, hits2);
  }

  /** The tables themselves may differ: a deleted document leaves an empty list behind. */
  lemma LeftoverLists()
    ensures exists ops :: AllowedRun(EMPTY_INDEX, ops) &&
              Run(EMPTY_INDEX, ops).forward == map[] && Run(EMPTY_INDEX, ops).table != Rebuild(map[], [])
  {
    var kw := Keyword([], [65]);
    var doc := Document([65], 0, 0, [kw], []);
    assert TrimSpace([65]) == [65] by { assert TrimLeft([65]) == [65]; }
    var ops := [AddOp(doc, 1), DeleteOp([65])];
    var s1 := Add(EMPTY_INDEX, doc, 1);
    var d := doc.(intId := 1);
    assert s1.forward == map[[65] := d];
    assert Allowed(EMPTY_INDEX, ops[0]);
    assert ops[1..] == [DeleteOp([65])] && ops[1..][1..] == [];
    var s2 := Delete(s1, [65]);
    assert s2.forward == map[];
    assert [kw][..0] == [];
    assert AddPostings(map[], d, [kw]) == AddPosting(AddPostings(map[], d, []), d, kw);
    assert KeyOf(kw) in s1.table;
    assert DeletePostings(s1.table, 1, [kw]) == DeletePosting(DeletePostings(s1.table, 1, []), 1, kw);
    assert KeyOf(kw) in s2.table;
    assert AllowedRun(s2, []);
    assert Step(s1, ops[1]) == s2;
    assert AllowedRun(s1, ops[1..]) && Run(s1, ops[1..]) == s2;
    assert AllowedRun(EMPTY_INDEX, ops) && Run(EMPTY_INDEX, ops) == s2;
  }

  // ----- Runs whose IntIds come from the generator -----

  /** An add draws its IntId from the worker, unless its id is blank; a restart makes a new worker. */
  datatype ClockedOp = ClockedAdd(doc: Document, call: Call) | ClockedDelete(id: Str) | ClockedRestart(order: seq<Str>)

  predicate DrawsId(op: ClockedOp) {
    op.ClockedAdd? && TrimSpace(op.doc.id) != []
  }

  function WorkerAfter(w: SnowflakeRuns.State, op: ClockedOp): SnowflakeRuns.State {
    if DrawsId(op) then After(w, op.call)
    else if op.ClockedRestart? then Initial(w.workerId)
    else w
  }

  function FloorAfter(w: SnowflakeRuns.State, floor: uint64, op: ClockedOp): uint64 {
    if DrawsId(op) then TimeOf(w, op.call) else floor
  }

  /** The operation with the IntId that the worker hands out. */
  function Draw(w: SnowflakeRuns.State, op: ClockedOp): Op {
    match op
    case ClockedAdd(doc, call) => AddOp(doc, if DrawsId(op) then Snowflake.IdOf(w, call) else 0)
    case ClockedDelete(id) => DeleteOp(id)
    case ClockedRestart(order) => RestartOp(order)
  }

  function Drawn(w: SnowflakeRuns.State, ops: seq<ClockedOp>): (r: seq<Op>)
    ensures |r| == |ops|
    decreases |ops|
  {
    if ops == [] then [] else [Draw(w, ops[0])] + Drawn(WorkerAfter(w, ops[0]), ops[1..])
  }

  /** The worker's last call has waited for the millisecond that the clock shows since. */
  predicate Waited(w: SnowflakeRuns.State, floor: uint64) {
    w.timestamp != 0 && w.timestamp < floor
  }

  /** The clock never goes back, not even across a wait, and stays within range; it is strictly later
      after a restart than before it; and an odd worker does not draw again in the millisecond that
      ended a wait, in which it would repeat an ID. */
  ghost predicate PunctualOp(w: SnowflakeRuns.State, floor: uint64, op: ClockedOp) {
    DrawsId(op) ==>
      && InRange(op.call.now) && floor <= op.call.now && (w.timestamp == 0 ==> floor < op.call.now)
      && (Overflows(w, op.call) ==> op.call.later > w.timestamp && InRange(op.call.later))
      && (w.workerId % 2 == 1 && Waited(w, floor) ==> floor < op.call.now)
  }

  ghost predicate Punctual(w: SnowflakeRuns.State, floor: uint64, ops: seq<ClockedOp>)
    decreases |ops|
  {
    ops != [] ==>
      PunctualOp(w, floor, ops[0]) && Punctual(WorkerAfter(w, ops[0]), FloorAfter(w, floor, ops[0]), ops[1..])
  }

  ghost predicate OrdersAllowed(forward: Store, ops: seq<Op>)
    decreases |ops|
  {
    ops != [] ==>
      && (ops[0].RestartOp? ==> IterationOrder(forward, ops[0].order))
      && OrdersAllowed(LiveStep(forward, ops[0]), ops[1..])
  }

  /** What the worker can still hand out differs from every IntId in use. */
  ghost predicate AllIssued(forward: Store, w: SnowflakeRuns.State, floor: uint64) {
    && WorkerOk(w, floor)
    && forall id :: id in forward ==> Issued(forward[id].intId, w, floor)
  }

  predicate WorkerOk(w: SnowflakeRuns.State, floor: uint64) {
    && w.workerId <= WORKER_MAX && w.number <= NUMBER_MAX + 1 && EPOCH <= floor < EPOCH + TIME_RANGE
    && (w.timestamp == 0 || (InRange(w.timestamp) && w.timestamp <= floor))
    && (Waited(w, floor) <==> w.number == NUMBER_MAX + 1)
  }

  /** The first ID of a millisecond with the worker field that a wait leaves behind. */
  function WaitId(w: SnowflakeRuns.State, time: uint64): nat
    requires EPOCH <= time
  {
    ((time - EPOCH) * 1024 + (if w.workerId % 2 == 0 then w.workerId + 1 else w.workerId)) * 4096
  }

  /** IntIds that have been handed out, in earlier milliseconds or in this one. */
  predicate Issued(intId: nat, w: SnowflakeRuns.State, floor: uint64)
    requires EPOCH <= floor
  {
    if w.timestamp == 0 then intId < ((floor - EPOCH + 1) * 1024) * 4096
    else if w.timestamp < floor then intId < ((floor - EPOCH) * 1024) * 4096 || intId == WaitId(w, floor)
    else
      || intId <= ((floor - EPOCH) * 1024 + w.workerId) * 4096 + w.number
      || (w.workerId % 2 == 0 && intId == WaitId(w, floor))
  }

  /** The next IntId is positive, differs from all that have been handed out, and is now one of
      them. */
  lemma NextIsFresh(w: SnowflakeRuns.State, floor: uint64, doc: Document, call: Call, intId: nat)
    requires WorkerOk(w, floor) && TrimSpace(doc.id) != []
    requires PunctualOp(w, floor, ClockedAdd(doc, call))
    requires Issued(intId, w, floor)
    ensures var next, w', floor' := Snowflake.IdOf(w, call), After(w, call), TimeOf(w, call);
            && next > 0 && next != intId && WorkerOk(w', floor')
            && Issued(next, w', floor') && Issued(intId, w', floor')
  {
    hide Snowflake.IdOf, TrimSpace;
    assert DrawsId(ClockedAdd(doc, call));
    assert Timely(w, floor, [call]) by { TimelyFirst(w, floor, call, []); }
    Snowflake.PackIsNum(w, floor, call);
  }

  /** The exception is needed: an odd worker that draws in the millisecond that ended its wait gets the
      ID of the waiting call again. */
  lemma OddDrawRepeats(w: SnowflakeRuns.State, floor: uint64, call: Call)
    requires WorkerOk(w, floor) && w.workerId % 2 == 1 && Waited(w, floor) && InRange(floor) && call.now == floor
    ensures Snowflake.IdOf(w, call) == WaitId(w, floor)
  {
    hide Snowflake.IdOf;
    assert Timely(w, floor, [call]) by { TimelyFirst(w, floor, call, []); }
    Snowflake.PackIsNum(w, floor, call);
  }

  /** Such a worker's waiting call has got that ID. */
  lemma WaitingDraw(w: SnowflakeRuns.State, floor: uint64, call: Call)
    requires WorkerOk(w, floor) && Overflows(w, call) && InRange(call.now) && floor <= call.now
    requires call.later > w.timestamp && InRange(call.later)
    ensures Snowflake.IdOf(w, call) == WaitId(w, call.later) && Waited(After(w, call), call.later)
  {
    hide Snowflake.IdOf;
    assert Timely(w, floor, [call]) by { TimelyFirst(w, floor, call, []); }
    Snowflake.PackIsNum(w, floor, call);
  }

  lemma ClockedStep(s: IndexState.State, w: SnowflakeRuns.State, floor: uint64, op: ClockedOp)
    requires Invariant(s) && AllIssued(s.forward, w, floor) && PunctualOp(w, floor, op)
    requires op.ClockedRestart? ==> IterationOrder(s.forward, op.order)
    ensures Allowed(s, Draw(w, op))
    ensures AllIssued(LiveStep(s.forward, Draw(w, op)), WorkerAfter(w, op), FloorAfter(w, floor, op))
  {
    if DrawsId(op) {
      DrawStep(s, w, floor, op.doc, op.call);
    } else if op.ClockedRestart? {
      forall id | id in s.forward ensures Issued(s.forward[id].intId, Initial(w.workerId), floor) {
        RestartIssued(s.forward[id].intId, w, floor);
      }
    } else {
      KeepsIssued(s.forward, LiveStep(s.forward, Draw(w, op)), w, floor);
    }
  }

  lemma KeepsIssued(forward: Store, forward': Store, w: SnowflakeRuns.State, floor: uint64)
    requires AllIssued(forward, w, floor)
    requires forall id :: id in forward' ==> id in forward && forward'[id] == forward[id]
    ensures AllIssued(forward', w, floor)
  {
  }

  lemma RestartIssued(intId: nat, w: SnowflakeRuns.State, floor: uint64)
    requires WorkerOk(w, floor) && Issued(intId, w, floor)
    ensures WorkerOk(Initial(w.workerId), floor) && Issued(intId, Initial(w.workerId), floor)
  {
  }

  lemma DrawStep(s: IndexState.State, w: SnowflakeRuns.State, floor: uint64, doc: Document, call: Call)
    requires Invariant(s) && AllIssued(s.forward, w, floor) && TrimSpace(doc.id) != []
    requires PunctualOp(w, floor, ClockedAdd(doc, call))
    ensures Unused(s.forward, Snowflake.IdOf(w, call))
    ensures AllIssued(s.forward[TrimSpace(doc.id) := doc.(intId := Snowflake.IdOf(w, call))],
                      After(w, call), TimeOf(w, call))
  {
    hide Snowflake.IdOf, Issued, After, TimeOf, TrimSpace, PunctualOp;
    ZeroIssued(w, floor);
    NextIsFresh(w, floor, doc, call, 0);
    forall id | id in s.forward
      ensures s.forward[id].intId != Snowflake.IdOf(w, call)
      ensures Issued(s.forward[id].intId, After(w, call), TimeOf(w, call))
    {
      NextIsFresh(w, floor, doc, call, s.forward[id].intId);
    }
  }

  lemma ZeroIssued(w: SnowflakeRuns.State, floor: uint64)
    requires WorkerOk(w, floor)
    ensures EPOCH <= floor && Issued(0, w, floor)
  {
  }

  /** With a clock past the epoch that never goes back, and restarts that take at least a
      millisecond, IntIds are always fresh and positive, however many documents a millisecond sees,
      if the worker id is even or the millisecond that ends a wait is not used again: every run is
      one for which searches are exact. */
  lemma {:induction false} ClockedRunAllowed(s: IndexState.State, w: SnowflakeRuns.State, floor: uint64,
                                             ops: seq<ClockedOp>)
    requires Invariant(s) && AllIssued(s.forward, w, floor)
    requires Punctual(w, floor, ops)
    requires OrdersAllowed(s.forward, Drawn(w, ops))
    ensures AllowedRun(s, Drawn(w, ops))
    decreases |ops|
  {
    if ops != [] {
      var op := Draw(w, ops[0]);
      var rest := Drawn(WorkerAfter(w, ops[0]), ops[1..]);
      assert Drawn(w, ops)[0] == op && Drawn(w, ops)[1..] == rest;
      ClockedStep(s, w, floor, ops[0]);
      StepKeeps(s, op);
      StepForward(s, op);
      ClockedRunAllowed(Step(s, op), WorkerAfter(w, ops[0]), FloorAfter(w, floor, ops[0]), ops[1..]);
    }
  }
}
