/** The concurrent merge of Sentinel.Search and Sentinel.Count (service/distribute.go) as interleaved
    steps: one producer, one bounded channel and one consumer a group, a closer that waits for all
    producers, and what the consumers put together. A step is what one goroutine does between two
    points where another may run. */
module FanIn {
  import opened GoBase
  import opened Types
  import IndexState
  import ReverseIndex
  import Cluster

  /** One group: its producer's unsent results, its channel, and what its consumer has received
      but not yet appended. What a producer abandons on timeout is kept for the accounting. */
  datatype Group<T> = Group(producing: bool, pending: seq<T>, channel: seq<T>,
                            consuming: bool, held: Option<T>, abandoned: seq<T>)

  datatype Tagged<T> = Tagged(group: nat, item: T)

  /** Channels are closed in order; closed counts them. The results remember their group. */
  datatype State<T> = State(groups: seq<Group<T>>, closed: nat, merged: seq<Tagged<T>>)

  datatype Step =
    | Send(g: nat)
    | Timeout(g: nat)
    | Finish(g: nat)
    | Close
    | Receive(g: nat)
    | Append(g: nat)
    | Stop(g: nat)

  /** A group without endpoints has nothing to produce. */
  function Init<T>(results: seq<seq<T>>): State<T> {
    State(seq(|results|, g requires 0 <= g < |results| => Group(true, results[g], [], true, None, [])), 0, [])
  }

  predicate AllFinished<T>(s: State<T>) {
    forall g :: 0 <= g < |s.groups| ==> !s.groups[g].producing
  }

  predicate Enabled<T>(s: State<T>, step: Step, capacity: nat) {
    match step
    case Close => s.closed < |s.groups| && AllFinished(s)
    case Send(g) =>
      && g < |s.groups| && s.groups[g].producing && s.groups[g].pending != []
      && |s.groups[g].channel| < capacity
    case Timeout(g) => g < |s.groups| && s.groups[g].producing && s.groups[g].pending != []
    case Finish(g) => g < |s.groups| && s.groups[g].producing && s.groups[g].pending == []
    case Receive(g) => g < |s.groups| && s.groups[g].consuming && s.groups[g].held.None? && s.groups[g].channel != []
    case Append(g) => g < |s.groups| && s.groups[g].held.Some?
    case Stop(g) =>
      && g < |s.groups| && s.groups[g].consuming && s.groups[g].held.None?
      && s.groups[g].channel == [] && g < s.closed
  }

  function Do<T>(s: State<T>, step: Step, capacity: nat): State<T>
    requires Enabled(s, step, capacity)
  {
    match step
    case Close => s.(closed := s.closed + 1)
    case Append(g) =>
      var c := s.groups[g];
      s.(groups := s.groups[g := c.(held := None)], merged := s.merged + [Tagged(g, c.held.value)])
    case _ => s.(groups := s.groups[step.g := DoGroup(s.groups[step.g], step)])
  }

  function DoGroup<T>(c: Group<T>, step: Step): Group<T>
    requires (step.Send? || step.Timeout?) ==> c.pending != []
    requires step.Receive? ==> c.channel != []
  {
    match step
    case Send(_) => c.(pending := c.pending[1..], channel := c.channel + [c.pending[0]])
    case Timeout(_) => c.(producing := false, pending := [], abandoned := c.pending)
    case Finish(_) => c.(producing := false)
    case Receive(_) => c.(channel := c.channel[1..], held := Some(c.channel[0]))
    case Stop(_) => c.(consuming := false)
    case _ => c
  }

  /** All consumers have stopped: the search returns the list. */
  predicate Returned<T>(s: State<T>) {
    forall g :: 0 <= g < |s.groups| ==> !s.groups[g].consuming
  }

  // ----- The invariant -----

  /** The results of one group, in the order in which they were appended. */
  function Project<T>(items: seq<Tagged<T>>, g: nat): seq<T> {
    if items == [] then []
    else
      var last := items[|items| - 1];
      Project(items[..|items| - 1], g) + if last.group == g then [last.item] else []
  }

  function Held<T>(c: Group<T>): seq<T> {
    if c.held.Some? then [c.held.value] else []
  }

  /** Each document of a group's answer is in exactly one place, in order: appended, held, in the
      channel, unsent, or abandoned. */
  ghost predicate Accounted<T>(c: Group<T>, appended: seq<T>, result: seq<T>) {
    appended + Held(c) + c.channel + c.pending + c.abandoned == result
  }

  ghost predicate GroupOk<T>(s: State<T>, g: nat, capacity: nat, result: seq<T>)
    requires g < |s.groups|
  {
    var c := s.groups[g];
    && Accounted(c, Project(s.merged, g), result)
    && |c.channel| <= capacity
    && (c.producing ==> c.abandoned == [] && s.closed == 0)
    && (!c.producing ==> c.pending == [])
    && (!c.consuming ==> c.held.None? && c.channel == [] && g < s.closed)
  }

  ghost predicate InGroups<T>(items: seq<Tagged<T>>, n: nat) {
    forall i :: 0 <= i < |items| ==> items[i].group < n
  }

  ghost predicate Inv<T>(s: State<T>, capacity: nat, results: seq<seq<T>>) {
    && |s.groups| == |results| && s.closed <= |s.groups|
    && (forall g :: 0 <= g < |s.groups| ==> GroupOk(s, g, capacity, results[g]))
    && InGroups(s.merged, |s.groups|)
  }

  lemma InitInv<T>(capacity: nat, results: seq<seq<T>>)
    ensures Inv(Init(results), capacity, results)
  {
    forall g | 0 <= g < |results| ensures GroupOk(Init(results), g, capacity, results[g]) {
      assert [] + results[g] + [] == results[g];
    }
  }

  lemma AccountedAfterSend<T>(c: Group<T>, appended: seq<T>, result: seq<T>)
    requires Accounted(c, appended, result) && c.pending != []
    ensures Accounted(DoGroup(c, Send(0)), appended, result)
  {
    assert c.pending == [c.pending[0]] + c.pending[1..];
    var before := appended + Held(c);
    assert before + (c.channel + [c.pending[0]]) + c.pending[1..] == before + c.channel + c.pending;
  }

  lemma AccountedAfterReceive<T>(c: Group<T>, appended: seq<T>, result: seq<T>)
    requires Accounted(c, appended, result) && c.channel != [] && c.held.None?
    ensures Accounted(DoGroup(c, Receive(0)), appended, result)
  {
    assert c.channel == [c.channel[0]] + c.channel[1..];
    assert appended + Held(c) + c.channel == appended + [c.channel[0]] + c.channel[1..];
  }

  lemma AccountedAfter<T>(c: Group<T>, step: Step, appended: seq<T>, result: seq<T>)
    requires Accounted(c, appended, result)
    requires (step.Send? || step.Timeout?) ==> c.pending != [] && c.abandoned == []
    requires step.Receive? ==> c.channel != [] && c.held.None?
    ensures Accounted(DoGroup(c, step), appended, result)
  {
    match step
    case Send(_) => AccountedAfterSend(c, appended, result);
    case Receive(_) => AccountedAfterReceive(c, appended, result);
    case _ =>
  }

  lemma ProjectAppend<T>(items: seq<Tagged<T>>, d: Tagged<T>, g: nat)
    ensures Project(items + [d], g) == if d.group == g then Project(items, g) + [d.item] else Project(items, g)
  {
    assert (items + [d])[..|items|] == items;
  }

  /** Appending moves the held document to the end of its group's part of the list. */
  lemma AppendKeepsGroup<T>(s: State<T>, a: nat, g: nat, capacity: nat, result: seq<T>)
    requires a < |s.groups| && s.groups[a].held.Some? && g < |s.groups| && GroupOk(s, g, capacity, result)
    ensures GroupOk(Do(s, Append(a), capacity), g, capacity, result)
  {
    hide Project, Accounted;
    var c, d := s.groups[g], Tagged(a, s.groups[a].held.value);
    ProjectAppend(s.merged, d, g);
    if g == a {
      AccountedAfterAppend(c, Project(s.merged, g), result);
    }
  }

  lemma AccountedAfterAppend<T>(c: Group<T>, appended: seq<T>, result: seq<T>)
    requires c.held.Some? && Accounted(c, appended, result)
    ensures Accounted(c.(held := None), appended + [c.held.value], result)
  {
    assert appended + [c.held.value] + [] == appended + [c.held.value];
  }

  /** Any other step of a goroutine changes only its own group. */
  lemma OwnStepKeepsGroup<T>(s: State<T>, step: Step, g: nat, capacity: nat, result: seq<T>)
    requires !step.Append? && !step.Close? && Enabled(s, step, capacity)
    requires g < |s.groups| && GroupOk(s, g, capacity, result)
    ensures GroupOk(Do(s, step, capacity), g, capacity, result)
  {
    hide Project, Accounted;
    if g == step.g {
      AccountedAfter(s.groups[g], step, Project(s.merged, g), result);
    }
  }

  lemma CloseKeepsGroup<T>(s: State<T>, g: nat, capacity: nat, result: seq<T>)
    requires Enabled(s, Close, capacity) && g < |s.groups| && GroupOk(s, g, capacity, result)
    ensures GroupOk(Do(s, Close, capacity), g, capacity, result)
  {
    hide Project, Accounted;
  }

  /** Every step keeps the invariant. */
  lemma StepKeepsInv<T>(s: State<T>, step: Step, capacity: nat, results: seq<seq<T>>)
    requires Inv(s, capacity, results) && Enabled(s, step, capacity)
    ensures Inv(Do(s, step, capacity), capacity, results)
  {
    hide GroupOk;
    forall g | 0 <= g < |s.groups| ensures GroupOk(Do(s, step, capacity), g, capacity, results[g]) {
      if step.Append? {
        AppendKeepsGroup(s, step.g, g, capacity, results[g]);
      } else if step.Close? {
        CloseKeepsGroup(s, g, capacity, results[g]);
      } else {
        OwnStepKeepsGroup(s, step, g, capacity, results[g]);
      }
    }
  }

  // ----- Safety and progress -----

  /** No producer can still send once any channel is closed. */
  lemma NoSendAfterClose<T>(s: State<T>, g: nat, capacity: nat, results: seq<seq<T>>)
    requires Inv(s, capacity, results) && Enabled(s, Send(g), capacity)
    ensures s.closed == 0
  {
    assert GroupOk(s, g, capacity, results[g]);
  }

  /** Until the search returns, some goroutine can move without waiting for a timeout. */
  lemma Progress<T>(s: State<T>, capacity: nat, results: seq<seq<T>>) returns (step: Step)
    requires Inv(s, capacity, results) && !Returned(s) && capacity > 0
    ensures Enabled(s, step, capacity) && !step.Timeout?
  {
    var g: nat :| g < |s.groups| && s.groups[g].consuming;
    var c := s.groups[g];
    assert GroupOk(s, g, capacity, results[g]);
    if c.held.Some? {
      return Append(g);
    }
    if c.channel != [] {
      return Receive(g);
    }
    if g < s.closed {
      return Stop(g);
    }
    if AllFinished(s) {
      return Close;
    }
    var p: nat :| p < |s.groups| && s.groups[p].producing;
    var d := s.groups[p];
    assert GroupOk(s, p, capacity, results[p]);
    if d.pending == [] {
      return Finish(p);
    }
    if |d.channel| < capacity {
      return Send(p);
    }
    return if d.held.Some? then Append(p) else Receive(p);
  }

  /** The work left in one group. */
  function GroupWork<T>(c: Group<T>): nat {
    3 * |c.pending| + 2 * |c.channel| + (if c.held.Some? then 1 else 0)
    + (if c.producing then 1 else 0) + (if c.consuming then 1 else 0)
  }

  function GroupsWork<T>(groups: seq<Group<T>>): nat {
    if groups == [] then 0 else GroupsWork(groups[..|groups| - 1]) + GroupWork(groups[|groups| - 1])
  }

  function Work<T>(s: State<T>): nat
    requires s.closed <= |s.groups|
  {
    GroupsWork(s.groups) + (|s.groups| - s.closed)
  }

  lemma {:induction false} WorkUpdate<T>(groups: seq<Group<T>>, g: nat, c: Group<T>)
    requires g < |groups|
    ensures GroupsWork(groups[g := c]) + GroupWork(groups[g]) == GroupsWork(groups) + GroupWork(c)
  {
    var n := |groups| - 1;
    if g == n {
      assert groups[g := c][..n] == groups[..n];
    } else {
      WorkUpdate(groups[..n], g, c);
      assert groups[g := c][..n] == groups[..n][g := c];
    }
  }

  /** Every step uses up work, so every run is finite. */
  lemma StepUsesWork<T>(s: State<T>, step: Step, capacity: nat, results: seq<seq<T>>)
    requires Inv(s, capacity, results) && Enabled(s, step, capacity)
    ensures Do(s, step, capacity).closed <= |s.groups| == |Do(s, step, capacity).groups|
    ensures Work(Do(s, step, capacity)) < Work(s)
  {
    if !step.Close? {
      var g, s' := step.g, Do(s, step, capacity);
      assert GroupOk(s, g, capacity, results[g]);
      WorkUpdate(s.groups, g, s'.groups[g]);
    }
  }

  // ----- Whole runs -----

  ghost predicate IsRun<T>(s: State<T>, steps: seq<Step>, capacity: nat)
    decreases |steps|
  {
    steps != [] ==> Enabled(s, steps[0], capacity) && IsRun(Do(s, steps[0], capacity), steps[1..], capacity)
  }

  function After<T>(s: State<T>, steps: seq<Step>, capacity: nat): State<T>
    requires IsRun(s, steps, capacity)
    decreases |steps|
  {
    if steps == [] then s else After(Do(s, steps[0], capacity), steps[1..], capacity)
  }

  predicate NothingAbandoned<T>(s: State<T>) {
    forall g :: 0 <= g < |s.groups| ==> s.groups[g].abandoned == []
  }

  lemma {:induction false} RunFacts<T>(s: State<T>, steps: seq<Step>, capacity: nat, results: seq<seq<T>>)
    requires Inv(s, capacity, results) && IsRun(s, steps, capacity)
    ensures Inv(After(s, steps, capacity), capacity, results)
    ensures |steps| <= Work(s)
    ensures NothingAbandoned(s) && (forall i :: 0 <= i < |steps| ==> !steps[i].Timeout?) ==>
              NothingAbandoned(After(s, steps, capacity))
    decreases |steps|
  {
    if steps != [] {
      StepKeepsInv(s, steps[0], capacity, results);
      StepUsesWork(s, steps[0], capacity, results);
      RunFacts(Do(s, steps[0], capacity), steps[1..], capacity, results);
    }
  }

  function Items<T>(items: seq<Tagged<T>>): (r: seq<T>)
    ensures |r| == |items|
  {
    if items == [] then [] else Items(items[..|items| - 1]) + [items[|items| - 1].item]
  }

  function Projections<T>(items: seq<Tagged<T>>, n: nat): (r: seq<seq<T>>)
    ensures |r| == n
    ensures forall g :: 0 <= g < n ==> r[g] == Project(items, g)
  {
    seq(n, g requires 0 <= g < n => Project(items, g))
  }

  lemma ConcatLast<T>(ss: seq<seq<T>>)
    requires ss != []
    ensures multiset(Cluster.Concat(ss)) == multiset(Cluster.Concat(ss[..|ss| - 1])) + multiset(ss[|ss| - 1])
  {
  }

  lemma {:induction false} ConcatExtend<T>(ss: seq<seq<T>>, g: nat, x: T)
    requires g < |ss|
    ensures multiset(Cluster.Concat(ss[g := ss[g] + [x]])) == multiset(Cluster.Concat(ss)) + multiset{x}
  {
    hide Cluster.Concat;
    var n, ss' := |ss| - 1, ss[g := ss[g] + [x]];
    ConcatLast(ss);
    ConcatLast(ss');
    if g == n {
      assert ss'[..n] == ss[..n];
    } else {
      ConcatExtend(ss[..n], g, x);
      assert ss'[..n] == ss[..n][g := ss[g] + [x]];
    }
  }

  lemma ProjectionsAppend<T>(items: seq<Tagged<T>>, d: Tagged<T>, n: nat)
    requires d.group < n
    ensures var p := Projections(items, n);
            Projections(items + [d], n) == p[d.group := p[d.group] + [d.item]]
  {
    var p := Projections(items, n);
    forall g | 0 <= g < n
      ensures Projections(items + [d], n)[g] == p[d.group := p[d.group] + [d.item]][g]
    {
      ProjectAppend(items, d, g);
    }
  }

  lemma ItemsAppend<T>(items: seq<Tagged<T>>, d: Tagged<T>)
    ensures multiset(Items(items + [d])) == multiset(Items(items)) + multiset{d.item}
  {
    assert (items + [d])[..|items|] == items;
  }

  /** The result list is its groups' parts, merged. */
  lemma {:induction false} ItemsAreProjections<T>(items: seq<Tagged<T>>, n: nat)
    requires InGroups(items, n)
    ensures multiset(Items(items)) == multiset(Cluster.Concat(Projections(items, n)))
  {
    if items == [] {
      Cluster.ConcatNothing(Projections(items, n));
    } else {
      var before, last := items[..|items| - 1], items[|items| - 1];
      ItemsAreProjections(before, n);
      assert items == before + [last];
      ItemsAppend(before, last);
      ProjectionsAppend(before, last, n);
      ConcatExtend(Projections(before, n), last.group, last.item);
    }
  }

  /** What a finished group's accounting says. */
  lemma GroupComplete<T>(s: State<T>, g: nat, capacity: nat, result: seq<T>)
    requires g < |s.groups| && GroupOk(s, g, capacity, result)
    requires !s.groups[g].consuming && s.groups[g].abandoned == []
    requires !s.groups[g].producing
    ensures Project(s.merged, g) == result
  {
    var p := Project(s.merged, g);
    assert p + [] + [] + [] + [] == p;
  }

  /** A consumer stops only after its channel is closed, so its producer is done. */
  lemma StoppedIsFinished<T>(s: State<T>, g: nat, capacity: nat, result: seq<T>)
    requires g < |s.groups| && GroupOk(s, g, capacity, result) && !s.groups[g].consuming
    ensures !s.groups[g].producing
  {
  }

  /** However the goroutines interleave, a search that returns without a timeout has each group's
      answer in its own order, and in all exactly the answers of the groups. */
  lemma ResultIsMerge<T>(results: seq<seq<T>>, steps: seq<Step>, capacity: nat)
    requires IsRun(Init(results), steps, capacity)
    requires Returned(After(Init(results), steps, capacity))
    requires forall i :: 0 <= i < |steps| ==> !steps[i].Timeout?
    ensures var items := After(Init(results), steps, capacity).merged;
            && Projections(items, |results|) == results
            && multiset(Items(items)) == multiset(Cluster.Concat(results))
  {
    InitInv(capacity, results);
    RunFacts(Init(results), steps, capacity, results);
    FinalIsMerge(After(Init(results), steps, capacity), capacity, results);
  }

  lemma FinalIsMerge<T>(s: State<T>, capacity: nat, results: seq<seq<T>>)
    requires Inv(s, capacity, results) && Returned(s) && NothingAbandoned(s)
    ensures Projections(s.merged, |results|) == results
    ensures multiset(Items(s.merged)) == multiset(Cluster.Concat(results))
  {
    forall g | 0 <= g < |results| ensures Projections(s.merged, |results|)[g] == results[g] {
      assert GroupOk(s, g, capacity, results[g]);
      StoppedIsFinished(s, g, capacity, results[g]);
      GroupComplete(s, g, capacity, results[g]);
    }
    ItemsAreProjections(s.merged, |results|);
  }

  /** With timeouts, a returned search has a part of each group's answer, from its beginning and
      in order: nothing is invented, duplicated or reordered within a group. */
  lemma ResultIsPrefix<T>(results: seq<seq<T>>, steps: seq<Step>, capacity: nat)
    requires IsRun(Init(results), steps, capacity)
    ensures var items := After(Init(results), steps, capacity).merged;
            && (forall i :: 0 <= i < |items| ==> items[i].group < |results|)
            && (forall g :: 0 <= g < |results| ==> Project(items, g) <= results[g])
  {
    InitInv(capacity, results);
    RunFacts(Init(results), steps, capacity, results);
    var s := After(Init(results), steps, capacity);
    forall g | 0 <= g < |results| ensures Project(s.merged, g) <= results[g] {
      assert GroupOk(s, g, capacity, results[g]);
    }
  }

  /** A search can always be run to its end, without a timeout, in at most as many steps as there
      is work. */
  lemma {:induction false} RunsToCompletion<T>(s: State<T>, capacity: nat, results: seq<seq<T>>)
    returns (steps: seq<Step>)
    requires Inv(s, capacity, results) && capacity > 0
    ensures IsRun(s, steps, capacity) && Returned(After(s, steps, capacity))
    ensures forall i :: 0 <= i < |steps| ==> !steps[i].Timeout?
    decreases Work(s)
  {
    if Returned(s) {
      steps := [];
    } else {
      var step := Progress(s, capacity, results);
      StepKeepsInv(s, step, capacity, results);
      StepUsesWork(s, step, capacity, results);
      var rest := RunsToCompletion(Do(s, step, capacity), capacity, results);
      steps := [step] + rest;
      assert steps[1..] == rest;
    }
  }

  // ----- Exactly what can be returned -----

  lemma {:induction false} RunSnoc<T>(s: State<T>, steps: seq<Step>, step: Step, capacity: nat)
    requires IsRun(s, steps, capacity) && Enabled(After(s, steps, capacity), step, capacity)
    ensures IsRun(s, steps + [step], capacity)
    ensures After(s, steps + [step], capacity) == Do(After(s, steps, capacity), step, capacity)
    decreases |steps|
  {
    hide Enabled, Do;
    if steps == [] {
      assert [] + [step] == [step] && [step][1..] == [];
    } else {
      RunSnoc(Do(s, steps[0], capacity), steps[1..], step, capacity);
      assert (steps + [step])[1..] == steps[1..] + [step];
    }
  }

  lemma {:induction false} RunConcat<T>(s: State<T>, a: seq<Step>, b: seq<Step>, capacity: nat)
    requires IsRun(s, a, capacity) && IsRun(After(s, a, capacity), b, capacity)
    ensures IsRun(s, a + b, capacity) && After(s, a + b, capacity) == After(After(s, a, capacity), b, capacity)
    decreases |a|
  {
    hide Enabled, Do;
    if a == [] {
      assert a + b == b;
    } else {
      RunConcat(Do(s, a[0], capacity), a[1..], b, capacity);
      assert (a + b)[1..] == a[1..] + b;
    }
  }

  /** The items are a beginning of each group's results, in some interleaving. */
  ghost predicate Beginnings<T>(items: seq<Tagged<T>>, results: seq<seq<T>>) {
    InGroups(items, |results|) && forall g :: 0 <= g < |results| ==> Project(items, g) <= results[g]
  }

  /** Everything of the items has gone through, nothing else has begun to. */
  function Fed<T>(items: seq<Tagged<T>>, result: seq<T>, g: nat): Group<T>
    requires Project(items, g) <= result
  {
    Group(true, result[|Project(items, g)|..], [], true, None, [])
  }

  ghost predicate AllFed<T>(s: State<T>, items: seq<Tagged<T>>, results: seq<seq<T>>)
    requires Beginnings(items, results)
  {
    && |s.groups| == |results| && s.closed == 0 && s.merged == items
    && forall g :: 0 <= g < |results| ==> s.groups[g] == Fed(items, results[g], g)
  }

  /** What a group's items are without the last item of all. */
  ghost predicate OneBefore<T>(items: seq<Tagged<T>>, result: seq<T>, g: nat)
    requires items != []
  {
    var (last, before) := (items[|items| - 1], Project(items[..|items| - 1], g));
    && before <= result
    && Project(items, g) == (before + if g == last.group then [last.item] else [])
    && (g == last.group ==> |before| < |result| && result[|before|] == last.item)
  }

  lemma ProjectBefore<T>(items: seq<Tagged<T>>, result: seq<T>, g: nat)
    requires items != [] && Project(items, g) <= result
    ensures OneBefore(items, result, g)
  {
    var (last, before) := (items[|items| - 1], Project(items[..|items| - 1], g));
    var now := Project(items, g);
    assert forall i :: 0 <= i < |before| ==> before[i] == now[i] == result[i];
    assert g == last.group ==> now[|before|] == last.item;
  }

  lemma BeginningsBefore<T>(items: seq<Tagged<T>>, results: seq<seq<T>>)
    requires Beginnings(items, results) && items != []
    ensures var (n, last) := (|items| - 1, items[|items| - 1]);
            && Beginnings(items[..n], results)
            && last.group < |results|
            && |Project(items[..n], last.group)| < |results[last.group]|
            && results[last.group][|Project(items[..n], last.group)|] == last.item
            && forall g :: 0 <= g < |results| ==>
                 Project(items, g) == Project(items[..n], g) + if g == last.group then [last.item] else []
  {
    hide Project;
    forall g | 0 <= g < |results|
      ensures OneBefore(items, results[g], g)
    {
      ProjectBefore(items, results[g], g);
    }
    assert OneBefore(items, results[items[|items| - 1].group], items[|items| - 1].group);
  }

  /** Items are fed through one by one: sent, received, appended. */
  lemma {:induction false} Feed<T>(items: seq<Tagged<T>>, results: seq<seq<T>>, capacity: nat)
    returns (steps: seq<Step>)
    requires Beginnings(items, results) && capacity > 0
    ensures IsRun(Init(results), steps, capacity) && NoTimeout(steps)
    ensures AllFed(After(Init(results), steps, capacity), items, results)
    decreases |items|
  {
    hide Enabled, Do, Project, IsRun;
    if items == [] {
      steps := [];
      FeedNothing(items, results, capacity);
    } else {
      BeginningsBefore(items, results);
      var (n, last) := (|items| - 1, items[|items| - 1]);
      var before := Feed(items[..n], results, capacity);
      var s := After(Init(results), before, capacity);
      FeedOne(s, items, results, capacity);
      var g := last.group;
      RunSnoc(Init(results), before, Send(g), capacity);
      RunSnoc(Init(results), before + [Send(g)], Receive(g), capacity);
      RunSnoc(Init(results), before + [Send(g)] + [Receive(g)], Append(g), capacity);
      steps := before + [Send(g)] + [Receive(g)] + [Append(g)];
    }
  }

  lemma FeedNothing<T>(items: seq<Tagged<T>>, results: seq<seq<T>>, capacity: nat)
    requires items == []
    ensures Beginnings(items, results) && IsRun(Init(results), [], capacity)
    ensures AllFed(After(Init(results), [], capacity), items, results)
  {
    assert forall g :: 0 <= g < |results| ==> results[g][0..] == results[g];
  }

  lemma FeedOne<T>(s: State<T>, items: seq<Tagged<T>>, results: seq<seq<T>>, capacity: nat)
    requires Beginnings(items, results) && items != [] && capacity > 0
    requires Beginnings(items[..|items| - 1], results) && AllFed(s, items[..|items| - 1], results)
    ensures var g := items[|items| - 1].group;
            && Enabled(s, Send(g), capacity)
            && Enabled(Do(s, Send(g), capacity), Receive(g), capacity)
            && Enabled(Do(Do(s, Send(g), capacity), Receive(g), capacity), Append(g), capacity)
            && AllFed(Do(Do(Do(s, Send(g), capacity), Receive(g), capacity), Append(g), capacity), items, results)
  {
    hide Project;
    BeginningsBefore(items, results);
    var (n, last) := (|items| - 1, items[|items| - 1]);
    var (g, k) := (last.group, |Project(items[..n], last.group)|);
    var rest := results[g][k..];
    assert rest[0] == last.item && rest[1..] == results[g][k + 1..];
    assert [] + [rest[0]] == [rest[0]] && [rest[0]][1..] == [];
    assert items == items[..n] + [last];
  }

  ghost predicate NoTimeout(steps: seq<Step>) {
    forall i :: 0 <= i < |steps| ==> !steps[i].Timeout?
  }

  /** The first k producers have stopped: timed out if they had something left, finished otherwise. */
  ghost predicate Stopped<T>(s: State<T>, items: seq<Tagged<T>>, results: seq<seq<T>>, k: nat)
    requires Beginnings(items, results)
  {
    && |s.groups| == |results| && s.closed == 0 && s.merged == items
    && forall g :: 0 <= g < |results| ==>
         var c := Fed(items, results[g], g);
         s.groups[g] == if g < k then c.(producing := false, pending := [], abandoned := c.pending) else c
  }

  lemma {:induction false} StopAll<T>(s: State<T>, before: seq<Step>, items: seq<Tagged<T>>, results: seq<seq<T>>,
                                      k: nat, capacity: nat)
    returns (steps: seq<Step>)
    requires Beginnings(items, results) && k <= |results| && IsRun(s, before, capacity)
    requires Stopped(After(s, before, capacity), items, results, k)
    ensures IsRun(s, steps, capacity) && Stopped(After(s, steps, capacity), items, results, |results|)
    ensures NoTimeout(before) && (forall g :: 0 <= g < |results| ==> Project(items, g) == results[g]) ==>
              NoTimeout(steps)
    decreases |results| - k
  {
    hide Project, IsRun, After;
    steps := before;
    if k < |results| {
      var t := After(s, before, capacity);
      var step := if t.groups[k].pending == [] then Finish(k) else Timeout(k);
      RunSnoc(s, before, step, capacity);
      steps := StopAll(s, before + [step], items, results, k + 1, capacity);
    }
  }

  /** Nothing is on its way any more. */
  ghost predicate Drained<T>(s: State<T>) {
    forall g :: 0 <= g < |s.groups| ==>
      !s.groups[g].producing && s.groups[g].channel == [] && s.groups[g].held.None?
  }

  lemma {:induction false} DrainedStays<T>(s: State<T>, steps: seq<Step>, capacity: nat)
    requires Drained(s) && IsRun(s, steps, capacity)
    ensures After(s, steps, capacity).merged == s.merged
    decreases |steps|
  {
    if steps != [] { DrainedStays(Do(s, steps[0], capacity), steps[1..], capacity); }
  }

  /** Every interleaving of beginnings can come about, and without a timeout if they are whole. */
  lemma Reachable<T>(items: seq<Tagged<T>>, results: seq<seq<T>>, capacity: nat) returns (steps: seq<Step>)
    requires Beginnings(items, results) && capacity > 0
    ensures IsRun(Init(results), steps, capacity) && Returned(After(Init(results), steps, capacity))
    ensures After(Init(results), steps, capacity).merged == items
    ensures (forall g :: 0 <= g < |results| ==> Project(items, g) == results[g]) ==> NoTimeout(steps)
  {
    hide IsRun, After, Project, Inv;
    var s := Init(results);
    var fed := Feed(items, results, capacity);
    var stopped := StopAll(s, fed, items, results, 0, capacity);
    InitInv(capacity, results);
    RunFacts(s, stopped, capacity, results);
    var last := RunsToCompletion(After(s, stopped, capacity), capacity, results);
    RunConcat(s, stopped, last, capacity);
    DrainedStays(After(s, stopped, capacity), last, capacity);
    steps := stopped + last;
  }

  ghost predicate CanReturn<T>(items: seq<Tagged<T>>, results: seq<seq<T>>, capacity: nat, timeouts: bool) {
    exists steps ::
      && IsRun(Init(results), steps, capacity) && Returned(After(Init(results), steps, capacity))
      && After(Init(results), steps, capacity).merged == items && (timeouts || NoTimeout(steps))
  }

  /** A search can return exactly the interleavings of beginnings of the groups' answers, and without a
      timeout exactly the interleavings of the whole answers. */
  lemma ReturnedIff<T>(items: seq<Tagged<T>>, results: seq<seq<T>>, capacity: nat)
    requires capacity > 0
    ensures CanReturn(items, results, capacity, true) <==> Beginnings(items, results)
    ensures CanReturn(items, results, capacity, false) <==>
              InGroups(items, |results|) && Projections(items, |results|) == results
  {
    hide IsRun, After, Returned, Project;
    if Beginnings(items, results) {
      var steps := Reachable(items, results, capacity);
    }
    forall steps: seq<Step> | IsRun(Init(results), steps, capacity)
      ensures Beginnings(After(Init(results), steps, capacity).merged, results)
    {
      ResultIsPrefix(results, steps, capacity);
    }
    if InGroups(items, |results|) && Projections(items, |results|) == results {
      assert Beginnings(items, results);
      var steps := Reachable(items, results, capacity);
    }
    if CanReturn(items, results, capacity, false) {
      var steps :| IsRun(Init(results), steps, capacity) && Returned(After(Init(results), steps, capacity)) &&
                   After(Init(results), steps, capacity).merged == items && NoTimeout(steps);
      ResultIsMerge(results, steps, capacity);
    }
  }

  // ----- The whole search -----

  /** Sentinel.Search returns what one index given every request would return, whichever replica
      answers for each group and however the goroutines interleave, if it is not timed out. */
  lemma ClusterSearch(hash: Str -> nat, n: nat, requests: seq<Cluster.Request>, single: IndexState.State,
                      answer: seq<Document>, groups: seq<IndexState.State>, answers: seq<seq<Document>>,
                      q: TermQuery, f: ReverseIndex.Flags, steps: seq<Step>, capacity: nat)
    requires n > 0 && Cluster.WellRouted(hash, n, requests)
    requires Cluster.Served(single, requests) && IndexState.IsAnswer(answer, single.forward, q, f)
    requires |groups| == n && forall g :: 0 <= g < n ==> Cluster.Served(groups[g], Cluster.Routed(hash, n, requests, g))
    requires Cluster.GroupAnswers(answers, groups, q, f)
    requires IsRun(Init(answers), steps, capacity)
    requires Returned(After(Init(answers), steps, capacity))
    requires forall i :: 0 <= i < |steps| ==> !steps[i].Timeout?
    ensures var found := Items(After(Init(answers), steps, capacity).merged);
            multiset(Cluster.Strips(found)) == multiset(Cluster.Strips(answer))
  {
    ResultIsMerge(answers, steps, capacity);
    Cluster.ClusterRefinesIndex(hash, n, requests, single, answer, groups, answers,
                                Items(After(Init(answers), steps, capacity).merged), q, f);
  }

  // ----- Counting -----

  /** Conversion to uint32. */
  function Wrap(x: nat): (r: nat)
    ensures r < TWO_32
  {
    x % TWO_32
  }

  /** Sentinel.Count adds each count it receives to a number of 32 bits. */
  function Total32(counts: seq<nat>): nat {
    if counts == [] then 0 else Wrap(Total32(counts[..|counts| - 1]) + counts[|counts| - 1])
  }

  /** Each group has one thing to send, its count. */
  function Replies(counts: seq<nat>): (r: seq<seq<nat>>)
    ensures |r| == |counts| && forall g :: 0 <= g < |counts| ==> r[g] == [counts[g]]
  {
    seq(|counts|, g requires 0 <= g < |counts| => [counts[g]])
  }

  lemma {:induction false} RepliesConcat(counts: seq<nat>)
    ensures Cluster.Concat(Replies(counts)) == counts
  {
    var n := |counts| - 1;
    if counts != [] {
      RepliesConcat(counts[..n]);
      assert Replies(counts)[..n] == Replies(counts[..n]);
      assert counts == counts[..n] + [counts[n]];
    }
  }

  lemma WrapAdd(a: nat, b: nat)
    ensures Wrap(Wrap(a) + b) == Wrap(a + b) && Wrap(a + Wrap(b)) == Wrap(a + b)
  {
    assert Wrap(a) + b == a + b - a / TWO_32 * TWO_32;
    assert a + Wrap(b) == a + b - b / TWO_32 * TWO_32;
  }

  /** Wrapping the total at every addition changes only multiples of 2^32. */
  lemma {:induction false} Total32IsSum(counts: seq<nat>)
    ensures Total32(counts) == Wrap(Cluster.Sum(counts))
  {
    hide Wrap;
    if counts == [] {
      WrapZero();
    } else {
      var n := |counts| - 1;
      Total32IsSum(counts[..n]);
      WrapAdd(Cluster.Sum(counts[..n]), counts[n]);
    }
  }

  lemma WrapZero()
    ensures Wrap(0) == 0
  {
  }

  /** So does wrapping the single counts. */
  lemma {:induction false} SumOfWrapped(counts: seq<nat>, wrapped: seq<nat>)
    requires |wrapped| == |counts| && forall g :: 0 <= g < |counts| ==> wrapped[g] == Wrap(counts[g])
    ensures Wrap(Cluster.Sum(wrapped)) == Wrap(Cluster.Sum(counts))
  {
    hide Wrap;
    if counts != [] {
      var n := |counts| - 1;
      var (a, b) := (Cluster.Sum(wrapped[..n]), Cluster.Sum(counts[..n]));
      SumOfWrapped(counts[..n], wrapped[..n]);
      WrapAdd(a, Wrap(counts[n]));
      WrapAdd(b, counts[n]);
      WrapAdd(Wrap(b), counts[n]);
    }
  }

  lemma {:induction false} SumRemove(s: seq<nat>, j: nat)
    requires j < |s|
    ensures Cluster.Sum(s) == Cluster.Sum(Cluster.Without(s, j)) + s[j]
  {
    var n := |s| - 1;
    if j == n {
      assert s[..j] + s[j + 1..] == s[..n];
    } else {
      SumRemove(s[..n], j);
      var less := Cluster.Without(s, j);
      assert less[..n - 1] == Cluster.Without(s[..n], j) && less[n - 1] == s[n];
    }
  }

  /** The order of adding does not matter. */
  lemma {:induction false} SumPermutation(s: seq<nat>, t: seq<nat>)
    requires multiset(s) == multiset(t)
    ensures Cluster.Sum(s) == Cluster.Sum(t)
    decreases |s|
  {
    if s == [] {
      assert t == [] by { assert |multiset(t)| == 0; }
    } else {
      assert s[0] in multiset(t);
      var j :| 0 <= j < |t| && t[j] == s[0];
      var s', t' := Cluster.Without(s, 0), Cluster.Without(t, j);
      Cluster.Cancel(multiset(s'), multiset(t'), s[0]);
      SumPermutation(s', t');
      SumRemove(s, 0);
      SumRemove(t, j);
    }
  }

  /** Sentinel.Count returns, up to multiples of 2^32, what one index given every request would
      count, however the goroutines interleave, if it is not timed out. */
  lemma ClusterCount(hash: Str -> nat, n: nat, requests: seq<Cluster.Request>, single: IndexState.State,
                     groups: seq<IndexState.State>, counts: seq<nat>, steps: seq<Step>, capacity: nat)
    requires n > 0 && Cluster.WellRouted(hash, n, requests) && Cluster.Served(single, requests)
    requires |groups| == n && forall g :: 0 <= g < n ==> Cluster.Served(groups[g], Cluster.Routed(hash, n, requests, g))
    requires |counts| == n && forall g :: 0 <= g < n ==> counts[g] == Wrap(|groups[g].forward|)
    requires IsRun(Init(Replies(counts)), steps, capacity)
    requires Returned(After(Init(Replies(counts)), steps, capacity))
    requires forall i :: 0 <= i < |steps| ==> !steps[i].Timeout?
    ensures Total32(Items(After(Init(Replies(counts)), steps, capacity).merged)) == Wrap(|single.forward|)
  {
    hide Cluster.Served, Cluster.WellRouted, Cluster.Routed, Cluster.Sum, IsRun, After, Returned, Init, Wrap, Total32;
    var exact: seq<nat> := seq(n, g requires 0 <= g < n => |groups[g].forward|);
    var received := Items(After(Init(Replies(counts)), steps, capacity).merged);
    ResultIsMerge(Replies(counts), steps, capacity);
    RepliesConcat(counts);
    SumPermutation(received, counts);
    Total32IsSum(received);
    SumOfWrapped(exact, counts);
    Cluster.CountsAddUp(hash, n, requests, single, groups, exact);
  }
}
