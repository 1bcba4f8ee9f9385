/** The lock-guarded group counter (etcd/etcd_distributed_lock.go, service/service_hub.go) as
    interleaved client steps against an etcd with one lock key, leases and one counter key. Every
    step is one etcd call. Calls may fail, replies may be lost and clients may crash anywhere. */
module GroupLock {
  import opened GoBase

  datatype Job = AddGroup | SubGroup | CountGroups

  /** How far a client's call has got. Every call draws its own lease. */
  datatype Client =
    | Idle
    | Waiting(job: Job, lease: nat, tries: nat)
    | Holding(job: Job, lease: nat)
    | Knows(job: Job, lease: nat, count: Option<int>)
    | Leaving(lease: nat)
    | Revoking(lease: nat)
  {
    /** Between acquiring the lock and deleting its key. */
    predicate InSection() { Holding? || Knows? || Leaving? }
  }

  /** What a call did to the counter and returned, in the order in which it took effect. */
  datatype Event = Added(result: int) | Subtracted | NothingToSubtract | Counted(result: int)

  /** The lock key holds the lease it was put with. An absent counter key stands for 0. */
  datatype State = State(lockKey: Option<nat>, live: set<nat>, nextLease: nat, counter: Option<int>,
                         clients: seq<Client>, log: seq<Event>)

  datatype Step =
    | Grant(c: nat, job: Job)
    | Lock(c: nat)
    | LoseReply(c: nat)
    | Retry(c: nat)
    | GiveUp(c: nat)
    | Get(c: nat)
    | Write(c: nat)
    | Fail(c: nat)
    | DeleteKey(c: nat)
    | Revoke(c: nat)
    | Crash(c: nat)
    | Expire(lease: nat)

  const MAX_RETRIES: nat := 10

  function Init(n: nat): State {
    State(None, {}, 0, None, seq(n, _ => Idle), [])
  }

  predicate Enabled(s: State, step: Step) {
    if step.Expire? then step.lease in s.live
    else
      step.c < |s.clients| &&
      var me := s.clients[step.c];
      match step
      case Grant(_, _) => me.Idle?
      case Lock(_) => me.Waiting? && me.tries > 0 && s.lockKey == None && me.lease in s.live
      case LoseReply(_) => me.Waiting? && me.tries > 0 && s.lockKey == None && me.lease in s.live
      case Retry(_) => me.Waiting? && me.tries > 0
      case GiveUp(_) => me.Waiting? && me.tries == 0
      case Get(_) => me.Holding?
      case Write(_) => me.Knows?
      case Fail(_) => me.Holding? || me.Knows?
      case DeleteKey(_) => me.Leaving?
      case Revoke(_) => me.Revoking?
      case Crash(_) => !me.Idle?
      case Expire(_) => true
  }

  /** A lease that ends takes the key attached to it along. */
  function EndLease(s: State, lease: nat): State {
    s.(live := s.live - {lease}, lockKey := if s.lockKey == Some(lease) then None else s.lockKey)
  }

  function Become(s: State, c: nat, me: Client): State
    requires c < |s.clients|
  {
    s.(clients := s.clients[c := me])
  }

  /** The counter key after a call's write, and what the call made of the value it read. */
  function Outcome(job: Job, count: Option<int>): (Option<int>, Event) {
    match job
    case AddGroup => (Some(Value(count) + 1), Added(Value(count) + 1))
    case SubGroup =>
      if count == None then (None, NothingToSubtract)
      else if count.value - 1 <= 0 then (None, Subtracted)
      else (Some(count.value - 1), Subtracted)
    case CountGroups => (count, Counted(Value(count)))
  }

  function Value(count: Option<int>): int {
    if count == None then 0 else count.value
  }

  /** Outcome computes the key to write from what the client read, not from what is there now; a
      count writes nothing. */
  function Do(s: State, step: Step): State
    requires Enabled(s, step)
  {
    match step
    case Grant(c, job) =>
      Become(s, c, Waiting(job, s.nextLease, MAX_RETRIES)).(live := s.live + {s.nextLease},
                                                            nextLease := s.nextLease + 1)
    case Lock(c) => Become(s, c, Holding(s.clients[c].job, s.clients[c].lease)).(lockKey := Some(s.clients[c].lease))
    case LoseReply(c) =>
      Become(s, c, s.clients[c].(tries := s.clients[c].tries - 1)).(lockKey := Some(s.clients[c].lease))
    case Retry(c) => Become(s, c, s.clients[c].(tries := s.clients[c].tries - 1))
    case GiveUp(c) => Become(EndLease(s, s.clients[c].lease), c, Idle)
    case Get(c) => Become(s, c, Knows(s.clients[c].job, s.clients[c].lease, s.counter))
    case Write(c) =>
      var (key, event) := Outcome(s.clients[c].job, s.clients[c].count);
      var counter := if event.Counted? then s.counter else key;
      Become(s, c, Leaving(s.clients[c].lease)).(counter := counter, log := s.log + [event])
    case Fail(c) => Become(s, c, Leaving(s.clients[c].lease))
    case DeleteKey(c) => Become(s, c, Revoking(s.clients[c].lease)).(lockKey := None)
    case Revoke(c) => Become(EndLease(s, s.clients[c].lease), c, Idle)
    case Crash(c) => Become(s, c, Idle)
    case Expire(lease) => EndLease(s, lease)
  }

  /** The hypothesis the lock needs: a lease does not expire under a client that relies on it. */
  predicate Timely(s: State, step: Step) {
    step.Expire? ==> forall c :: 0 <= c < |s.clients| && s.clients[c].InSection() ==> s.clients[c].lease != step.lease
  }

  // ----- What the log should be -----

  /** A counter that serves one call at a time. */
  function Counter(log: seq<Event>): int {
    if log == [] then 0
    else
      Counter(log[..|log| - 1]) +
      match log[|log| - 1]
      case Added(_) => 1
      case Subtracted => -1
      case _ => 0
  }

  predicate Right(before: int, e: Event) {
    match e
    case Added(result) => result == before + 1
    case Subtracted => before > 0
    case NothingToSubtract => before == 0
    case Counted(result) => result == before
  }

  /** Every call returned what it would have returned had the calls run one after the other. */
  ghost predicate Sequential(log: seq<Event>) {
    forall i :: 0 <= i < |log| ==> Right(Counter(log[..i]), log[i])
  }

  function Count(log: seq<Event>, adds: bool): nat {
    if log == [] then 0
    else
      var e := log[|log| - 1];
      Count(log[..|log| - 1], adds) + if (if adds then e.Added? else e.Subtracted?) then 1 else 0
  }

  lemma {:induction false} CounterIsDifference(log: seq<Event>)
    ensures Counter(log) == Count(log, true) - Count(log, false)
  {
    if log != [] { CounterIsDifference(log[..|log| - 1]); }
  }

  lemma SequentialSnoc(log: seq<Event>, e: Event)
    requires Sequential(log) && Right(Counter(log), e)
    ensures Sequential(log + [e])
    ensures Counter(log + [e]) == Counter(log) + if e.Added? then 1 else if e.Subtracted? then -1 else 0
  {
    var log' := log + [e];
    assert log'[..|log|] == log;
    forall i | 0 <= i < |log'| ensures Right(Counter(log'[..i]), log'[i]) {
      assert i < |log| ==> log'[..i] == log[..i];
    }
  }

  // ----- The invariant -----

  ghost predicate LeasesDistinct(s: State) {
    && (forall c :: 0 <= c < |s.clients| && !s.clients[c].Idle? ==> s.clients[c].lease < s.nextLease)
    && (forall c, d :: 0 <= c < d < |s.clients| && !s.clients[c].Idle? && !s.clients[d].Idle? ==>
          s.clients[c].lease != s.clients[d].lease)
    && (forall l :: l in s.live ==> l < s.nextLease)
  }

  ghost predicate HoldersOwnKey(s: State) {
    && (s.lockKey.Some? ==> s.lockKey.value in s.live)
    && (forall c :: 0 <= c < |s.clients| && s.clients[c].InSection() ==> s.lockKey == Some(s.clients[c].lease))
  }

  /** Nobody writes the counter between a client's read and its write. */
  ghost predicate ReadsFresh(s: State) {
    forall c :: 0 <= c < |s.clients| && s.clients[c].Knows? ==> s.clients[c].count == s.counter
  }

  ghost predicate LogOk(counter: Option<int>, log: seq<Event>) {
    && (counter.Some? ==> counter.value > 0)
    && Sequential(log) && Counter(log) == Value(counter)
  }

  ghost predicate Inv(s: State) {
    LeasesDistinct(s) && HoldersOwnKey(s) && ReadsFresh(s) && LogOk(s.counter, s.log)
  }

  lemma LeasesStayDistinct(s: State, step: Step)
    requires Inv(s) && Enabled(s, step)
    ensures LeasesDistinct(Do(s, step))
  {
    var s' := Do(s, step);
    forall c, d | 0 <= c < d < |s'.clients| && !s'.clients[c].Idle? && !s'.clients[d].Idle?
      ensures s'.clients[c].lease != s'.clients[d].lease
    {
      assert s.clients[c].Idle? || s'.clients[c].lease == s.clients[c].lease;
      assert s.clients[d].Idle? || s'.clients[d].lease == s.clients[d].lease;
    }
  }

  lemma HoldersKeepKey(s: State, step: Step)
    requires Inv(s) && Enabled(s, step) && Timely(s, step)
    ensures HoldersOwnKey(Do(s, step))
  {
  }

  lemma ReadsStayFresh(s: State, step: Step)
    requires HoldersOwnKey(s) && LeasesDistinct(s) && ReadsFresh(s) && Enabled(s, step)
    ensures ReadsFresh(Do(s, step))
  {
  }

  lemma LogStaysOk(job: Job, counter: Option<int>, log: seq<Event>)
    requires LogOk(counter, log)
    ensures var (key, event) := Outcome(job, counter); LogOk(key, log + [event])
  {
    SequentialSnoc(log, Outcome(job, counter).1);
  }

  lemma StepKeepsInv(s: State, step: Step)
    requires Inv(s) && Enabled(s, step) && Timely(s, step)
    ensures Inv(Do(s, step))
  {
    LeasesStayDistinct(s, step);
    HoldersKeepKey(s, step);
    ReadsStayFresh(s, step);
    if step.Write? { LogStaysOk(s.clients[step.c].job, s.counter, s.log); }
  }

  // ----- Runs -----

  ghost predicate IsRun(s: State, steps: seq<Step>)
    decreases |steps|
  {
    steps != [] ==> Enabled(s, steps[0]) && Timely(s, steps[0]) && IsRun(Do(s, steps[0]), steps[1..])
  }

  function After(s: State, steps: seq<Step>): State
    requires IsRun(s, steps)
    decreases |steps|
  {
    if steps == [] then s else After(Do(s, steps[0]), steps[1..])
  }

  lemma {:induction false} RunKeepsInv(s: State, steps: seq<Step>)
    requires Inv(s) && IsRun(s, steps)
    ensures Inv(After(s, steps))
    decreases |steps|
  {
    if steps != [] {
      StepKeepsInv(s, steps[0]);
      RunKeepsInv(Do(s, steps[0]), steps[1..]);
    }
  }

  lemma {:induction false} RunSnoc(s: State, steps: seq<Step>, step: Step)
    requires IsRun(s, steps) && Enabled(After(s, steps), step) && Timely(After(s, steps), step)
    ensures IsRun(s, steps + [step]) && After(s, steps + [step]) == Do(After(s, steps), step)
    decreases |steps|
  {
    if steps == [] {
      assert [step][1..] == [];
    } else {
      RunSnoc(Do(s, steps[0]), steps[1..], step);
      assert (steps + [step])[1..] == steps[1..] + [step];
    }
  }

  lemma NoSteps(s: State)
    ensures IsRun(s, []) && After(s, []) == s
  {
  }

  ghost predicate AtMostOneInSection(s: State) {
    forall c, d :: 0 <= c < d < |s.clients| && s.clients[c].InSection() ==> !s.clients[d].InSection()
  }

  /** In every run at most one client is in the section, every call has returned what it would have
      returned alone, and the counter is the completed additions minus the completed
      subtractions. */
  lemma LockedCounter(n: nat, steps: seq<Step>)
    requires IsRun(Init(n), steps)
    ensures var s := After(Init(n), steps);
            && AtMostOneInSection(s)
            && Sequential(s.log)
            && Value(s.counter) == Count(s.log, true) - Count(s.log, false) >= 0
            && (s.counter == None <==> Count(s.log, true) == Count(s.log, false))
  {
    RunKeepsInv(Init(n), steps);
    CounterIsDifference(After(Init(n), steps).log);
  }

  /** Whoever deletes the lock key unconditionally deletes its own key; and whatever another
      client does (give up and revoke, finish an earlier release, crash, let its lease run out),
      the holder's key stays. */
  lemma HolderUndisturbed(s: State, step: Step, c: nat)
    requires Inv(s) && Enabled(s, step) && Timely(s, step)
    requires c < |s.clients| && s.clients[c].InSection()
    ensures step.DeleteKey? ==> step.c == c
    ensures !(step.Crash? || step.DeleteKey?) || step.c != c ==>
              && Do(s, step).lockKey == s.lockKey == Some(s.clients[c].lease)
              && Do(s, step).clients[c].InSection() && Do(s, step).clients[c].lease == s.clients[c].lease
  {
  }

  /** The lock is never stuck: its key is always attached to a live lease, and when no client is in
      the section that lease may expire, which frees the lock. */
  lemma LockRecoverable(s: State)
    requires Inv(s) && s.lockKey.Some? && forall c :: 0 <= c < |s.clients| ==> !s.clients[c].InSection()
    ensures var step := Expire(s.lockKey.value);
            Enabled(s, step) && Timely(s, step) && Do(s, step).lockKey == None
  {
  }

  /** A call that finds the lock free can run to its end, and leaves it free again. */
  lemma CallCompletes(s: State, c: nat, job: Job) returns (steps: seq<Step>)
    requires Inv(s) && c < |s.clients| && s.clients[c] == Idle && s.lockKey == None
    ensures IsRun(s, steps)
    ensures var s' := After(s, steps);
            && s'.clients == s.clients && s'.lockKey == None && s'.live == s.live
            && s'.log == s.log + [Outcome(job, s.counter).1] && s'.counter == Outcome(job, s.counter).0
  {
    hide IsRun, After;
    NoSteps(s);
    steps := Extend(s, [], Grant(c, job));
    steps := Extend(s, steps, Lock(c));
    assert After(s, steps).clients == s.clients[c := Holding(job, s.nextLease)];
    steps := SectionCompletes(s, steps, c);
    assert After(s, steps).clients == s.clients;
    assert After(s, steps).live == s.live;
  }

  lemma SectionCompletes(s: State, before: seq<Step>, c: nat) returns (steps: seq<Step>)
    requires IsRun(s, before) && c < |After(s, before).clients| && After(s, before).clients[c].Holding?
    ensures IsRun(s, steps)
    ensures var (t, s') := (After(s, before), After(s, steps));
            var me := t.clients[c];
            && s'.clients == t.clients[c := Idle] && s'.lockKey == None && s'.live == t.live - {me.lease}
            && s'.log == t.log + [Outcome(me.job, t.counter).1] && s'.counter == Outcome(me.job, t.counter).0
  {
    hide IsRun, After;
    steps := Extend(s, before, Get(c));
    steps := Extend(s, steps, Write(c));
    steps := Extend(s, steps, DeleteKey(c));
    steps := Extend(s, steps, Revoke(c));
    assert After(s, steps).clients == After(s, before).clients[c := Idle];
  }

  lemma Extend(s: State, steps: seq<Step>, step: Step) returns (longer: seq<Step>)
    requires IsRun(s, steps) && Enabled(After(s, steps), step) && !step.Expire?
    ensures IsRun(s, longer) && After(s, longer) == Do(After(s, steps), step) && |longer| == |steps| + 1
  {
    RunSnoc(s, steps, step);
    longer := steps + [step];
  }

  // ----- What calls leave behind -----

  /** Every lease that lives is that of a call still under way. */
  ghost predicate LeasesOwned(s: State) {
    forall l :: l in s.live ==> exists c :: 0 <= c < |s.clients| && !s.clients[c].Idle? && s.clients[c].lease == l
  }

  lemma StepKeepsOwned(s: State, step: Step)
    requires Inv(s) && LeasesOwned(s) && Enabled(s, step) && !step.Crash?
    ensures LeasesOwned(Do(s, step))
  {
    hide HoldersOwnKey, ReadsFresh, LogOk;
    var s' := Do(s, step);
    forall l | l in s'.live
      ensures exists c :: 0 <= c < |s'.clients| && !s'.clients[c].Idle? && s'.clients[c].lease == l
    {
      if l in s.live {
        var c :| 0 <= c < |s.clients| && !s.clients[c].Idle? && s.clients[c].lease == l;
        assert !s'.clients[c].Idle? && s'.clients[c].lease == l;
      } else {
        assert step.Grant? && s'.clients[step.c].lease == l;
      }
    }
  }

  ghost predicate NoCrash(steps: seq<Step>) {
    forall i :: 0 <= i < |steps| ==> !steps[i].Crash?
  }

  lemma {:induction false} RunKeepsOwned(s: State, steps: seq<Step>)
    requires Inv(s) && LeasesOwned(s) && IsRun(s, steps) && NoCrash(steps)
    ensures LeasesOwned(After(s, steps))
    decreases |steps|
  {
    hide Inv, LeasesOwned, Timely;
    if steps != [] {
      StepKeepsOwned(s, steps[0]);
      StepKeepsInv(s, steps[0]);
      RunKeepsOwned(Do(s, steps[0]), steps[1..]);
    }
  }

  lemma InitInv(n: nat)
    ensures Inv(Init(n)) && LeasesOwned(Init(n))
  {
  }

  /** In a run without crashes calls leave nothing behind, whether they succeed, fail or give up: a lock
      key belongs to a call still under way, and when none is, the lock is free and no lease lives. */
  lemma NothingLeftBehind(n: nat, steps: seq<Step>)
    requires IsRun(Init(n), steps) && NoCrash(steps)
    ensures var s := After(Init(n), steps);
            && (s.lockKey.Some? ==>
                  exists c :: 0 <= c < |s.clients| && !s.clients[c].Idle? && s.clients[c].lease == s.lockKey.value)
            && ((forall c :: 0 <= c < |s.clients| ==> s.clients[c].Idle?) ==> s.lockKey == None && s.live == {})
  {
    hide IsRun, After, LeasesDistinct, ReadsFresh, LogOk;
    InitInv(n);
    RunKeepsInv(Init(n), steps);
    RunKeepsOwned(Init(n), steps);
    var s := After(Init(n), steps);
    if s.live != {} {
      var l :| l in s.live;
    }
  }

  /** A key whose lease no client has. */
  ghost predicate Orphaned(s: State, lease: nat) {
    && s.lockKey == Some(lease)
    && forall c :: 0 <= c < |s.clients| && !s.clients[c].Idle? ==> s.clients[c].lease != lease
  }

  /** A crash in the section leaves such a key. */
  lemma CrashOrphans(s: State, c: nat)
    requires Inv(s) && c < |s.clients| && s.clients[c].InSection()
    ensures Enabled(s, Crash(c)) && Orphaned(Do(s, Crash(c)), s.clients[c].lease)
  {
  }

  /** An orphaned key shuts everybody out until its lease runs out. */
  lemma {:induction false} OrphanBlocks(s: State, lease: nat, steps: seq<Step>)
    requires Inv(s) && Orphaned(s, lease) && IsRun(s, steps)
    requires forall i :: 0 <= i < |steps| ==> steps[i] != Expire(lease)
    ensures Orphaned(After(s, steps), lease)
    ensures forall c :: 0 <= c < |After(s, steps).clients| ==> !After(s, steps).clients[c].InSection()
    decreases |steps|
  {
    hide LeasesDistinct, ReadsFresh, LogOk;
    if steps != [] {
      OrphanStays(s, lease, steps[0]);
      StepKeepsInv(s, steps[0]);
      OrphanBlocks(Do(s, steps[0]), lease, steps[1..]);
    }
  }

  lemma OrphanStays(s: State, lease: nat, step: Step)
    requires Inv(s) && Orphaned(s, lease) && Enabled(s, step) && step != Expire(lease)
    ensures Orphaned(Do(s, step), lease)
  {
    hide ReadsFresh, LogOk;
  }

  /** A call that fails in the section, before or after its read, leaves the lock free, and the counter
      and the log as they were. */
  lemma FailureReleases(s: State, c: nat) returns (steps: seq<Step>)
    requires Inv(s) && c < |s.clients| && (s.clients[c].Holding? || s.clients[c].Knows?)
    ensures IsRun(s, steps)
    ensures After(s, steps) ==
              s.(clients := s.clients[c := Idle], lockKey := None, live := s.live - {s.clients[c].lease})
  {
    hide IsRun, After;
    NoSteps(s);
    steps := Extend(s, [], Fail(c));
    steps := Extend(s, steps, DeleteKey(c));
    steps := Extend(s, steps, Revoke(c));
    assert After(s, steps).clients == s.clients[c := Idle];
  }

  /** A call that counts writes nothing, whatever it has read. */
  lemma CountingWritesNothing(s: State, c: nat)
    requires Enabled(s, Write(c)) && s.clients[c].job.CountGroups?
    ensures Do(s, Write(c)).counter == s.counter
    ensures Do(s, Write(c)).log == s.log + [Counted(Value(s.clients[c].count))]
  {
  }

  // ----- Waiting for the lock -----

  /** A waiting client that is never let in gives up after exactly the tries it has left, and not before,
      and ends its lease: a key that it has put itself, its reply being lost, goes with it. */
  lemma {:induction false} GivesUp(s: State, before: seq<Step>, c: nat) returns (steps: seq<Step>)
    requires IsRun(s, before) && c < |After(s, before).clients| && After(s, before).clients[c].Waiting?
    ensures IsRun(s, steps) && |steps| == |before| + After(s, before).clients[c].tries + 1
    ensures Enabled(After(s, before), GiveUp(c)) <==> After(s, before).clients[c].tries == 0
    ensures var t := After(s, before);
            After(s, steps) ==
              t.(clients := t.clients[c := Idle], live := t.live - {t.clients[c].lease},
                 lockKey := if t.lockKey == Some(t.clients[c].lease) then None else t.lockKey)
    decreases After(s, before).clients[c].tries
  {
    hide IsRun, After;
    var t := After(s, before);
    if t.clients[c].tries == 0 {
      steps := Extend(s, before, GiveUp(c));
    } else {
      var more := Extend(s, before, Retry(c));
      steps := GivesUp(s, more, c);
      assert After(s, more).clients[c := Idle] == t.clients[c := Idle];
    }
  }

  /** As long as it has tries left, the next one may succeed, fail, or succeed without the client's
      knowing. Without any it can only give up. */
  lemma NextTry(s: State, c: nat)
    requires c < |s.clients| && s.clients[c].Waiting?
    ensures Enabled(s, Retry(c)) <==> s.clients[c].tries >= 1
    ensures Enabled(s, Lock(c)) <==> s.clients[c].tries >= 1 && s.lockKey == None && s.clients[c].lease in s.live
    ensures Enabled(s, LoseReply(c)) <==> Enabled(s, Lock(c))
    ensures Enabled(s, Lock(c)) ==>
              Do(s, Lock(c)).clients[c].InSection() && Do(s, Lock(c)).lockKey == Do(s, LoseReply(c)).lockKey
  {
  }

  /** A call tries ten times, and a call that never gets the lock changes nothing but the lease number. */
  lemma TenTries(s: State, c: nat, job: Job) returns (steps: seq<Step>)
    requires Inv(s) && c < |s.clients| && s.clients[c] == Idle
    ensures IsRun(s, steps) && |steps| == 12
    ensures After(s, steps) == s.(nextLease := s.nextLease + 1)
  {
    hide IsRun, After, ReadsFresh, LogOk;
    NoSteps(s);
    var granted := Extend(s, [], Grant(c, job));
    steps := GivesUp(s, granted, c);
    assert s.clients[c := Idle] == s.clients;
    assert After(s, steps).clients == s.clients && After(s, steps).live == s.live;
  }

  /** A put whose reply is lost holds the key: nobody can put it then, not even that client. */
  lemma LostReplyHolds(s: State, c: nat)
    requires Enabled(s, LoseReply(c))
    ensures var s' := Do(s, LoseReply(c));
            && s'.lockKey == Some(s'.clients[c].lease) && s'.clients[c].Waiting?
            && s'.clients[c].tries == s.clients[c].tries - 1
            && forall d :: !Enabled(s', Lock(d))
  {
  }

  // ----- Without the hypothesis -----

  /** A client whose call is dropped is idle again. */
  lemma BecomesIdle(s: State, before: seq<Step>, c: nat) returns (steps: seq<Step>)
    requires IsRun(s, before) && c < |After(s, before).clients|
    ensures IsRun(s, steps)
    ensures After(s, steps) == After(s, before).(clients := After(s, before).clients[c := Idle])
  {
    hide IsRun, After;
    steps := before;
    if !After(s, before).clients[c].Idle? {
      steps := Extend(s, steps, Crash(c));
    } else {
      assert After(s, before).clients[c := Idle] == After(s, before).clients;
    }
  }

  /** An idle client adds a group, as far as having the lock. */
  lemma Enters(s: State, before: seq<Step>, c: nat) returns (steps: seq<Step>)
    requires IsRun(s, before) && c < |After(s, before).clients| && After(s, before).clients[c] == Idle
    requires After(s, before).lockKey == None
    ensures IsRun(s, steps)
    ensures var (t, s') := (After(s, before), After(s, steps));
            s' == t.(clients := t.clients[c := Holding(AddGroup, t.nextLease)], lockKey := Some(t.nextLease),
                     live := t.live + {t.nextLease}, nextLease := t.nextLease + 1)
  {
    hide IsRun, After;
    var t := After(s, before);
    steps := Extend(s, before, Grant(c, AddGroup));
    steps := Extend(s, steps, Lock(c));
    assert After(s, steps).clients == t.clients[c := Holding(AddGroup, t.nextLease)];
  }

  /** Wherever a holder's lease expires while another client still waits, two clients can be in the
      section, and the first to leave takes the other's key away. */
  lemma ExpiryBreaksLock(s: State, c: nat, d: nat)
    requires Inv(s) && c < |s.clients| && d < |s.clients| && s.clients[c].InSection()
    requires s.clients[d].Waiting? && s.clients[d].tries > 0 && s.clients[d].lease in s.live
    ensures var expire := Expire(s.clients[c].lease);
            && Enabled(s, expire) && !Timely(s, expire)
            && Enabled(Do(s, expire), Lock(d))
            && !AtMostOneInSection(Do(Do(s, expire), Lock(d)))
            && (s.clients[c].Leaving? ==>
                  var s' := Do(Do(s, expire), Lock(d));
                  && Enabled(s', DeleteKey(c))
                  && Do(s', DeleteKey(c)).clients[d].InSection() && Do(s', DeleteKey(c)).lockKey == None)
  {
    var s' := Do(Do(s, Expire(s.clients[c].lease)), Lock(d));
    if c < d {
      assert s'.clients[c].InSection() && s'.clients[d].InSection();
    } else {
      assert s'.clients[d].InSection() && s'.clients[c].InSection();
    }
  }

  /** Two clients can come to be in the section, without any further untimely expiry. */
  ghost predicate CanBreak(s: State) {
    exists steps :: IsRun(s, steps) && !AtMostOneInSection(After(s, steps))
  }

  lemma InvExcludes(s: State)
    requires Inv(s)
    ensures AtMostOneInSection(s)
  {
  }

  lemma InvCannotBreak(s: State)
    requires Inv(s)
    ensures !CanBreak(s)
  {
    hide Inv, AtMostOneInSection;
    forall steps | IsRun(s, steps) ensures AtMostOneInSection(After(s, steps)) {
      RunKeepsInv(s, steps);
      InvExcludes(After(s, steps));
    }
  }

  /** With the lock key gone, any client d can enter the section beside a client c that is in it. */
  lemma SecondEnters(s: State, c: nat, d: nat)
    requires c < |s.clients| && d < |s.clients| && c != d && s.clients[c].InSection() && s.lockKey == None
    ensures CanBreak(s)
  {
    hide IsRun, After;
    NoSteps(s);
    var steps := BecomesIdle(s, [], d);
    steps := Enters(s, steps, d);
    var t := After(s, steps);
    assert t.clients[c].InSection() && t.clients[d].InSection();
  }

  /** The hypothesis is exactly what mutual exclusion needs: with two clients or more, letting a
      lease end can put two clients in the section if and only if a client in the section relies on
      that lease. */
  lemma ExclusionIffTimely(s: State, lease: nat)
    requires Inv(s) && lease in s.live && |s.clients| >= 2
    ensures CanBreak(Do(s, Expire(lease))) <==> !Timely(s, Expire(lease))
  {
    hide CanBreak;
    if Timely(s, Expire(lease)) {
      StepKeepsInv(s, Expire(lease));
      InvCannotBreak(Do(s, Expire(lease)));
    } else {
      var c :| 0 <= c < |s.clients| && s.clients[c].InSection() && s.clients[c].lease == lease;
      SecondEnters(Do(s, Expire(lease)), c, if c == 0 then 1 else 0);
    }
  }

  /** Some call can come to return what it would not have returned alone, without any further untimely
      expiry. */
  ghost predicate CanMiscount(s: State) {
    exists steps :: IsRun(s, steps) && !Sequential(After(s, steps).log)
  }

  /** The counter can come to differ from the additions minus the subtractions. */
  ghost predicate CanLoseUpdate(s: State) {
    exists steps :: IsRun(s, steps) && Value(After(s, steps).counter) != Counter(After(s, steps).log)
  }

  lemma InvCannotMiscount(s: State)
    requires Inv(s)
    ensures !CanMiscount(s) && !CanLoseUpdate(s)
  {
    hide Inv, Sequential, Counter;
    forall steps | IsRun(s, steps)
      ensures Sequential(After(s, steps).log) && Value(After(s, steps).counter) == Counter(After(s, steps).log)
    {
      RunKeepsInv(s, steps);
      InvIsRight(After(s, steps));
    }
  }

  lemma InvIsRight(s: State)
    requires Inv(s)
    ensures Sequential(s.log) && Value(s.counter) == Counter(s.log)
  {
  }

  /** A client in the section takes the lock key away when it leaves, whoever's it is. */
  lemma LeavesAndDrops(s: State, before: seq<Step>, c: nat) returns (steps: seq<Step>)
    requires IsRun(s, before) && c < |After(s, before).clients| && After(s, before).clients[c].InSection()
    ensures IsRun(s, steps)
    ensures After(s, steps) == After(s, before).(clients := After(s, before).clients[c := Idle], lockKey := None)
  {
    hide IsRun, After;
    var t := After(s, before);
    steps := before;
    if !t.clients[c].Leaving? {
      steps := Extend(s, steps, Fail(c));
    }
    steps := Extend(s, steps, DeleteKey(c));
    steps := Extend(s, steps, Crash(c));
    assert After(s, steps).clients == t.clients[c := Idle];
  }

  /** Two clients that both read before either writes: an addition is lost. */
  lemma BothCount(s: State, before: seq<Step>, c: nat, d: nat) returns (steps: seq<Step>)
    requires IsRun(s, before) && c < |After(s, before).clients| && d < |After(s, before).clients| && c != d
    requires var t := After(s, before);
             && t.clients[c].Holding? && t.clients[c].job.AddGroup?
             && t.clients[d].Holding? && t.clients[d].job.AddGroup?
    ensures IsRun(s, steps)
    ensures var (t, s') := (After(s, before), After(s, steps));
            var e := Added(Value(t.counter) + 1);
            s'.log == t.log + [e] + [e] && Value(s'.counter) == Value(t.counter) + 1
  {
    hide IsRun, After;
    steps := Extend(s, before, Get(c));
    steps := Extend(s, steps, Get(d));
    steps := Extend(s, steps, Write(c));
    steps := Extend(s, steps, Write(d));
  }

  lemma TwiceIsWrong(log: seq<Event>, result: int)
    ensures !Sequential(log + [Added(result)] + [Added(result)])
    ensures Counter(log + [Added(result)] + [Added(result)]) == Counter(log) + 2
  {
    var e := Added(result);
    var one, two := log + [e], log + [e] + [e];
    assert one[..|log|] == log && two[..|log|] == log && two[..|log| + 1] == one;
    assert Counter(one) == Counter(log) + 1 && Counter(two) == Counter(one) + 1;
    assert !(Right(Counter(two[..|log|]), two[|log|]) && Right(Counter(two[..|log| + 1]), two[|log| + 1]));
  }

  /** With the lock key gone, any client d can lose an update of, or to, a client c in the section. */
  lemma UpdateLost(s: State, c: nat, d: nat)
    requires c < |s.clients| && d < |s.clients| && c != d && s.clients[c].InSection() && s.lockKey == None
    requires Value(s.counter) == Counter(s.log)
    ensures CanMiscount(s) && CanLoseUpdate(s)
  {
    hide IsRun, After, Sequential, Counter;
    NoSteps(s);
    var steps := BecomesIdle(s, [], d);
    steps := Enters(s, steps, d);
    steps := LeavesAndDrops(s, steps, c);
    steps := Enters(s, steps, c);
    var t := After(s, steps);
    steps := BothCount(s, steps, c, d);
    TwiceIsWrong(t.log, Value(t.counter) + 1);
  }

  /** So the counter, too, needs exactly the hypothesis: letting a lease end can make a call miscount, or
      the counter lose an update, if and only if a client in the section relies on that lease. */
  lemma CountingIffTimely(s: State, lease: nat)
    requires Inv(s) && lease in s.live && |s.clients| >= 2
    ensures CanMiscount(Do(s, Expire(lease))) <==> !Timely(s, Expire(lease))
    ensures CanLoseUpdate(Do(s, Expire(lease))) <==> !Timely(s, Expire(lease))
  {
    hide CanMiscount, CanLoseUpdate;
    if Timely(s, Expire(lease)) {
      StepKeepsInv(s, Expire(lease));
      InvCannotMiscount(Do(s, Expire(lease)));
    } else {
      var c :| 0 <= c < |s.clients| && s.clients[c].InSection() && s.clients[c].lease == lease;
      UpdateLost(Do(s, Expire(lease)), c, if c == 0 then 1 else 0);
    }
  }

  /** Such an expiry between a holder's read and its write loses another client's update: two
      completed additions, and the counter says one. */
  lemma ExpiryLosesUpdate(s: State, c: nat, d: nat)
    requires Inv(s) && c < |s.clients| && d < |s.clients|
    requires s.clients[c].Knows? && s.clients[c].job.AddGroup?
    requires s.clients[d].Waiting? && s.clients[d].job.AddGroup? && s.clients[d].tries > 0
    requires s.clients[d].lease in s.live
    ensures var s1 := Do(s, Expire(s.clients[c].lease));
            var s2 := Do(Do(Do(s1, Lock(d)), Get(d)), Write(d));
            && Enabled(s2, Write(c))
            && var s3 := Do(s2, Write(c));
               && Count(s3.log, true) == Count(s.log, true) + 2
               && Value(s3.counter) == Value(s.counter) + 1
               && !Sequential(s3.log)
  {
    var s1 := Do(s, Expire(s.clients[c].lease));
    var s2 := Do(Do(Do(s1, Lock(d)), Get(d)), Write(d));
    var s3 := Do(s2, Write(c));
    var e := Added(Value(s.counter) + 1);
    assert s2.log == s.log + [e] && s3.log == s2.log + [e];
    assert s2.log[..|s.log|] == s.log && s3.log[..|s2.log|] == s2.log;
    assert !Right(Counter(s3.log[..|s2.log|]), s3.log[|s2.log|]);
  }
}
