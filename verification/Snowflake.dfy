/** The generator itself: the packing of the digits into 64 bits, and the clock loop. */
module Snowflake {
  import opened GoBase
  import opened SnowflakeRuns
  import opened SnowflakePack

  /** The ID of a call, as GetId computes it. */
  function IdOf(s: State, c: Call): uint64 {
    Pack(TimeOf(s, c), s.workerId, After(s, c).number)
  }

  predicate ValidDigits(d: Digits) {
    InRange(d.time) && d.field <= WORKER_MAX && d.number <= NUMBER_MAX
  }

  function Num(d: Digits): (n: nat)
    requires ValidDigits(d)
    ensures 0 < n < TWO_64
  {
    ((d.time - EPOCH) * 1024 + d.field) * 4096 + d.number
  }

  /** The digits are in order of significance. */
  lemma NumOrder(a: Digits, b: Digits)
    requires ValidDigits(a) && ValidDigits(b)
    ensures Num(a) < Num(b) <==> Less(a, b)
    ensures Num(a) == Num(b) <==> a == b
  {
  }

  lemma PackIsNum(s: State, floor: uint64, c: Call)
    requires Sound(s, floor) && Timely(s, floor, [c])
    ensures ValidDigits(DigitsOf(s, c))
    ensures IdOf(s, c) == Num(DigitsOf(s, c))
  {
    hide Pack;
    SoundAfter(s, floor, [c]);
    PackValue(TimeOf(s, c), s.workerId, After(s, c).number);
  }

  // ----- Runs of IDs -----

  function RunIds(s: State, calls: seq<Call>): (ids: seq<uint64>)
    ensures |ids| == |calls|
    decreases |calls|
  {
    if calls == [] then [] else [IdOf(s, calls[0])] + RunIds(After(s, calls[0]), calls[1..])
  }

  lemma {:induction false} RunIdsAreNums(s: State, floor: uint64, calls: seq<Call>)
    requires Sound(s, floor) && Timely(s, floor, calls)
    ensures forall i :: 0 <= i < |calls| ==>
              ValidDigits(Run(s, calls)[i]) && RunIds(s, calls)[i] == Num(Run(s, calls)[i])
    decreases |calls|
  {
    hide Num, IdOf, ValidDigits, DigitsOf, After;
    if calls != [] {
      assert Timely(s, floor, [calls[0]]);
      PackIsNum(s, floor, calls[0]);
      SoundAfter(s, floor, calls);
      RunIdsAreNums(After(s, calls[0]), TimeOf(s, calls[0]), calls[1..]);
    }
  }

  ghost predicate StrictlyIncreasing(ids: seq<uint64>) {
    forall i, j :: 0 <= i < j < |ids| ==> ids[i] < ids[j]
  }

  lemma {:induction false} RepeatOrder(workerId: uint64, calls: seq<Call>, i: nat)
    requires workerId <= WORKER_MAX && Timely(Initial(workerId), 0, calls) && i + 1 < |calls|
    requires ReusedAt(Initial(workerId), calls, i)
    ensures !Less(Run(Initial(workerId), calls)[i], Run(Initial(workerId), calls)[i + 1])
  {
    var s := Initial(workerId);
    var floor := RunAt(s, 0, calls, i);
    var floor' := RunAt(s, 0, calls, i + 1);
    StateAtNext(s, calls, i);
    assert calls[i..][0] == calls[i] && calls[i + 1..][0] == calls[i + 1];
    hide StateAt, Timely;
    assert Run(s, calls)[i] == DigitsOf(StateAt(s, calls, i), calls[i]);
    assert Run(s, calls)[i + 1] == DigitsOf(StateAt(s, calls, i + 1), calls[i + 1]);
  }

  lemma {:induction false} LaterIsLess(workerId: uint64, calls: seq<Call>, i: nat, j: nat)
    requires workerId <= WORKER_MAX && Timely(Initial(workerId), 0, calls) && i < j < |calls|
    requires !ReusesMillisecond(Initial(workerId), calls)
    ensures Less(Run(Initial(workerId), calls)[i], Run(Initial(workerId), calls)[j])
  {
    var s := Initial(workerId);
    RepeatIff(s, calls, i, j);
    var floor := RunAt(s, 0, calls, i);
    var si, rest := StateAt(s, calls, i), calls[i..];
    SoundAfter(si, floor, rest);
    if Overflows(si, rest[0]) {
      var s' := After(si, rest[0]);
      LaterIdsAfterWait(s', rest[0].later, rest[1..], j - i - 1);
      assert Run(si, rest)[j - i] == Run(s', rest[1..])[j - i - 1];
      assert rest[1..][0] == calls[i + 1];
      assert !ReusedAt(s, calls, i);
    }
  }

  /** IDs are always positive, and they strictly increase exactly when no call reads the
      millisecond that ended a wait. */
  lemma Increasing(workerId: uint64, calls: seq<Call>)
    requires workerId <= WORKER_MAX && Timely(Initial(workerId), 0, calls)
    ensures forall i :: 0 <= i < |calls| ==> RunIds(Initial(workerId), calls)[i] > 0
    ensures StrictlyIncreasing(RunIds(Initial(workerId), calls)) <==> !ReusesMillisecond(Initial(workerId), calls)
  {
    hide RunIds, Run, Num, Timely, ReusedAt, Less;
    var s := Initial(workerId);
    var ids := RunIds(s, calls);
    RunIdsAreNums(s, 0, calls);
    if ReusesMillisecond(s, calls) {
      var i :| 0 <= i < |calls| - 1 && ReusedAt(s, calls, i);
      RepeatOrder(workerId, calls, i);
      NumOrder(Run(s, calls)[i], Run(s, calls)[i + 1]);
      assert !(ids[i] < ids[i + 1]);
    } else {
      forall i, j | 0 <= i < j < |calls| ensures ids[i] < ids[j] {
        LaterIsLess(workerId, calls, i, j);
        NumOrder(Run(s, calls)[i], Run(s, calls)[j]);
      }
    }
  }

  /** In particular with at most 4096 calls a millisecond. */
  lemma UncrowdedIncreases(workerId: uint64, calls: seq<Call>)
    requires workerId <= WORKER_MAX && Timely(Initial(workerId), 0, calls) && Uncrowded(calls)
    ensures StrictlyIncreasing(RunIds(Initial(workerId), calls))
  {
    hide RunIds, Timely, StrictlyIncreasing, CountNow;
    Increasing(workerId, calls);
    forall i | 0 <= i < |calls| - 1 ensures !ReusedAt(Initial(workerId), calls, i) {
      WaitIffCrowded(workerId, calls, i);
    }
  }

  /** Which calls of two workers collide: the smaller worker id is even, the larger its successor,
      the smaller one's call has waited, and the larger one's call gives the first ID of the
      millisecond that ended the wait. */
  ghost predicate Collide(w1: uint64, calls1: seq<Call>, i: nat, w2: uint64, calls2: seq<Call>, j: nat)
    requires i < |calls1| && j < |calls2|
  {
    var n1, n2 := CountNow(calls1[..i + 1], calls1[i].now), CountNow(calls2[..j + 1], calls2[j].now);
    && w1 % 2 == 0 && w2 == w1 + 1 && n1 > 4096
    && if n2 > 4096 then calls2[j].later == calls1[i].later else n2 == 1 && calls2[j].now == calls1[i].later
  }

  /** IDs of different workers are equal exactly then. */
  lemma AcrossWorkers(w1: uint64, calls1: seq<Call>, i: nat, w2: uint64, calls2: seq<Call>, j: nat)
    requires w1 < w2 <= WORKER_MAX
    requires Timely(Initial(w1), 0, calls1) && i < |calls1|
    requires Timely(Initial(w2), 0, calls2) && j < |calls2|
    ensures RunIds(Initial(w1), calls1)[i] == RunIds(Initial(w2), calls2)[j] <==> Collide(w1, calls1, i, w2, calls2, j)
  {
    hide RunIds, Run, Num, Timely, CountNow, ValidDigits;
    RunIdsAreNums(Initial(w1), 0, calls1);
    RunIdsAreNums(Initial(w2), 0, calls2);
    NumOrder(Run(Initial(w1), calls1)[i], Run(Initial(w2), calls2)[j]);
    DigitsAt(w1, calls1, i);
    DigitsAt(w2, calls2, j);
  }

  /** It happens: an even worker draws 4097 IDs in one millisecond, its successor one in the next. */
  lemma EvenWorkerCollides(w: uint64, t: uint64, n: nat)
    requires w % 2 == 0 && w < WORKER_MAX && InRange(t) && InRange(t + 2) && n == 4096
    ensures var calls1, calls2 := Burst(t, n + 1), [Call(t + 1, t + 2)];
            && Timely(Initial(w), 0, calls1) && Timely(Initial(w + 1), 0, calls2)
            && RunIds(Initial(w), calls1)[n] == RunIds(Initial(w + 1), calls2)[0]
  {
    hide RunIds, Burst;
    var calls1, calls2 := Burst(t, n + 1), [Call(t + 1, t + 2)];
    CrowdedStart(w, t, n + 1, []);
    assert calls1 + [] == calls1;
    assert Timely(Initial(w + 1), 0, calls2);
    CountAll(calls2[..1], t + 1);
    AcrossWorkers(w, calls1, n, w + 1, calls2, 0);
  }

  /** The exact condition for distinct IDs: an odd worker id repeats an ID precisely when it
      reuses the millisecond that ended a wait; an even one never repeats an ID. */
  lemma DistinctIff(workerId: uint64, calls: seq<Call>)
    requires workerId <= WORKER_MAX && Timely(Initial(workerId), 0, calls)
    ensures NoDuplicates(RunIds(Initial(workerId), calls)) <==>
            workerId % 2 == 0 || !ReusesMillisecond(Initial(workerId), calls)
  {
    hide RunIds, Run, Num, ReusedAt, Timely;
    var s := Initial(workerId);
    var ids := RunIds(s, calls);
    RunIdsAreNums(s, 0, calls);
    forall i, j | 0 <= i < j < |calls|
      ensures ids[i] == ids[j] <==> workerId % 2 == 1 && j == i + 1 && ReusedAt(s, calls, i)
    {
      RepeatIff(s, calls, i, j);
      NumOrder(Run(s, calls)[i], Run(s, calls)[j]);
    }
    if workerId % 2 == 1 && ReusesMillisecond(s, calls) {
      var i :| 0 <= i < |calls| - 1 && ReusedAt(s, calls, i);
      assert ids[i] == ids[i + 1];
    }
  }

  /** In numbers: a worker's first ID of a millisecond, counted from the program's epoch. */
  lemma FirstId(w: uint64, t: uint64, later: uint64)
    requires w < 1024 && 1724896773911 < t < 1724896773911 + 0x400_0000_0000
    ensures IdOf(Initial(w), Call(t, later)) == (t - 1724896773911) * 0x40_0000 + w * 0x1000
  {
    hide IdOf;
    var c := Call(t, later);
    assert Timely(Initial(w), 0, [c]) by { TimelyFirst(Initial(w), 0, c, []); }
    PackIsNum(Initial(w), 0, c);
  }

  /** It happens to every odd worker: 4097 calls in one millisecond, and one in the next. */
  lemma OddWorkerRepeats(w: uint64, t: uint64, n: nat)
    requires w % 2 == 1 && w <= WORKER_MAX && InRange(t) && InRange(t + 2) && n == 4096
    ensures var calls := Burst(t, n + 1) + [Call(t + 1, t + 2)];
            && Timely(Initial(w), 0, calls)
            && !NoDuplicates(RunIds(Initial(w), calls))
  {
    hide RunIds, Burst, NoDuplicates;
    var later := [Call(t + 1, t + 2)];
    var calls := Burst(t, n + 1) + later;
    assert Timely(State(t, w, NUMBER_MAX + 1), t + 1, later);
    CrowdedStart(w, t, n + 1, later);
    WaitIffCrowded(w, calls, n);
    assert ReusedAt(Initial(w), calls, n);
    DistinctIff(w, calls);
  }

  /** Whatever the clock does: two calls of a worker that do not wait agree exactly when they read the same
      millisecond and have the same number in it. */
  lemma SameIdIff(s: State, c: Call, s': State, c': Call)
    requires s.workerId == s'.workerId <= WORKER_MAX && !Overflows(s, c) && !Overflows(s', c')
    requires InRange(c.now) && InRange(c'.now)
    ensures IdOf(s, c) == IdOf(s', c') <==> c.now == c'.now && After(s, c).number == After(s', c').number
  {
    hide Pack;
    PackValue(c.now, s.workerId, After(s, c).number);
    PackValue(c'.now, s.workerId, After(s', c').number);
    var (d, d') := (Digits(c.now, s.workerId, After(s, c).number), Digits(c'.now, s.workerId, After(s', c').number));
    NumOrder(d, d');
  }

  /** A clock that never goes back is needed: reading an earlier millisecond again starts its numbers
      again. */
  lemma BackwardRepeats(w: uint64, t: uint64, t': uint64, later: uint64)
    requires w <= WORKER_MAX && 0 < t && t' != t
    ensures var ids := RunIds(Initial(w), [Call(t, later), Call(t', later), Call(t, later)]);
            ids[0] == ids[2]
  {
    hide Pack;
    var calls := [Call(t, later), Call(t', later), Call(t, later)];
    var s1 := After(Initial(w), calls[0]);
    var s2 := After(s1, calls[1]);
    assert calls[1..][0] == calls[1] && calls[1..][1..][0] == calls[2];
    assert RunIds(Initial(w), calls) == [IdOf(Initial(w), calls[0])] + RunIds(s1, calls[1..]);
    assert RunIds(s1, calls[1..]) == [IdOf(s1, calls[1])] + RunIds(s2, calls[1..][1..]);
  }

  // ----- The generator -----

  /** A call that has to wait needs a clock that passes the recorded timestamp at some time. */
  ghost predicate WaitEnds(s: State, clock: nat -> uint64, t: nat) {
    Overflows(s, Call(clock(t), 0)) ==> exists k: nat :: k > t && clock(k) > s.timestamp
  }

  class Worker {
    var timestamp: uint64
    const workerId: uint64
    var number: uint64

    ghost function Abs(): State
      reads this
    {
      State(timestamp, workerId, number)
    }

    constructor (workerId: uint64)
      requires workerId <= WORKER_MAX
      ensures Abs() == Initial(workerId)
    {
      this.workerId := workerId;
      timestamp := 0;
      number := 0;
    }

    /** The clock loop of a call. The clock's readings are numbered; readings from t on are this
        call's and later ones, and next is the first that remains. A wait ends only on a clock
        that passes the recorded timestamp. */
    method Tick(clock: nat -> uint64, t: nat) returns (now: uint64, ghost call: Call, next: nat)
      requires WaitEnds(Abs(), clock, t)
      modifies this
      ensures t < next && call == Call(clock(t), clock(next - 1))
      ensures Overflows(old(Abs()), call) ==> call.later > old(timestamp)
      ensures forall k :: t < k < next - 1 ==> clock(k) <= old(timestamp)
      ensures !Overflows(old(Abs()), call) ==> next == t + 1
      ensures Abs() == After(old(Abs()), call)
      ensures now == TimeOf(old(Abs()), call)
    {
      ghost var bound: nat := t;
      if Overflows(Abs(), Call(clock(t), 0)) {
        bound :| bound > t && clock(bound) > timestamp;
      }
      now := clock(t);
      next := t + 1;
      if timestamp == now {
        number := (number + 1) % TWO_64;
        if number > NUMBER_MAX {
          while now <= timestamp
            invariant t < next <= bound + 1 && now == clock(next - 1)
            invariant forall k :: t < k < next - 1 ==> clock(k) <= timestamp
            invariant now <= timestamp ==> next <= bound
            decreases bound + 1 - next
          {
            now := clock(next);
            next := next + 1;
          }
        }
      } else {
        number := 0;
        timestamp := now;
      }
      call := Call(clock(t), clock(next - 1));
    }

    method GetId(clock: nat -> uint64, t: nat) returns (id: uint64, ghost call: Call, next: nat)
      requires WaitEnds(Abs(), clock, t)
      modifies this
      ensures t < next && call == Call(clock(t), clock(next - 1))
      ensures Overflows(old(Abs()), call) ==> call.later > old(timestamp)
      ensures !Overflows(old(Abs()), call) ==> next == t + 1
      ensures Abs() == After(old(Abs()), call)
      ensures id == IdOf(old(Abs()), call)
    {
      var now;
      now, call, next := Tick(clock, t);
      id := Pack(now, workerId, number);
    }
  }

  /** NewWorker rejects worker ids of more than ten bits. */
  method NewWorker(workerId: uint64) returns (w: Option<Worker>)
    ensures w.Some? <==> workerId <= WORKER_MAX
    ensures w.Some? ==> fresh(w.value) && w.value.Abs() == Initial(workerId)
  {
    if workerId > WORKER_MAX {
      return None;
    }
    var worker := new Worker(workerId);
    w := Some(worker);
  }
}
