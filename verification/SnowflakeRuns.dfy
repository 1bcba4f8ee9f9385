/** The snowflake ID generator (util/snowflake.go): what a worker's successive calls produce, as
    digits. The digits of an ID are the millisecond, the worker field and the sequence number. */
module SnowflakeRuns {
  import opened GoBase

  const WORKER_MAX := 1023
  const NUMBER_MAX := 4095
  const EPOCH := 1724896773911
  const TIME_RANGE := 0x400_0000_0000  // 2^42 milliseconds

  datatype State = State(timestamp: uint64, workerId: uint64, number: uint64)

  /** One call: the clock reading on entry, and the reading that ends the wait if there is one. */
  datatype Call = Call(now: uint64, later: uint64)

  function Initial(workerId: uint64): State {
    State(0, workerId, 0)
  }

  predicate Overflows(s: State, c: Call) {
    s.timestamp == c.now && (s.number + 1) % TWO_64 > NUMBER_MAX
  }

  /** The wait of an overflowing call resets neither field. */
  function After(s: State, c: Call): State {
    if s.timestamp == c.now then s.(number := (s.number + 1) % TWO_64)
    else s.(number := 0, timestamp := c.now)
  }

  /** The time that goes into the ID. */
  function TimeOf(s: State, c: Call): uint64 {
    if Overflows(s, c) then c.later else c.now
  }

  predicate InRange(t: uint64) { EPOCH < t < EPOCH + TIME_RANGE }

  datatype Digits = Digits(time: uint64, field: nat, number: nat)

  predicate Less(a: Digits, b: Digits) {
    a.time < b.time || (a.time == b.time && (a.field < b.field || (a.field == b.field && a.number < b.number)))
  }

  /** A sequence number of 4096 spills into the lowest bit of the worker field: an odd worker id
      absorbs it, an even one turns into its successor. */
  function DigitsOf(s: State, c: Call): Digits {
    if Overflows(s, c) then Digits(c.later, if s.workerId % 2 == 0 then s.workerId + 1 else s.workerId, 0)
    else Digits(c.now, s.workerId, After(s, c).number)
  }

  // ----- Runs -----

  function Run(s: State, calls: seq<Call>): (ids: seq<Digits>)
    ensures |ids| == |calls|
    decreases |calls|
  {
    if calls == [] then [] else [DigitsOf(s, calls[0])] + Run(After(s, calls[0]), calls[1..])
  }

  /** The state before call i. */
  function StateAt(s: State, calls: seq<Call>, i: nat): State
    requires i <= |calls|
    decreases i
  {
    if i == 0 then s else StateAt(After(s, calls[0]), calls[1..], i - 1)
  }

  /** The clock never goes back, not even across a wait; it stays in range; and every wait ends
      as the loop demands. */
  ghost predicate Timely(s: State, floor: uint64, calls: seq<Call>)
    decreases |calls|
  {
    calls != [] ==>
      var c := calls[0];
      && floor <= c.now && InRange(c.now)
      && (Overflows(s, c) ==> c.later > s.timestamp && InRange(c.later))
      && Timely(After(s, c), TimeOf(s, c), calls[1..])
  }

  /** What the generator keeps: after a wait the clock is past the recorded timestamp. */
  ghost predicate Sound(s: State, floor: uint64) {
    && s.workerId <= WORKER_MAX && s.number <= NUMBER_MAX + 1
    && s.timestamp <= floor
    && (s.number == NUMBER_MAX + 1 ==> s.timestamp < floor)
  }

  lemma SoundAfter(s: State, floor: uint64, calls: seq<Call>)
    requires calls != [] && Sound(s, floor) && Timely(s, floor, calls)
    ensures Sound(After(s, calls[0]), TimeOf(s, calls[0]))
    ensures InRange(TimeOf(s, calls[0])) && floor <= calls[0].now <= TimeOf(s, calls[0])
    ensures After(s, calls[0]).timestamp == calls[0].now
    ensures !Overflows(s, calls[0]) ==> After(s, calls[0]).number <= NUMBER_MAX
  {
  }

  /** After a call that did not wait, every later ID is larger; and one with the same time carries
      the worker's own id. */
  lemma {:induction false} LaterIds(s: State, floor: uint64, calls: seq<Call>, i: nat)
    requires Sound(s, floor) && Timely(s, floor, calls) && i < |calls|
    requires s.number <= NUMBER_MAX
    ensures Less(Digits(s.timestamp, s.workerId, s.number), Run(s, calls)[i])
    ensures Run(s, calls)[i].time > s.timestamp || Run(s, calls)[i].field == s.workerId
    decreases i
  {
    SoundAfter(s, floor, calls);
    var c, s' := calls[0], After(s, calls[0]);
    if i > 0 {
      assert Run(s, calls)[i] == Run(s', calls[1..])[i - 1];
      if Overflows(s, c) {
        LaterIdsAfterWait(s', c.later, calls[1..], i - 1);
      } else {
        LaterIds(s', c.now, calls[1..], i - 1);
      }
    }
  }

  /** After a wait, the next ID is the first of its millisecond and every later one is larger. */
  lemma {:induction false} LaterIdsAfterWait(s: State, floor: uint64, calls: seq<Call>, i: nat)
    requires Sound(s, floor) && Timely(s, floor, calls) && i < |calls|
    requires s.timestamp < floor
    ensures Run(s, calls)[0] == Digits(calls[0].now, s.workerId, 0)
    ensures i > 0 ==> Less(Run(s, calls)[0], Run(s, calls)[i])
    ensures Run(s, calls)[i].time > floor || (Run(s, calls)[i].time == floor && Run(s, calls)[i].field == s.workerId)
    decreases i
  {
    SoundAfter(s, floor, calls);
    if i > 0 {
      LaterIds(After(s, calls[0]), calls[0].now, calls[1..], i - 1);
      assert Run(s, calls)[i] == Run(After(s, calls[0]), calls[1..])[i - 1];
    }
  }

  lemma {:induction false} RunAt(s: State, floor: uint64, calls: seq<Call>, i: nat) returns (floor': uint64)
    requires Sound(s, floor) && Timely(s, floor, calls) && i <= |calls|
    ensures Sound(StateAt(s, calls, i), floor') && Timely(StateAt(s, calls, i), floor', calls[i..])
    ensures forall j :: i <= j < |calls| ==> Run(s, calls)[j] == Run(StateAt(s, calls, i), calls[i..])[j - i]
    ensures StateAt(s, calls, i).workerId == s.workerId
    decreases i
  {
    if i == 0 {
      floor' := floor;
    } else {
      SoundAfter(s, floor, calls);
      floor' := RunAt(After(s, calls[0]), TimeOf(s, calls[0]), calls[1..], i - 1);
      assert calls[1..][i - 1..] == calls[i..];
    }
  }

  /** Some call waits at the end of its millisecond and the next call reads the very millisecond
      that ended the wait. */
  ghost predicate ReusesMillisecond(s: State, calls: seq<Call>) {
    exists i :: 0 <= i < |calls| - 1 && ReusedAt(s, calls, i)
  }

  ghost predicate ReusedAt(s: State, calls: seq<Call>, i: nat)
    requires i < |calls| - 1
  {
    Overflows(StateAt(s, calls, i), calls[i]) && calls[i + 1].now == calls[i].later
  }

  /** Two calls of one worker produce the same ID exactly when the worker id is odd, the first
      waits, and the second is the next one and reads the millisecond that ended the wait. */
  lemma RepeatIff(s: State, calls: seq<Call>, i: nat, j: nat)
    requires s.workerId <= WORKER_MAX && s == Initial(s.workerId) && Timely(s, 0, calls)
    requires i < j < |calls|
    ensures Run(s, calls)[i] == Run(s, calls)[j] <==> s.workerId % 2 == 1 && j == i + 1 && ReusedAt(s, calls, i)
    ensures !Overflows(StateAt(s, calls, i), calls[i]) ==> Less(Run(s, calls)[i], Run(s, calls)[j])
  {
    var floor := RunAt(s, 0, calls, i);
    var si, rest := StateAt(s, calls, i), calls[i..];
    SoundAfter(si, floor, rest);
    var s' := After(si, rest[0]);
    var k := j - i - 1;
    assert Run(si, rest)[j - i] == Run(s', rest[1..])[k];
    if Overflows(si, rest[0]) {
      LaterIdsAfterWait(s', rest[0].later, rest[1..], k);
      assert rest[1..][0] == calls[i + 1];
    } else {
      LaterIds(s', rest[0].now, rest[1..], k);
    }
  }

  function CountNow(calls: seq<Call>, t: uint64): nat {
    if calls == [] then 0
    else CountNow(calls[..|calls| - 1], t) + (if calls[|calls| - 1].now == t then 1 else 0)
  }

  ghost predicate NoneLater(calls: seq<Call>, now: uint64) {
    forall t: uint64 :: t > now ==> CountNow(calls, t) == 0
  }

  lemma {:induction false} StateAtNext(s: State, calls: seq<Call>, i: nat)
    requires i < |calls|
    ensures StateAt(s, calls, i + 1) == After(StateAt(s, calls, i), calls[i])
    decreases i
  {
    if i > 0 { StateAtNext(After(s, calls[0]), calls[1..], i - 1); }
  }

  lemma NoneLaterStep(calls: seq<Call>, now: uint64)
    requires calls != [] && NoneLater(calls[..|calls| - 1], now) && calls[|calls| - 1].now <= now
    ensures NoneLater(calls, now)
  {
  }

  /** The sequence number counts the calls of the current millisecond. */
  lemma {:induction false} NumberCounts(workerId: uint64, calls: seq<Call>, i: nat)
    requires workerId <= WORKER_MAX && Timely(Initial(workerId), 0, calls) && i < |calls|
    ensures StateAt(Initial(workerId), calls, i + 1).timestamp == calls[i].now
    ensures StateAt(Initial(workerId), calls, i + 1).number + 1 == CountNow(calls[..i + 1], calls[i].now)
    ensures NoneLater(calls[..i + 1], calls[i].now)
    decreases i
  {
    var s := Initial(workerId);
    StateAtNext(s, calls, i);
    var floor := RunAt(s, 0, calls, i);
    assert calls[i..][0] == calls[i] && calls[..i + 1][..i] == calls[..i];
    SoundAfter(StateAt(s, calls, i), floor, calls[i..]);
    if i > 0 {
      NumberCounts(workerId, calls, i - 1);
      assert calls[i - 1].now <= calls[i].now;
    }
    if i == 0 {
      assert calls[..1] == [calls[0]] && NoneLater([], 0);
    }
    NoneLaterStep(calls[..i + 1], calls[i].now);
  }

  /** No millisecond sees more than 4096 calls. */
  ghost predicate Uncrowded(calls: seq<Call>) {
    forall i :: 0 <= i < |calls| ==> CountNow(calls[..i + 1], calls[i].now) <= 4096
  }

  /** A wait happens exactly at the calls beyond the 4096th of a millisecond. */
  lemma WaitIffCrowded(workerId: uint64, calls: seq<Call>, i: nat)
    requires workerId <= WORKER_MAX && Timely(Initial(workerId), 0, calls) && i < |calls|
    ensures Overflows(StateAt(Initial(workerId), calls, i), calls[i]) <==>
            CountNow(calls[..i + 1], calls[i].now) > 4096
  {
    var s := Initial(workerId);
    StateAtNext(s, calls, i);
    NumberCounts(workerId, calls, i);
    var floor := RunAt(s, 0, calls, i);
    assert calls[i..][0] == calls[i];
    NumberAfter(StateAt(s, calls, i), floor, calls[i]);
  }

  lemma NumberAfter(s: State, floor: uint64, c: Call)
    requires Sound(s, floor) && floor <= c.now
    ensures Overflows(s, c) <==> After(s, c).number > NUMBER_MAX
  {
  }

  /** The digits of call i, and what the calls so far say about its number. */
  lemma DigitsAt(workerId: uint64, calls: seq<Call>, i: nat)
    requires workerId <= WORKER_MAX && Timely(Initial(workerId), 0, calls) && i < |calls|
    ensures var d, n := Run(Initial(workerId), calls)[i], CountNow(calls[..i + 1], calls[i].now);
            && n > 0
            && d == if n > NUMBER_MAX + 1
                    then Digits(calls[i].later, if workerId % 2 == 0 then workerId + 1 else workerId, 0)
                    else Digits(calls[i].now, workerId, n - 1)
  {
    var s := Initial(workerId);
    var floor := RunAt(s, 0, calls, i);
    assert calls[i..][0] == calls[i];
    WaitIffCrowded(workerId, calls, i);
    NumberCounts(workerId, calls, i);
    StateAtNext(s, calls, i);
    hide CountNow, Timely, StateAt;
    assert Run(s, calls)[i] == DigitsOf(StateAt(s, calls, i), calls[i]);
  }

  // ----- Crowded milliseconds -----

  /** Calls in one millisecond; the one that has to wait sees the next. */
  function Burst(t: uint64, n: nat): (calls: seq<Call>)
    requires t + 1 < TWO_64 && InRange(t + 1)
    ensures |calls| == n && forall i :: 0 <= i < n ==> calls[i] == Call(t, t + 1)
    decreases n
  {
    if n == 0 then [] else [Call(t, t + 1)] + Burst(t, n - 1)
  }

  lemma {:induction false} CountAll(calls: seq<Call>, t: uint64)
    requires forall i :: 0 <= i < |calls| ==> calls[i].now == t
    ensures CountNow(calls, t) == |calls|
    decreases |calls|
  {
    if calls != [] { CountAll(calls[..|calls| - 1], t); }
  }

  lemma TimelyFirst(s: State, floor: uint64, c: Call, rest: seq<Call>)
    requires floor <= c.now && InRange(c.now) && (Overflows(s, c) ==> c.later > s.timestamp && InRange(c.later))
    requires Timely(After(s, c), TimeOf(s, c), rest)
    ensures Timely(s, floor, [c] + rest)
  {
    assert ([c] + rest)[1..] == rest;
  }

  /** The rest of a burst that ends with the call that waits, followed by calls after the wait. */
  lemma {:induction false} BurstTimely(s: State, t: uint64, n: nat, later: seq<Call>)
    requires InRange(t) && InRange(t + 1) && s.timestamp == t && n > 0 && s.number + n == NUMBER_MAX + 1
    requires Timely(State(t, s.workerId, NUMBER_MAX + 1), t + 1, later)
    ensures Timely(s, t, Burst(t, n) + later)
    decreases n
  {
    hide Timely;
    var c := Call(t, t + 1);
    assert Burst(t, n) + later == [c] + (Burst(t, n - 1) + later);
    if n > 1 {
      BurstTimely(After(s, c), t, n - 1, later);
    } else {
      assert Burst(t, 0) + later == later;
      assert After(s, c) == State(t, s.workerId, NUMBER_MAX + 1);
    }
    TimelyFirst(s, t, c, Burst(t, n - 1) + later);
  }

  /** A fresh worker's first 4097 calls in one millisecond: the last one waits. */
  lemma CrowdedStart(workerId: uint64, t: uint64, n: nat, later: seq<Call>)
    requires workerId <= WORKER_MAX && InRange(t) && InRange(t + 1) && n == NUMBER_MAX + 2
    requires Timely(State(t, workerId, NUMBER_MAX + 1), t + 1, later)
    ensures var calls := Burst(t, n) + later;
            && Timely(Initial(workerId), 0, calls)
            && CountNow(calls[..n], t) == n
  {
    hide Timely;
    var s, c, calls := Initial(workerId), Call(t, t + 1), Burst(t, n) + later;
    assert calls == [c] + (Burst(t, n - 1) + later);
    BurstTimely(After(s, c), t, n - 1, later);
    TimelyFirst(s, 0, c, Burst(t, n - 1) + later);
    CountAll(calls[..n], t);
  }
}
