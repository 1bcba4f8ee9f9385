/** When a group counts as part of the cluster (service/index_service.go Register and Close,
    service/service_hub.go Register, UnRegister, GetServiceEndpoints): endpoints are etcd keys, a
    group's endpoints are looked up by a prefix without a closing slash, and the group counter moves
    when the lookup says the first endpoint came or the last one went. Here calls run one at a time. */
module Membership {
  import opened GoBase
  import GroupLock

  const SLASH: Byte := '/' as int

  function Ascii(s: string): (r: Str)
    requires forall i :: 0 <= i < |s| ==> s[i] as int < 128
    ensures |r| == |s| && forall i :: 0 <= i < |s| ==> r[i] == s[i] as int
  {
    seq(|s|, i requires 0 <= i < |s| => s[i] as int)
  }

  /** The names below the root that are not groups. */
  const COUNTER_NAME: Str := Ascii("total-shards")
  const LOCK_NAME: Str := Ascii("group-lock")

  /** Everything is stored below the root, which names the index. */
  function Key(root: Str, group: Str, endpoint: Str): Str {
    root + group + [SLASH] + endpoint
  }

  /** The endpoint keys, and the counter key. */
  datatype State = State(keys: set<Str>, counter: Option<int>)

  const FRESH := State({}, None)

  predicate IsPrefix(p: Str, s: Str) { p <= s }

  function Stored(s: State, root: Str): set<Str> {
    s.keys + if s.counter.Some? then {root + COUNTER_NAME} else {}
  }

  function Under(stored: set<Str>, root: Str, group: Str): set<Str> {
    set k | k in stored && IsPrefix(root + group, k)
  }

  /** What a lookup of the group's endpoints returns. */
  function Lookup(s: State, root: Str, group: Str): set<Str> {
    Under(Stored(s, root), root, group)
  }

  /** A heartbeat is a put without a count, as is a registration whose lookup fails. An endpoint
      lapses when its worker has crashed and its lease runs out. */
  datatype Op =
    | Register(group: Str, endpoint: Str)
    | Heartbeat(group: Str, endpoint: Str)
    | Close(group: Str, endpoint: Str)
    | Lapse(group: Str, endpoint: Str)

  function KeysAfter(s: State, root: Str, op: Op): set<Str> {
    if op.Register? || op.Heartbeat? then s.keys + {Key(root, op.group, op.endpoint)}
    else s.keys - {Key(root, op.group, op.endpoint)}
  }

  /** The counter, too, is read by its prefix, and the first key found is taken for it: the counter's
      own if there is one, as it sorts first. An endpoint's key has no number in it, and then nothing
      is written. Subtracting panics if no key is found. Otherwise the effect is that of the locked
      call running alone. */
  function Recount(s: State, root: Str, job: GroupLock.Job): Outcome<State> {
    if s.counter.None? && Under(s.keys, root, COUNTER_NAME) != {} then Returned(s)
    else if s.counter.None? && job.SubGroup? then Panic
    else Returned(s.(counter := GroupLock.Outcome(job, s.counter).0))
  }

  /** The first half of a call: the put or delete. */
  function Begin(s: State, root: Str, op: Op): State {
    s.(keys := KeysAfter(s, root, op))
  }

  /** The second half: the lookup, and the count if the first endpoint came or the last one went. */
  function Finish(s: State, root: Str, op: Op): Outcome<State> {
    match op
    case Register(group, _) =>
      if |Lookup(s, root, group)| == 1 then Recount(s, root, GroupLock.AddGroup) else Returned(s)
    case Close(group, _) =>
      if |Lookup(s, root, group)| == 0 then Recount(s, root, GroupLock.SubGroup) else Returned(s)
    case _ => Returned(s)
  }

  function Do(s: State, root: Str, op: Op): Outcome<State> {
    Finish(Begin(s, root, op), root, op)
  }

  /** A call does no harm if its group has another endpoint; otherwise a registration must be of a
      new endpoint, a heartbeat and a closing of a registered one, and no registered one may lapse.
      A process that registers once, beats while it is registered and closes once does no harm. */
  predicate Harmless(s: State, root: Str, op: Op) {
    var key := Key(root, op.group, op.endpoint);
    || Lookup(s, root, op.group) - {key} != {}
    || (if op.Register? || op.Lapse? then key !in s.keys else key in s.keys)
  }

  // ----- Groups with endpoints -----

  ghost predicate HasEndpoint(keys: set<Str>, root: Str, group: Str) {
    exists e :: Key(root, group, e) in keys
  }

  ghost function LiveGroups(keys: set<Str>, root: Str, names: set<Str>): set<Str> {
    set g | g in names && HasEndpoint(keys, root, g)
  }

  /** The counter is right: it is the number of groups with an endpoint. */
  ghost predicate Accurate(s: State, root: Str, names: set<Str>) {
    GroupLock.Value(s.counter) == |LiveGroups(s.keys, root, names)|
  }

  ghost predicate SlashFree(names: set<Str>) {
    forall g :: g in names ==> SLASH !in g
  }

  /** A name without a slash that neither begins the counter's nor begins with it. */
  predicate PlainName(g: Str) {
    SLASH !in g && !IsPrefix(g, COUNTER_NAME) && !IsPrefix(COUNTER_NAME, g)
  }

  ghost predicate PlainNames(names: set<Str>) {
    forall g :: g in names ==> PlainName(g)
  }

  predicate PrefixFree(names: set<Str>) {
    forall g, h :: g in names && h in names && IsPrefix(g, h) ==> g == h
  }

  ghost predicate IsKey(root: Str, names: set<Str>, k: Str) {
    exists g, e :: g in names && k == Key(root, g, e)
  }

  ghost predicate Inv(s: State, root: Str, names: set<Str>) {
    && (forall k :: k in s.keys ==> IsKey(root, names, k))
    && (s.counter.Some? ==> s.counter.value > 0)
    && Accurate(s, root, names)
  }

  // ----- The lookup -----

  lemma PrefixBelow(root: Str, p: Str, s: Str)
    ensures IsPrefix(root + p, root + s) <==> IsPrefix(p, s)
  {
    if IsPrefix(p, s) {
      assert s == p + s[|p|..];
      assert root + s == (root + p) + s[|p|..];
    }
    if IsPrefix(root + p, root + s) {
      forall i | 0 <= i < |p| ensures p[i] == s[i] {
        assert (root + p)[|root| + i] == (root + s)[|root| + i];
      }
    }
  }

  /** A lookup of g finds the keys of h exactly when g is a prefix of h. */
  lemma LookupMatches(root: Str, g: Str, h: Str, e: Str)
    requires SLASH !in g
    ensures IsPrefix(root + g, Key(root, h, e)) <==> IsPrefix(g, h)
  {
    var s := h + [SLASH] + e;
    assert Key(root, h, e) == root + s;
    PrefixBelow(root, g, s);
    assert s[|h|] == SLASH;
    assert IsPrefix(g, s) ==> forall i :: 0 <= i < |g| ==> g[i] == s[i];
    if IsPrefix(g, h) {
      assert s == g + s[|g|..] by {
        assert forall i :: 0 <= i < |g| ==> g[i] == h[i] == s[i];
      }
    }
  }

  lemma KeyInjective(root: Str, g: Str, e: Str, h: Str, f: Str)
    requires SLASH !in g && SLASH !in h && Key(root, g, e) == Key(root, h, f)
    ensures g == h && e == f
  {
    LookupMatches(root, g, g, e);
    LookupMatches(root, g, h, f);
    LookupMatches(root, h, h, f);
    LookupMatches(root, h, g, e);
    assert g == h;
    var n := |root| + |g| + 1;
    assert Key(root, g, e)[n..] == e && Key(root, h, f)[n..] == f;
  }

  /** When names are prefix-free, a group's lookup returns exactly its own endpoints' keys. */
  lemma LookupExact(s: State, root: Str, names: set<Str>, group: Str)
    requires PrefixFree(names) && group in names && PlainNames(names)
    requires forall k :: k in s.keys ==> IsKey(root, names, k)
    ensures forall k :: k in Lookup(s, root, group) <==> k in s.keys && exists e :: k == Key(root, group, e)
  {
    PrefixBelow(root, group, COUNTER_NAME);
    forall k | k in s.keys
      ensures IsPrefix(root + group, k) <==> exists e :: k == Key(root, group, e)
    {
      var h, e :| h in names && k == Key(root, h, e);
      LookupMatches(root, group, h, e);
      forall f | k == Key(root, group, f) ensures IsPrefix(root + group, k) {
        LookupMatches(root, group, group, f);
      }
    }
  }

  /** Whether somebody holds the lock makes no difference to a lookup, unless the group's name begins
      the lock's. */
  lemma LockUnseen(s: State, root: Str, group: Str)
    requires root + LOCK_NAME !in Stored(s, root)
    ensures Under(Stored(s, root) + {root + LOCK_NAME}, root, group) == Lookup(s, root, group) <==>
              !IsPrefix(group, LOCK_NAME)
  {
    PrefixBelow(root, group, LOCK_NAME);
    assert IsPrefix(group, LOCK_NAME) ==>
      root + LOCK_NAME in Under(Stored(s, root) + {root + LOCK_NAME}, root, group);
  }

  /** When names are plain, the counter's read finds the counter and nothing else. */
  lemma CounterReadExact(s: State, root: Str, names: set<Str>)
    requires PlainNames(names) && forall k :: k in s.keys ==> IsKey(root, names, k)
    ensures Under(Stored(s, root), root, COUNTER_NAME) == if s.counter.Some? then {root + COUNTER_NAME} else {}
    ensures Under(s.keys, root, COUNTER_NAME) == {}
  {
    forall k | k in s.keys ensures !IsPrefix(root + COUNTER_NAME, k) {
      var g, e :| g in names && k == Key(root, g, e);
      LookupMatches(root, COUNTER_NAME, g, e);
    }
  }

  lemma LiveIffFound(s: State, root: Str, names: set<Str>, group: Str)
    requires PrefixFree(names) && group in names && PlainNames(names)
    requires forall k :: k in s.keys ==> IsKey(root, names, k)
    ensures HasEndpoint(s.keys, root, group) <==> Lookup(s, root, group) != {}
  {
    LookupExact(s, root, names, group);
    if HasEndpoint(s.keys, root, group) {
      var e :| Key(root, group, e) in s.keys;
      assert Key(root, group, e) in Lookup(s, root, group);
    }
    if Lookup(s, root, group) != {} {
      var k :| k in Lookup(s, root, group);
    }
  }

  /** What the lookup returns after an endpoint's key was put or deleted. */
  lemma LookupAfter(s: State, root: Str, names: set<Str>, group: Str, e: Str)
    requires group in names && PlainNames(names)
    ensures var key := Key(root, group, e);
            && Lookup(s.(keys := s.keys + {key}), root, group) == Lookup(s, root, group) + {key}
            && Lookup(s.(keys := s.keys - {key}), root, group) == Lookup(s, root, group) - {key}
            && (key in Lookup(s, root, group) <==> key in s.keys)
  {
    LookupMatches(root, group, group, e);
    PrefixBelow(root, group, COUNTER_NAME);
  }

  // ----- The counter after one call -----

  lemma LiveElsewhere(keys: set<Str>, keys': set<Str>, root: Str, names: set<Str>, group: Str, e: Str)
    requires group in names && PlainNames(names)
    requires keys' == keys + {Key(root, group, e)} || keys' == keys - {Key(root, group, e)}
    ensures forall g :: g in names && g != group ==> HasEndpoint(keys', root, g) == HasEndpoint(keys, root, g)
  {
    var key := Key(root, group, e);
    forall g, f | g in names && g != group ensures Key(root, g, f) in keys' <==> Key(root, g, f) in keys {
      if Key(root, g, f) == key { KeyInjective(root, g, f, group, e); }
    }
    forall g | g in names && g != group ensures HasEndpoint(keys', root, g) == HasEndpoint(keys, root, g) {
      if HasEndpoint(keys, root, g) {
        var f :| Key(root, g, f) in keys;
        assert Key(root, g, f) in keys';
      }
      if HasEndpoint(keys', root, g) {
        var f :| Key(root, g, f) in keys';
        assert Key(root, g, f) in keys;
      }
    }
  }

  /** How many groups are live after a change to one group's endpoints. */
  lemma LiveCount(keys: set<Str>, keys': set<Str>, root: Str, names: set<Str>, group: Str)
    requires group in names
    requires forall g :: g in names && g != group ==> HasEndpoint(keys', root, g) == HasEndpoint(keys, root, g)
    ensures |LiveGroups(keys', root, names)| ==
              |LiveGroups(keys, root, names)|
              + (if HasEndpoint(keys', root, group) then 1 else 0) - (if HasEndpoint(keys, root, group) then 1 else 0)
  {
    var a, b := LiveGroups(keys, root, names), LiveGroups(keys', root, names);
    assert b - {group} == a - {group};
    assert group in a ==> a == (a - {group}) + {group};
    assert group in b ==> b == (b - {group}) + {group};
    assert group !in a ==> a == a - {group};
    assert group !in b ==> b == b - {group};
  }

  lemma SingletonSize<T>(s: set<T>, x: T)
    requires x in s
    ensures |s| == 1 <==> forall y :: y in s ==> y == x
  {
    assert s == (s - {x}) + {x};
    if |s| == 1 {
      assert |s - {x}| == 0;
      assert forall y :: y in s && y != x ==> y in s - {x};
    }
    if forall y :: y in s ==> y == x { assert s == {x}; }
  }

  /** The keys after a call, and how many groups are live then. */
  lemma LiveCountAfter(s: State, root: Str, names: set<Str>, op: Op)
    requires PrefixFree(names) && PlainNames(names) && op.group in names
    requires forall k :: k in s.keys ==> IsKey(root, names, k)
    ensures forall k :: k in KeysAfter(s, root, op) ==> IsKey(root, names, k)
    ensures var t := s.(keys := KeysAfter(s, root, op));
            |LiveGroups(t.keys, root, names)| ==
              |LiveGroups(s.keys, root, names)|
              + (if Lookup(t, root, op.group) != {} then 1 else 0) - (if Lookup(s, root, op.group) != {} then 1 else 0)
  {
    hide LiveGroups, HasEndpoint, Lookup, PrefixFree;
    var t := s.(keys := KeysAfter(s, root, op));
    forall k | k in t.keys ensures IsKey(root, names, k) {
      assert IsKey(root, names, Key(root, op.group, op.endpoint));
    }
    LiveElsewhere(s.keys, t.keys, root, names, op.group, op.endpoint);
    LiveCount(s.keys, t.keys, root, names, op.group);
    LiveIffFound(s, root, names, op.group);
    LiveIffFound(t, root, names, op.group);
  }

  /** The second half of a call, when the counter's read finds no endpoint. */
  lemma FinishCounts(s: State, root: Str, names: set<Str>, op: Op)
    requires PlainNames(names) && forall k :: k in s.keys ==> IsKey(root, names, k)
    ensures Finish(s, root, op) ==
              if op.Register? && |Lookup(s, root, op.group)| == 1 then
                Returned(s.(counter := GroupLock.Outcome(GroupLock.AddGroup, s.counter).0))
              else if op.Close? && Lookup(s, root, op.group) == {} then
                if s.counter.None? then Panic
                else Returned(s.(counter := GroupLock.Outcome(GroupLock.SubGroup, s.counter).0))
              else Returned(s)
  {
    hide Lookup, PlainNames, IsKey;
    CounterReadExact(s, root, names);
  }

  lemma WithAndWithout<T>(found: set<T>, key: T)
    ensures |found + {key}| == 1 <==> found - {key} == {}
    ensures found != {} <==> key in found || found - {key} != {}
    ensures key !in found ==> found - {key} == found
    ensures |found - {key}| == 0 <==> found - {key} == {}
  {
    SingletonSize(found + {key}, key);
    if found - {key} != {} {
      var other :| other in found - {key};
      assert other in found + {key} && other != key;
    }
  }

  /** A whole call counts if its group has no other endpoint. */
  lemma DoCounts(s: State, root: Str, names: set<Str>, op: Op)
    requires PlainNames(names) && op.group in names && forall k :: k in s.keys ==> IsKey(root, names, k)
    ensures var t := Begin(s, root, op);
            Do(s, root, op) ==
              if op.Heartbeat? || op.Lapse? || Lookup(s, root, op.group) - {Key(root, op.group, op.endpoint)} != {} then
                Returned(t)
              else if op.Register? then Returned(t.(counter := GroupLock.Outcome(GroupLock.AddGroup, s.counter).0))
              else if s.counter.None? then Panic
              else Returned(t.(counter := GroupLock.Outcome(GroupLock.SubGroup, s.counter).0))
  {
    hide Lookup, PlainNames, Finish, Key;
    BeginKeepsKeys(s, root, names, op);
    FinishCounts(Begin(s, root, op), root, names, op);
    LookupAfter(s, root, names, op.group, op.endpoint);
    WithAndWithout(Lookup(s, root, op.group), Key(root, op.group, op.endpoint));
  }

  lemma BeginKeepsKeys(s: State, root: Str, names: set<Str>, op: Op)
    requires op.group in names && forall k :: k in s.keys ==> IsKey(root, names, k)
    ensures forall k :: k in Begin(s, root, op).keys ==> IsKey(root, names, k)
  {
    assert IsKey(root, names, Key(root, op.group, op.endpoint));
  }

  /** For prefix-free names and an accurate counter, a call returns and leaves the counter accurate
      exactly when it does no harm. */
  lemma AccurateIffHarmless(s: State, root: Str, names: set<Str>, op: Op)
    requires PrefixFree(names) && PlainNames(names) && op.group in names && Inv(s, root, names)
    ensures Do(s, root, op).Returned? && Inv(Do(s, root, op).value, root, names) <==> Harmless(s, root, op)
  {
    hide LiveGroups, Lookup, PrefixFree, PlainNames, IsKey, Key, Do;
    var key, found := Key(root, op.group, op.endpoint), Lookup(s, root, op.group);
    LiveCountAfter(s, root, names, op);
    DoCounts(s, root, names, op);
    LookupAfter(s, root, names, op.group, op.endpoint);
    WithAndWithout(found, key);
  }

  // ----- The counter in every run -----

  ghost predicate HarmlessRun(s: State, root: Str, names: set<Str>, ops: seq<Op>)
    decreases |ops|
  {
    ops != [] ==>
      && ops[0].group in names && Harmless(s, root, ops[0])
      && (Do(s, root, ops[0]).Returned? ==> HarmlessRun(Do(s, root, ops[0]).value, root, names, ops[1..]))
  }

  /** No call panics, and the counter is accurate after every one. */
  ghost predicate AccurateRun(s: State, root: Str, names: set<Str>, ops: seq<Op>)
    decreases |ops|
  {
    ops != [] ==>
      && Do(s, root, ops[0]).Returned?
      && Inv(Do(s, root, ops[0]).value, root, names)
      && AccurateRun(Do(s, root, ops[0]).value, root, names, ops[1..])
  }

  function Run(s: State, root: Str, ops: seq<Op>): Outcome<State>
    decreases |ops|
  {
    if ops == [] then Returned(s)
    else
      match Do(s, root, ops[0])
      case Panic => Panic
      case Returned(t) => Run(t, root, ops[1..])
  }

  lemma {:induction false} RunKeepsInv(s: State, root: Str, names: set<Str>, ops: seq<Op>)
    requires PrefixFree(names) && PlainNames(names)
    requires Inv(s, root, names) && HarmlessRun(s, root, names, ops)
    ensures Run(s, root, ops).Returned? && Inv(Run(s, root, ops).value, root, names)
    decreases |ops|
  {
    hide Inv, Harmless, Do, PrefixFree, PlainNames;
    if ops != [] {
      AccurateIffHarmless(s, root, names, ops[0]);
      RunKeepsInv(Do(s, root, ops[0]).value, root, names, ops[1..]);
    }
  }

  /** The counter stays accurate throughout a run, and no call panics, exactly when every call does
      no harm. */
  lemma {:induction false} AccurateRunIffHarmless(s: State, root: Str, names: set<Str>, ops: seq<Op>)
    requires PrefixFree(names) && PlainNames(names) && Inv(s, root, names)
    requires forall i :: 0 <= i < |ops| ==> ops[i].group in names
    ensures AccurateRun(s, root, names, ops) <==> HarmlessRun(s, root, names, ops)
    decreases |ops|
  {
    hide Inv, Harmless, Do, PrefixFree, PlainNames;
    if ops != [] {
      AccurateIffHarmless(s, root, names, ops[0]);
      if Harmless(s, root, ops[0]) {
        AccurateRunIffHarmless(Do(s, root, ops[0]).value, root, names, ops[1..]);
      }
    }
  }

  lemma FreshInv(root: Str, names: set<Str>)
    ensures Inv(FRESH, root, names)
  {
    assert LiveGroups({}, root, names) == {};
  }

  /** For prefix-free names, after every run of harmless calls the counter is the number of groups
      with an endpoint, no call has panicked, and every lookup returns exactly the group's own
      endpoints. */
  lemma CounterIsGroups(root: Str, names: set<Str>, ops: seq<Op>)
    requires PrefixFree(names) && PlainNames(names)
    requires HarmlessRun(FRESH, root, names, ops)
    ensures Run(FRESH, root, ops).Returned?
    ensures var s := Run(FRESH, root, ops).value;
            && Accurate(s, root, names)
            && forall g, k :: g in names ==>
                 (k in Lookup(s, root, g) <==> k in s.keys && exists e :: k == Key(root, g, e))
  {
    FreshInv(root, names);
    RunKeepsInv(FRESH, root, names, ops);
    var s := Run(FRESH, root, ops).value;
    forall g | g in names
      ensures forall k :: k in Lookup(s, root, g) <==> k in s.keys && exists e :: k == Key(root, g, e)
    {
      LookupExact(s, root, names, g);
    }
  }

  /** Prefix-freedom is needed: whenever one group's name begins another's, registering one
      endpoint of each, the longer name first, leaves the counter at one. */
  lemma PrefixMiscounts(root: Str, names: set<Str>, g: Str, h: Str, e: Str)
    requires PlainNames(names)
    requires g in names && h in names && g != h && IsPrefix(g, h)
    ensures var ops := [Register(h, e), Register(g, e)];
            && HarmlessRun(FRESH, root, names, ops)
            && Run(FRESH, root, ops).Returned?
            && !Accurate(Run(FRESH, root, ops).value, root, names)
  {
    var ops := [Register(h, e), Register(g, e)];
    var kh, kg := Key(root, h, e), Key(root, g, e);
    if kh == kg { KeyInjective(root, h, e, g, e); }
    FirstRegistration(root, h, e);
    UnseenRegistration(root, g, h, e);
    var s1, s2 := State({kh}, Some(1)), State({kh, kg}, Some(1));
    assert ops[1..][1..] == [] && ops[1..][0] == ops[1];
    assert Run(s2, root, []) == Returned(s2);
    assert Run(s1, root, ops[1..]) == Returned(s2);
    TwoLive(s2.keys, root, names, g, h, e);
  }

  lemma FirstRegistration(root: Str, h: Str, e: Str)
    requires PlainName(h)
    ensures Do(FRESH, root, Register(h, e)) == Returned(State({Key(root, h, e)}, Some(1)))
  {
    var t := State({Key(root, h, e)}, None);
    LookupMatches(root, h, h, e);
    LookupMatches(root, COUNTER_NAME, h, e);
    assert {} + {Key(root, h, e)} == t.keys;
    assert Lookup(t, root, h) == {Key(root, h, e)};
  }

  /** The lookup of g finds h's endpoint too, so g does not look new. */
  lemma UnseenRegistration(root: Str, g: Str, h: Str, e: Str)
    requires PlainName(g) && IsPrefix(g, h) && Key(root, g, e) != Key(root, h, e)
    ensures Do(State({Key(root, h, e)}, Some(1)), root, Register(g, e)) ==
              Returned(State({Key(root, h, e), Key(root, g, e)}, Some(1)))
  {
    var kh, kg := Key(root, h, e), Key(root, g, e);
    var t := State({kh, kg}, Some(1));
    LookupMatches(root, g, h, e);
    LookupMatches(root, g, g, e);
    PrefixBelow(root, g, COUNTER_NAME);
    assert {kh} + {kg} == t.keys;
    assert Lookup(t, root, g) == {kh, kg};
  }

  lemma TwoLive(keys: set<Str>, root: Str, names: set<Str>, g: Str, h: Str, e: Str)
    requires g in names && h in names && g != h && Key(root, g, e) in keys && Key(root, h, e) in keys
    ensures |LiveGroups(keys, root, names)| >= 2
  {
    assert HasEndpoint(keys, root, g) && HasEndpoint(keys, root, h);
    SubsetSize({g, h}, LiveGroups(keys, root, names));
  }

  /** A name that begins with the counter's: its endpoint is taken for the counter, and the group is
      never counted. */
  lemma CounterNameMiscounts(root: Str, names: set<Str>, g: Str, e: Str)
    requires g in names && SLASH !in g && IsPrefix(COUNTER_NAME, g)
    ensures HarmlessRun(FRESH, root, names, [Register(g, e)])
    ensures Run(FRESH, root, [Register(g, e)]) == Returned(State({Key(root, g, e)}, None))
    ensures !Accurate(State({Key(root, g, e)}, None), root, names)
  {
    var key, ops := Key(root, g, e), [Register(g, e)];
    LookupMatches(root, g, g, e);
    LookupMatches(root, COUNTER_NAME, g, e);
    var t := State({key}, None);
    assert {} + {key} == t.keys && Lookup(t, root, g) == {key} && key in Under(t.keys, root, COUNTER_NAME);
    assert Do(FRESH, root, ops[0]) == Returned(t) && ops[1..] == [];
    assert HasEndpoint(t.keys, root, g);
    assert g in LiveGroups(t.keys, root, names);
  }

  /** A shorter name that begins the counter's: the counter is taken for another endpoint when the last
      one closes. */
  lemma ShortNameMiscounts(root: Str, names: set<Str>, g: Str, e: Str)
    requires g in names && SLASH !in g && IsPrefix(g, COUNTER_NAME) && g != COUNTER_NAME
    ensures HarmlessRun(FRESH, root, names, [Register(g, e), Close(g, e)])
    ensures Run(FRESH, root, [Register(g, e), Close(g, e)]) == Returned(State({}, Some(1)))
    ensures !Accurate(State({}, Some(1)), root, names)
  {
    var key, ops := Key(root, g, e), [Register(g, e), Close(g, e)];
    LookupMatches(root, g, g, e);
    LookupMatches(root, COUNTER_NAME, g, e);
    PrefixBelow(root, g, COUNTER_NAME);
    assert !IsPrefix(COUNTER_NAME, g);
    var s1, s2 := State({key}, Some(1)), State({}, Some(1));
    assert {} + {key} == s1.keys && {key} - {key} == s2.keys;
    assert Lookup(State({key}, None), root, g) == {key};
    assert root + COUNTER_NAME in Lookup(s2, root, g);
    assert Do(FRESH, root, ops[0]) == Returned(s1) && Do(s1, root, ops[1]) == Returned(s2);
    assert ops[1..][0] == ops[1] && ops[1..][1..] == [];
    assert Run(s1, root, ops[1..]) == Returned(s2);
    assert LiveGroups({}, root, names) == {};
  }

  /** The counter is right after every run of harmless calls. */
  ghost predicate AlwaysRight(root: Str, names: set<Str>) {
    forall ops :: HarmlessRun(FRESH, root, names, ops) ==>
      Run(FRESH, root, ops).Returned? && Accurate(Run(FRESH, root, ops).value, root, names)
  }

  /** That is so exactly when no group's name begins another's, begins the counter's or begins with the
      counter's. */
  lemma AlwaysRightIff(root: Str, names: set<Str>)
    requires SlashFree(names)
    ensures AlwaysRight(root, names) <==> PrefixFree(names) && PlainNames(names)
  {
    hide HarmlessRun, Run, Accurate, IsPrefix;
    if PrefixFree(names) && PlainNames(names) {
      forall ops | HarmlessRun(FRESH, root, names, ops)
        ensures Run(FRESH, root, ops).Returned? && Accurate(Run(FRESH, root, ops).value, root, names)
      {
        CounterIsGroups(root, names, ops);
      }
    } else if !PlainNames(names) {
      var g :| g in names && !PlainName(g);
      if IsPrefix(COUNTER_NAME, g) {
        CounterNameMiscounts(root, names, g, []);
      } else {
        OwnPrefix(COUNTER_NAME);
        ShortNameMiscounts(root, names, g, []);
      }
    } else {
      var g, h :| g in names && h in names && IsPrefix(g, h) && g != h;
      PrefixMiscounts(root, names, g, h, []);
    }
  }

  lemma OwnPrefix(p: Str)
    ensures IsPrefix(p, p)
  {
  }

  // ----- Calls that do harm -----

  /** A process that registers again without having closed, as the only endpoint of its group,
      counts the group twice. */
  lemma ReRegisterMiscounts(s: State, root: Str, names: set<Str>, g: Str, e: Str)
    requires PrefixFree(names) && PlainNames(names) && g in names
    requires Inv(s, root, names) && Lookup(s, root, g) == {Key(root, g, e)}
    ensures Do(s, root, Register(g, e)).Returned?
    ensures var s' := Do(s, root, Register(g, e)).value;
            s'.keys == s.keys && GroupLock.Value(s'.counter) == |LiveGroups(s'.keys, root, names)| + 1
  {
    hide LiveGroups, PrefixFree, PlainNames, Lookup, Do, Key;
    var key := Key(root, g, e);
    DoCounts(s, root, names, Register(g, e));
    LookupAfter(s, root, names, g, e);
    assert s.keys + {key} == s.keys && {key} - {key} == {};
  }

  /** A heartbeat that comes after the group's last endpoint has closed brings the endpoint back
      uncounted. */
  lemma LateHeartbeatMiscounts(s: State, root: Str, names: set<Str>, g: Str, e: Str)
    requires PlainNames(names) && g in names
    requires Inv(s, root, names) && !HasEndpoint(s.keys, root, g)
    ensures Do(s, root, Heartbeat(g, e)).Returned?
    ensures var s' := Do(s, root, Heartbeat(g, e)).value;
            HasEndpoint(s'.keys, root, g) && GroupLock.Value(s'.counter) == |LiveGroups(s'.keys, root, names)| - 1
  {
    hide LiveGroups;
    var keys := s.keys + {Key(root, g, e)};
    LiveElsewhere(s.keys, keys, root, names, g, e);
    LiveCount(s.keys, keys, root, names, g);
    assert Key(root, g, e) in keys;
  }

  /** A process whose registration has failed closes nevertheless. In a group without endpoints this
      takes another group's count away, and panics if there is none. */
  lemma CloseAfterFailedRegister(s: State, root: Str, names: set<Str>, g: Str, e: Str)
    requires PrefixFree(names) && PlainNames(names) && g in names
    requires Inv(s, root, names) && Lookup(s, root, g) == {}
    ensures s.counter == None <==> Do(s, root, Close(g, e)).Panic?
    ensures s.counter.Some? ==>
              var s' := Do(s, root, Close(g, e)).value;
              s'.keys == s.keys && GroupLock.Value(s'.counter) == |LiveGroups(s'.keys, root, names)| - 1
  {
    hide LiveGroups, PrefixFree, PlainNames, Lookup, IsKey, Key, Do;
    DoCounts(s, root, names, Close(g, e));
    LookupAfter(s, root, names, g, e);
    assert {} - {Key(root, g, e)} == {};
    assert s.keys - {Key(root, g, e)} == s.keys;
  }

  /** Closing what was never registered, in a group without endpoints. */
  lemma CloseUnregistered(root: Str, g: Str, h: Str, e: Str, f: Str)
    requires PlainName(g) && !IsPrefix(g, h)
    ensures Do(State({Key(root, h, e)}, Some(1)), root, Close(g, f)) == Returned(State({Key(root, h, e)}, None))
  {
    var key, s := Key(root, h, e), State({Key(root, h, e)}, Some(1));
    LookupMatches(root, g, h, e);
    LookupMatches(root, g, g, f);
    PrefixBelow(root, g, COUNTER_NAME);
    assert {key} - {Key(root, g, f)} == {key};
    assert Lookup(s, root, g) == {};
  }

  /** Closing the last endpoint when the counter is gone. */
  lemma CloseUncounted(root: Str, h: Str, e: Str)
    ensures Do(State({Key(root, h, e)}, None), root, Close(h, e)) == Panic
  {
    assert {Key(root, h, e)} - {Key(root, h, e)} == {};
    assert Lookup(State({}, None), root, h) == {};
  }

  /** For any two groups: the only worker of h registers, a worker of g fails to register and
      closes, and then h's worker cannot close. */
  lemma FailedRegisterBreaksClose(root: Str, g: Str, h: Str, e: Str, f: Str)
    requires PlainName(g) && PlainName(h) && !IsPrefix(g, h) && !IsPrefix(h, g)
    ensures Run(FRESH, root, [Register(h, e), Close(g, f)]) == Returned(State({Key(root, h, e)}, None))
    ensures Run(FRESH, root, [Register(h, e), Close(g, f), Close(h, e)]) == Panic
  {
    hide Do, IsPrefix, Key;
    var key := Key(root, h, e);
    var s1, s2 := State({key}, Some(1)), State({key}, None);
    FirstRegistration(root, h, e);
    CloseUnregistered(root, g, h, e, f);
    CloseUncounted(root, h, e);
    var two, three := [Register(h, e), Close(g, f)], [Register(h, e), Close(g, f), Close(h, e)];
    assert two[1..] == [Close(g, f)] && two[1..][1..] == [];
    assert three[1..] == [Close(g, f), Close(h, e)] && three[1..][1..] == [Close(h, e)];
    assert Run(s1, root, [Close(g, f)]) == Returned(s2);
    assert Run(s1, root, [Close(g, f), Close(h, e)]) == Run(s2, root, [Close(h, e)]) == Panic;
  }

  // ----- The calls, step by step -----

  /** The registry that all workers share. A subtraction that panics has already removed the key. */
  class Registry {
    const root: Str
    var keys: set<Str>
    var counter: Option<int>

    function Contents(): State
      reads this
    {
      State(keys, counter)
    }

    constructor (root: Str)
      ensures this.root == root && Contents() == FRESH
    {
      this.root := root;
      keys, counter := {}, None;
    }

    method Register(group: Str, endpoint: Str)
      modifies this
      ensures Do(old(Contents()), root, Op.Register(group, endpoint)) == Returned(Contents())
    {
      keys := keys + {Key(root, group, endpoint)};
      var found := Lookup(Contents(), root, group);
      if |found| == 1 {
        var read := Under(Stored(Contents(), root), root, COUNTER_NAME);
        if counter.Some? || read == {} {
          counter := GroupLock.Outcome(GroupLock.AddGroup, counter).0;
        }
      }
    }

    method Close(group: Str, endpoint: Str) returns (panics: bool)
      modifies this
      ensures panics <==> Do(old(Contents()), root, Op.Close(group, endpoint)) == Panic
      ensures !panics ==> Do(old(Contents()), root, Op.Close(group, endpoint)) == Returned(Contents())
      ensures panics ==> keys == old(keys) - {Key(root, group, endpoint)} && counter == old(counter)
    {
      keys := keys - {Key(root, group, endpoint)};
      var found := Lookup(Contents(), root, group);
      if |found| == 0 {
        var read := Under(Stored(Contents(), root), root, COUNTER_NAME);
        if read == {} {
          return true;
        }
        if counter.Some? {
          counter := GroupLock.Outcome(GroupLock.SubGroup, counter).0;
        }
      }
      panics := false;
    }
  }
}
