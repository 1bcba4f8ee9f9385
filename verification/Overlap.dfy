/** Two registrations or closings at once (service/index_service.go Register and Close): each is a put or
    delete and then a lookup that may count, and other calls can come in between. */
module Overlap {
  import opened GoBase
  import opened Membership
  import GroupLock

  function BothBegun(s: State, root: Str, a: Op, b: Op): State {
    Begin(Begin(s, root, a), root, b)
  }

  /** Both calls have begun before either looks up; a looks up first. */
  function Together(s: State, root: Str, a: Op, b: Op): Outcome<State> {
    match Finish(BothBegun(s, root, a, b), root, a)
    case Panic => Panic
    case Returned(t) => Finish(t, root, b)
  }

  /** Which of the two begins first makes no difference. */
  lemma BeginsCommute(s: State, root: Str, a: Op, b: Op)
    requires Key(root, a.group, a.endpoint) != Key(root, b.group, b.endpoint)
    ensures BothBegun(s, root, a, b) == BothBegun(s, root, b, a)
  {
    assert BothBegun(s, root, a, b).keys == BothBegun(s, root, b, a).keys;
  }

  predicate Counts(op: Op) { op.Register? || op.Close? }

  ghost predicate Right(r: Outcome<State>, root: Str, names: set<Str>) {
    r.Returned? && Inv(r.value, root, names)
  }

  lemma LookupIgnoresCounter(s: State, root: Str, g: Str, counter: Option<int>)
    requires PlainName(g)
    ensures Lookup(s.(counter := counter), root, g) == Lookup(s, root, g)
  {
    PrefixBelow(root, g, COUNTER_NAME);
  }

  lemma LookupElsewhere(s: State, root: Str, names: set<Str>, g: Str, op: Op)
    requires PrefixFree(names) && PlainNames(names) && g in names && op.group in names && g != op.group
    ensures Lookup(Begin(s, root, op), root, g) == Lookup(s, root, g)
  {
    LookupMatches(root, g, op.group, op.endpoint);
  }

  /** What a group's lookup returns after a call of that group has begun. */
  function Changed(found: set<Str>, root: Str, op: Op): set<Str> {
    if op.Register? || op.Heartbeat? then found + {Key(root, op.group, op.endpoint)}
    else found - {Key(root, op.group, op.endpoint)}
  }

  lemma LookupChanged(s: State, root: Str, names: set<Str>, op: Op)
    requires PlainNames(names) && op.group in names
    ensures Lookup(Begin(s, root, op), root, op.group) == Changed(Lookup(s, root, op.group), root, op)
    ensures Key(root, op.group, op.endpoint) in Lookup(s, root, op.group) <==>
              Key(root, op.group, op.endpoint) in s.keys
  {
    LookupAfter(s, root, names, op.group, op.endpoint);
  }

  /** The counter after both lookups, as the calls see the groups. */
  function CountedTwice(counter: Option<int>, a: Op, seenA: set<Str>, b: Op, seenB: set<Str>): Outcome<Option<int>> {
    match Counted(counter, a, seenA)
    case Panic => Panic
    case Returned(c) => Counted(c, b, seenB)
  }

  function Counted(counter: Option<int>, op: Op, seen: set<Str>): Outcome<Option<int>> {
    if op.Register? && |seen| == 1 then Returned(GroupLock.Outcome(GroupLock.AddGroup, counter).0)
    else if op.Close? && seen == {} then
      if counter.None? then Panic else Returned(GroupLock.Outcome(GroupLock.SubGroup, counter).0)
    else Returned(counter)
  }

  lemma TogetherCounts(s: State, root: Str, names: set<Str>, a: Op, b: Op)
    requires PlainNames(names) && a.group in names && b.group in names
    requires forall k :: k in s.keys ==> IsKey(root, names, k)
    ensures var t := BothBegun(s, root, a, b);
            var c := CountedTwice(s.counter, a, Lookup(t, root, a.group), b, Lookup(t, root, b.group));
            Together(s, root, a, b) == if c.Panic? then Panic else Returned(t.(counter := c.value))
  {
    hide Lookup, PlainName, Finish, IsKey;
    var t := BothBegun(s, root, a, b);
    BeginKeepsKeys(s, root, names, a);
    BeginKeepsKeys(Begin(s, root, a), root, names, b);
    FinishCounts(t, root, names, a);
    if Finish(t, root, a).Returned? {
      FinishCounts(Finish(t, root, a).value, root, names, b);
      LookupIgnoresCounter(t, root, b.group, Finish(t, root, a).value.counter);
    }
  }

  function One(found: set<Str>): int {
    if found != {} then 1 else 0
  }

  /** How many groups are live when both have begun. */
  lemma LiveTogether(s: State, root: Str, names: set<Str>, a: Op, b: Op)
    requires PrefixFree(names) && PlainNames(names) && a.group in names && b.group in names
    requires forall k :: k in s.keys ==> IsKey(root, names, k)
    ensures var (s1, t) := (Begin(s, root, a), BothBegun(s, root, a, b));
            && (forall k :: k in t.keys ==> IsKey(root, names, k))
            && |LiveGroups(t.keys, root, names)| ==
                 |LiveGroups(s.keys, root, names)|
                 + One(Lookup(s1, root, a.group)) - One(Lookup(s, root, a.group))
                 + One(Lookup(t, root, b.group)) - One(Lookup(s1, root, b.group))
  {
    hide Lookup, LiveGroups, IsKey, PrefixFree, PlainNames;
    LiveCountAfter(s, root, names, a);
    LiveCountAfter(Begin(s, root, a), root, names, b);
  }

  /** A harmless call alone: a registration is the only endpoint seen exactly if there was none, and a
      closing has some endpoint to leave. */
  lemma OwnEffect(s: State, root: Str, names: set<Str>, op: Op)
    requires PlainNames(names) && op.group in names && Counts(op) && Harmless(s, root, op)
    ensures var (found, seen) := (Lookup(s, root, op.group), Changed(Lookup(s, root, op.group), root, op));
            if op.Register? then seen != {} && (|seen| == 1 <==> found == {}) else found != {}
  {
    hide Lookup, PlainNames, Key;
    LookupChanged(s, root, names, op);
    WithAndWithout(Lookup(s, root, op.group), Key(root, op.group, op.endpoint));
  }

  /** Two harmless calls of different groups never disturb each other. */
  lemma DifferentGroups(s: State, root: Str, names: set<Str>, a: Op, b: Op)
    requires PrefixFree(names) && PlainNames(names) && Inv(s, root, names)
    requires a.group in names && b.group in names && a.group != b.group && Counts(a) && Counts(b)
    requires Harmless(s, root, a) && Harmless(s, root, b)
    ensures Right(Together(s, root, a, b), root, names)
  {
    hide Lookup, LiveGroups, IsKey, PrefixFree, PlainNames, Together, Key, Changed, Harmless;
    var s1 := Begin(s, root, a);
    TogetherCounts(s, root, names, a, b);
    LiveTogether(s, root, names, a, b);
    LiveCountAfter(s, root, names, a);
    LiveCountAfter(s, root, names, b);
    LookupElsewhere(s, root, names, b.group, a);
    LookupElsewhere(s1, root, names, a.group, b);
    LookupChanged(s, root, names, a);
    LookupChanged(s1, root, names, b);
    OwnEffect(s, root, names, a);
    OwnEffect(s, root, names, b);
  }

  /** Calls of different groups, or of a group with a third endpoint; or two registered endpoints that
      register again. */
  predicate Undisturbed(s: State, root: Str, a: Op, b: Op) {
    || a.group != b.group
    || Lookup(s, root, a.group) - {Key(root, a.group, a.endpoint), Key(root, b.group, b.endpoint)} != {}
    || (a.Register? && b.Register? && Lookup(s, root, a.group) != {})
  }

  /** Two different endpoints, put or deleted. */
  lemma TwoChanges(found: set<Str>, root: Str, a: Op, b: Op)
    requires a.group == b.group && Counts(a) && Counts(b)
    requires Key(root, a.group, a.endpoint) != Key(root, b.group, b.endpoint)
    ensures var (ka, kb) := (Key(root, a.group, a.endpoint), Key(root, b.group, b.endpoint));
            var (seen, others) := (Changed(Changed(found, root, a), root, b), found - {ka, kb});
            && (a.Register? && b.Register? ==> |seen| != 1 && seen != {})
            && (a.Close? && b.Close? ==> seen == others)
            && (a.Register? != b.Register? ==> seen != {} && (|seen| == 1 <==> others == {}))
  {
    var (ka, kb) := (Key(root, a.group, a.endpoint), Key(root, b.group, b.endpoint));
    var (seen, others) := (Changed(Changed(found, root, a), root, b), found - {ka, kb});
    if a.Register? {
      assert ka in seen;
      SingletonSize(seen, ka);
      assert b.Close? ==> seen == others + {ka};
    } else if b.Register? {
      SingletonSize(seen, kb);
      assert seen == others + {kb};
    } else {
      assert seen == others;
    }
  }

  lemma SameGroup(s: State, root: Str, names: set<Str>, a: Op, b: Op)
    requires PrefixFree(names) && PlainNames(names) && Inv(s, root, names)
    requires a.group in names && a.group == b.group && Counts(a) && Counts(b)
    requires Key(root, a.group, a.endpoint) != Key(root, b.group, b.endpoint)
    requires Harmless(s, root, a) && Harmless(s, root, b)
    ensures Right(Together(s, root, a, b), root, names) <==> Undisturbed(s, root, a, b)
  {
    hide Lookup, LiveGroups, IsKey, PrefixFree, PlainNames, Together, Key, Changed;
    TogetherCounts(s, root, names, a, b);
    LiveTogether(s, root, names, a, b);
    LookupChanged(s, root, names, a);
    LookupChanged(s, root, names, b);
    LookupChanged(Begin(s, root, a), root, names, b);
    TwoChanges(Lookup(s, root, a.group), root, a, b);
  }

  /** Two harmless calls that both begin before either looks up leave the counter right exactly when
      they are of different groups or of a group that has another endpoint, or both register again. */
  lemma TogetherRightIff(s: State, root: Str, names: set<Str>, a: Op, b: Op)
    requires PrefixFree(names) && PlainNames(names) && Inv(s, root, names)
    requires a.group in names && b.group in names && Counts(a) && Counts(b)
    requires Key(root, a.group, a.endpoint) != Key(root, b.group, b.endpoint)
    requires Harmless(s, root, a) && Harmless(s, root, b)
    ensures Right(Together(s, root, a, b), root, names) <==> Undisturbed(s, root, a, b)
  {
    hide Right, Together, PrefixFree, PlainNames, Inv, Harmless;
    if a.group == b.group {
      SameGroup(s, root, names, a, b);
    } else {
      DifferentGroups(s, root, names, a, b);
    }
  }
}
