/** The group names that the program uses (service/index_service.go): group- and a decimal number. */
module GroupNames {
  import opened GoBase
  import opened Membership

  function Decimal(n: nat): (r: Str)
    ensures |r| >= 1
    ensures n < 10 <==> |r| == 1
    ensures forall i :: 0 <= i < |r| ==> 48 <= r[i] <= 57
  {
    if n < 10 then [48 + n] else Decimal(n / 10) + [48 + n % 10]
  }

  const GROUP_PREFIX: Str := Ascii("group-")

  /** The number that decimal digits stand for (strconv.Atoi). */
  function Value(digits: Str): int {
    if digits == [] then 0
    else
      var last: int := digits[|digits| - 1];
      10 * Value(digits[..|digits| - 1]) + (last - 48)
  }

  /** The digits are those of the number, without a leading zero. */
  lemma {:induction false} DecimalIs(n: nat)
    ensures Value(Decimal(n)) == n
    ensures n > 0 ==> Decimal(n)[0] != 48
  {
    if n >= 10 {
      DecimalIs(n / 10);
      assert Decimal(n)[..|Decimal(n)| - 1] == Decimal(n / 10);
    } else {
      assert [48 + n][..0] == [];
    }
  }

  function GroupName(n: nat): Str {
    GROUP_PREFIX + Decimal(n)
  }

  function FirstGroups(n: nat): set<Str> {
    set i: nat | i < n :: GroupName(i)
  }

  lemma NamesPlain(n: nat)
    ensures SlashFree(FirstGroups(n)) && PlainNames(FirstGroups(n))
    ensures forall g :: g in FirstGroups(n) ==> !IsPrefix(g, LOCK_NAME)
  {
    forall i: nat ensures PlainName(GroupName(i)) && !IsPrefix(GroupName(i), LOCK_NAME) {
      assert GroupName(i)[0] == 103 && COUNTER_NAME[0] == 116;
      assert GroupName(i)[6] <= 57 && LOCK_NAME[6] == 108;
    }
  }

  lemma OneBeginsTen(n: nat)
    requires n > 10
    ensures GroupName(1) in FirstGroups(n) && GroupName(10) in FirstGroups(n)
    ensures GroupName(1) != GroupName(10) && IsPrefix(GroupName(1), GroupName(10))
  {
    assert Decimal(1) == [49] && Decimal(10) == [49, 48];
    assert GroupName(10) == GroupName(1) + [48];
    assert |GroupName(1)| != |GroupName(10)|;
  }

  /** The names group-0 to group-(n-1) are prefix-free exactly up to ten groups: group-1 begins
      group-10. */
  lemma PrefixFreeUpToTen(n: nat)
    ensures PrefixFree(FirstGroups(n)) <==> n <= 10
  {
    if n <= 10 {
      forall i: nat, j: nat | i < n && j < n && IsPrefix(GroupName(i), GroupName(j)) ensures i == j {
        assert GroupName(i)[6] == GroupName(j)[6];
      }
    } else {
      OneBeginsTen(n);
    }
  }

  /** The group counter of the groups 0 to n-1 is right in every run of harmless calls exactly up to ten
      groups. */
  lemma CounterRightUpToTen(root: Str, n: nat)
    ensures AlwaysRight(root, FirstGroups(n)) <==> n <= 10
  {
    hide AlwaysRight, FirstGroups, PlainNames, PrefixFree, SlashFree;
    NamesPlain(n);
    PrefixFreeUpToTen(n);
    AlwaysRightIff(root, FirstGroups(n));
  }
}
