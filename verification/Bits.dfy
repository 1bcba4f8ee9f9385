/** Bitwise operators on unsigned integers, and what they mean bit by bit. */
module Bits {
  import opened GoBase

  function Pow2(n: nat): (p: nat)
    ensures p > 0
  {
    if n == 0 then 1 else 2 * Pow2(n - 1)
  }

  /** Bit i of x, counting from the least significant. */
  predicate Bit(x: nat, i: nat) {
    if i == 0 then x % 2 == 1 else Bit(x / 2, i - 1)
  }

  function And(x: nat, y: nat): (r: nat)
    ensures r <= x && r <= y
  {
    if x == 0 || y == 0 then 0
    else 2 * And(x / 2, y / 2) + (if x % 2 == 1 && y % 2 == 1 then 1 else 0)
  }

  function Or(x: nat, y: nat): (r: nat)
    ensures r >= x && r >= y && r <= x + y
  {
    if x == 0 then y
    else if y == 0 then x
    else 2 * Or(x / 2, y / 2) + (if x % 2 == 1 || y % 2 == 1 then 1 else 0)
  }

  /** The position of the highest set bit, plus one (math/bits.Len64). */
  function BitLen(x: nat): nat {
    if x == 0 then 0 else 1 + BitLen(x / 2)
  }

  lemma {:induction false} ZeroHasNoBits(i: nat)
    ensures !Bit(0, i)
  {
    if i > 0 { ZeroHasNoBits(i - 1); }
  }

  lemma {:induction false} AndBit(x: nat, y: nat, i: nat)
    ensures Bit(And(x, y), i) <==> Bit(x, i) && Bit(y, i)
  {
    if x == 0 || y == 0 {
      ZeroHasNoBits(i);
    } else if i == 0 {
      assert And(x, y) % 2 == if x % 2 == 1 && y % 2 == 1 then 1 else 0;
    } else {
      AndBit(x / 2, y / 2, i - 1);
      assert And(x, y) / 2 == And(x / 2, y / 2);
      assert Bit(And(x, y), i) == Bit(And(x / 2, y / 2), i - 1);
    }
  }

  lemma {:induction false} OrBit(x: nat, y: nat, i: nat)
    ensures Bit(Or(x, y), i) <==> Bit(x, i) || Bit(y, i)
  {
    if x == 0 || y == 0 {
      ZeroHasNoBits(i);
    } else if i == 0 {
      assert Or(x, y) % 2 == if x % 2 == 1 || y % 2 == 1 then 1 else 0;
    } else {
      OrBit(x / 2, y / 2, i - 1);
      assert Or(x, y) / 2 == Or(x / 2, y / 2);
      assert Bit(Or(x, y), i) == Bit(Or(x / 2, y / 2), i - 1);
    }
  }

  /** A number is its bits. */
  lemma {:induction false} BitsDetermine(x: nat, y: nat)
    requires forall i: nat :: Bit(x, i) == Bit(y, i)
    ensures x == y
    decreases x + y
  {
    if x + y > 0 {
      forall i: nat ensures Bit(x / 2, i) == Bit(y / 2, i) {
        assert Bit(x, i + 1) == Bit(y, i + 1);
      }
      BitsDetermine(x / 2, y / 2);
      assert Bit(x, 0) == Bit(y, 0);
    }
  }

  lemma {:induction false} NonZeroHasBit(x: nat) returns (i: nat)
    requires x > 0
    ensures Bit(x, i)
  {
    if x % 2 == 1 {
      i := 0;
    } else {
      i := NonZeroHasBit(x / 2);
      i := i + 1;
    }
  }

  /** Numbers whose set bits do not overlap are combined by addition. */
  lemma {:induction false} OrDisjoint(x: nat, y: nat, n: nat)
    requires x < Pow2(n)
    ensures Or(x, y * Pow2(n)) == x + y * Pow2(n)
  {
    if n == 0 {
      assert Pow2(0) == 1;
    } else if x == 0 || y == 0 {
    } else {
      var p := Pow2(n - 1);
      assert y * Pow2(n) == 2 * (y * p);
      assert (y * Pow2(n)) / 2 == y * p && (y * Pow2(n)) % 2 == 0;
      assert y * p > 0;
      OrDisjoint(x / 2, y, n - 1);
    }
  }

  lemma {:induction false} OrBelow(x: nat, y: nat, n: nat)
    requires x < Pow2(n) && y < Pow2(n)
    ensures Or(x, y) < Pow2(n)
  {
    if x > 0 && y > 0 && n > 0 { OrBelow(x / 2, y / 2, n - 1); }
  }

  lemma {:induction false} Pow2Add(m: nat, n: nat)
    ensures Pow2(m + n) == Pow2(m) * Pow2(n)
  {
    if m > 0 { Pow2Add(m - 1, n); }
  }

  /** BitLen brackets a number between consecutive powers of two. */
  lemma {:induction false} BitLenBounds(x: nat)
    requires x > 0
    ensures Pow2(BitLen(x) - 1) <= x < Pow2(BitLen(x))
  {
    if x > 1 { BitLenBounds(x / 2); }
  }

  /** The lowest n bits of x: what is left when x is cut to n bits. */
  function LowBits(x: nat, n: nat): (r: nat)
    ensures r <= x && r < Pow2(n)
  {
    if n == 0 then 0 else 2 * LowBits(x / 2, n - 1) + x % 2
  }

  lemma {:induction false} LowBitsSmall(x: nat, n: nat)
    requires x < Pow2(n)
    ensures LowBits(x, n) == x
  {
    if n > 0 { LowBitsSmall(x / 2, n - 1); }
  }

  lemma LowBitsOfDouble(x: nat, z: nat, n: nat)
    requires n > 0
    ensures LowBits(x + 2 * z, n) == 2 * LowBits(x / 2 + z, n - 1) + x % 2
  {
    assert (x + 2 * z) / 2 == x / 2 + z && (x + 2 * z) % 2 == x % 2;
  }

  lemma Doubled(y: nat, m: nat)
    requires m > 0
    ensures y * Pow2(m) == 2 * (y * Pow2(m - 1))
  {
  }

  /** Cutting to n bits keeps the lowest m bits and cuts the rest. */
  lemma {:induction false} LowBitsAdd(x: nat, y: nat, m: nat, n: nat, shifted: nat)
    requires x < Pow2(m) && m <= n && shifted == y * Pow2(m)
    ensures LowBits(x + shifted, n) == x + LowBits(y, n - m) * Pow2(m)
  {
    if m == 0 {
      assert Pow2(0) == 1;
    } else {
      var z := y * Pow2(m - 1);
      var high := LowBits(y, n - m);
      assert shifted == 2 * z && high * Pow2(m) == 2 * (high * Pow2(m - 1)) by {
        Doubled(y, m);
        Doubled(high, m);
      }
      LowBitsAdd(x / 2, y, m - 1, n - 1, z);
      LowBitsOfDouble(x, z, n);
      hide LowBits, Pow2;
      assert n - 1 - (m - 1) == n - m;
      assert x == 2 * (x / 2) + x % 2;
    }
  }

  /** Or-ing a number cut to n bits, and one shifted past its bits, adds them. */
  lemma OrShifted(x: nat, y: nat, m: nat, n: nat, shifted: nat)
    requires x < Pow2(m) && m <= n && shifted == y * Pow2(m)
    ensures Or(LowBits(x, n), LowBits(shifted, n)) == LowBits(x + shifted, n)
  {
    Pow2Monotone(m, n);
    LowBitsSmall(x, n);
    LowBitsAdd(0, y, m, n, shifted);
    LowBitsAdd(x, y, m, n, shifted);
    OrDisjoint(x, LowBits(y, n - m), m);
  }

  function HighBits(x: nat, n: nat): nat {
    if n == 0 then x else HighBits(x / 2, n - 1)
  }

  lemma {:induction false} HighAndLow(x: nat, n: nat)
    ensures x == HighBits(x, n) * Pow2(n) + LowBits(x, n)
  {
    if n == 0 {
      assert Pow2(0) == 1;
    } else {
      HighAndLow(x / 2, n - 1);
      Doubled(HighBits(x, n), n);
    }
  }

  lemma {:induction false} AndLow(x: nat, n: nat)
    ensures And(x, Pow2(n) - 1) == LowBits(x, n)
  {
    if n > 0 {
      var p := Pow2(n - 1);
      AndLow(x / 2, n - 1);
      assert (2 * p - 1) / 2 == p - 1 && (2 * p - 1) % 2 == 1;
    }
    if x == 0 { LowBitsSmall(0, n); }
  }

  lemma {:induction false} Pow2Monotone(m: nat, n: nat)
    requires m <= n
    ensures Pow2(m) <= Pow2(n)
  {
    if m < n { Pow2Monotone(m, n - 1); }
  }

  /** Bits at or above the cut do not show. */
  lemma {:induction false} LowBitsBelow(x: nat, y: nat, m: nat, n: nat, shifted: nat)
    requires n <= m && shifted == y * Pow2(m)
    ensures LowBits(x + shifted, n) == LowBits(x, n)
  {
    if n > 0 {
      var z := y * Pow2(m - 1);
      Doubled(y, m);
      LowBitsBelow(x / 2, y, m - 1, n - 1, z);
      LowBitsOfDouble(x, z, n);
    }
  }

  lemma {:induction false} LowBitsTwice(x: nat, m: nat, n: nat)
    requires m <= n
    ensures LowBits(LowBits(x, n), m) == LowBits(x, m)
  {
    if m > 0 {
      LowBitsTwice(x / 2, m - 1, n - 1);
      assert LowBits(x, n) / 2 == LowBits(x / 2, n - 1) && LowBits(x, n) % 2 == x % 2;
    }
  }

  /** The powers of two in use. */
  lemma Pow2Values()
    ensures Pow2(7) == 128 && Pow2(12) == 4096 && Pow2(22) == 4194304 && Pow2(32) == 0x1_0000_0000
    ensures Pow2(63) == TWO_63 && Pow2(64) == TWO_64
  {
    assert Pow2(1) == 2 && Pow2(4) == 16 && Pow2(7) == 128 && Pow2(8) == 256;
    Pow2Add(8, 4);
    Pow2Add(8, 8);
    Pow2Add(16, 16);
    Pow2Add(16, 4);
    Pow2Add(20, 1);
    Pow2Add(21, 1);
    Pow2Add(32, 32);
    assert Pow2(64) == 2 * Pow2(63);
  }

  /** x cut to a uint64. */
  function Low64(x: nat): (r: uint64) {
    Pow2Values();
    LowBits(x, 64)
  }

  lemma Low64Small(x: uint64)
    ensures Low64(x) == x
  {
    Pow2Values();
    LowBitsSmall(x, 64);
  }

  lemma OrShifted64(x: nat, y: nat, m: nat, shifted: nat)
    requires x < Pow2(m) && m <= 64 && shifted == y * Pow2(m)
    ensures Or(Low64(x), Low64(shifted)) == Low64(x + shifted)
  {
    hide Or, LowBits, Pow2;
    OrShifted(x, y, m, 64, shifted);
  }

  lemma {:induction false} OrCommutes(x: nat, y: nat)
    ensures Or(x, y) == Or(y, x)
  {
    if x > 0 && y > 0 { OrCommutes(x / 2, y / 2); }
  }

  lemma OrDoubles(x: nat, y: nat)
    ensures Or(2 * x, 2 * y) == 2 * Or(x, y)
  {
  }

  lemma {:induction false} OrScaled(x: nat, y: nat, n: nat)
    ensures Or(x * Pow2(n), y * Pow2(n)) == Or(x, y) * Pow2(n)
  {
    if n > 0 {
      OrScaled(x, y, n - 1);
      Doubled(x, n);
      Doubled(y, n);
      Doubled(Or(x, y), n);
      OrDoubles(x * Pow2(n - 1), y * Pow2(n - 1));
    } else {
      assert Pow2(0) == 1;
    }
  }

  /** Setting the lowest bit. */
  lemma OrLowest(k: nat)
    ensures Or(k, 1) == if k % 2 == 1 then k else k + 1
  {
    if k > 0 { OrCommutes(k / 2, 0); }
  }
}
