/** The packing of time, worker id and sequence number into 64 bits (util/snowflake.go). */
module SnowflakePack {
  import opened GoBase
  import opened SnowflakeRuns
  import opened Bits

  /** x << n on 64 bits. */
  function Shl(x: uint64, n: nat): uint64 {
    Low64(x * Pow2(n))
  }

  /** now - epoch on 64 bits. */
  function SinceEpoch(now: uint64): uint64 {
    if now >= EPOCH then now - EPOCH else now - EPOCH + TWO_64
  }

  function Pack(now: uint64, workerId: uint64, number: uint64): uint64 {
    OrFits(Shl(SinceEpoch(now), 22), Shl(workerId, 12));
    OrFits(Or(Shl(SinceEpoch(now), 22), Shl(workerId, 12)), number);
    Or(Or(Shl(SinceEpoch(now), 22), Shl(workerId, 12)), number)
  }

  lemma OrFits(x: uint64, y: uint64)
    ensures Or(x, y) < TWO_64
  {
    Pow2Values();
    OrBelow(x, y, 64);
  }

  lemma ShiftedParts(a: nat, w: nat)
    requires a < TIME_RANGE && w <= WORKER_MAX
    ensures Shl(a, 22) == a * 4194304 && Shl(w, 12) == w * 4096
  {
    Pow2Values();
    Low64Small(a * 4194304);
    Low64Small(w * 4096);
  }

  lemma Parity(a: nat, w: nat)
    ensures (a * 1024 + w) % 2 == w % 2
  {
  }

  lemma PackIsOr(now: uint64, w: uint64, n: uint64, top: nat)
    requires EPOCH <= now && Or(Shl(now - EPOCH, 22), Shl(w, 12)) == top
    ensures Pack(now, w, n) == Or(top, n)
  {
  }

  lemma PackTop(a: nat, w: nat)
    requires a < TIME_RANGE && w <= WORKER_MAX
    ensures Or(Shl(a, 22), Shl(w, 12)) == (a * 1024 + w) * 4096
  {
    ShiftedParts(a, w);
    Pow2Values();
    OrDisjoint(w * 4096, a, 22);
    OrCommutes(w * 4096, a * 4194304);
  }

  lemma PackLow(k: nat, n: nat)
    requires n <= NUMBER_MAX
    ensures Or(k * 4096, n) == k * 4096 + n
  {
    Pow2Values();
    OrDisjoint(n, k, 12);
    OrCommutes(n, k * 4096);
  }

  lemma PackSpill(k: nat)
    ensures Or(k * 4096, 4096) == (if k % 2 == 1 then k else k + 1) * 4096
  {
    Pow2Values();
    OrScaled(k, 1, 12);
    OrLowest(k);
  }

  /** Packing within the clock's range. */
  lemma PackValue(now: uint64, w: nat, n: uint64)
    requires InRange(now) && w <= WORKER_MAX && n <= NUMBER_MAX + 1
    ensures Pack(now, w, n) ==
              var k := (now - EPOCH) * 1024 + w;
              if n <= NUMBER_MAX then k * 4096 + n else if w % 2 == 1 then k * 4096 else (k + 1) * 4096
  {
    hide Pack, Shl, Or;
    var k := (now - EPOCH) * 1024 + w;
    PackTop(now - EPOCH, w);
    PackIsOr(now, w, n, k * 4096);
    if n <= NUMBER_MAX {
      PackLow(k, n);
    } else {
      PackSpill(k);
      Parity(now - EPOCH, w);
    }
  }
}
