/** Base 128 varints as the generated message code writes and reads them: the encoder fills a
    buffer whose exact size was computed beforehand, the decoder shifts and ors into 64 bits. */
module Varint {
  import opened GoBase
  import opened Bits

  datatype WireError =
    | IntOverflow
    | UnexpectedEOF
    | InvalidLength
    | EndGroup
    | IllegalTag
    | WrongWireType
    | UnexpectedEndOfGroup
    | IllegalWireType

  /** The longest varint the decoder accepts: ten bytes carry 64 bits. */
  const MAX_BYTES: nat := 10

  // ----- Encoding -----

  /** Seven bits a byte, least significant first; the high bit says that more follows. */
  function EncodeVarint(v: nat): (r: seq<Byte>)
    ensures |r| > 0
  {
    if v < 128 then [v] else [v % 128 + 128] + EncodeVarint(v / 128)
  }

  /** The size computed beforehand: the bit length divided by seven, rounded up, at least 1. */
  function Sov(x: nat): nat {
    (BitLen(Or(x, 1)) + 6) / 7
  }

  lemma OrOne(x: nat)
    requires x > 0
    ensures BitLen(Or(x, 1)) == BitLen(x)
  {
    assert 1 / 2 == 0;
    assert Or(x / 2, 0) == x / 2;
    assert Or(x, 1) == 2 * (x / 2) + 1;
  }

  lemma SevenBits(x: nat)
    requires x >= 128
    ensures BitLen(x) == 7 + BitLen(x / 128)
  {
    var a := x / 2;
    var b := a / 2;
    var c := b / 2;
    var d := c / 2;
    var e := d / 2;
    var f := e / 2;
    assert x / 128 == f / 2;
    assert BitLen(x) == 1 + BitLen(a) && BitLen(a) == 1 + BitLen(b) && BitLen(b) == 1 + BitLen(c);
    assert BitLen(c) == 1 + BitLen(d) && BitLen(d) == 1 + BitLen(e) && BitLen(e) == 1 + BitLen(f);
    assert BitLen(f) == 1 + BitLen(f / 2);
  }

  lemma BitLenAtMost(x: nat, n: nat)
    requires x < Pow2(n)
    ensures BitLen(x) <= n
  {
    if x > 0 && n > 0 { BitLenAtMost(x / 2, n - 1); }
  }

  /** The size is exact for every value, and at most ten bytes for 64 bits. */
  lemma {:induction false} SovIsLength(v: nat)
    ensures Sov(v) == |EncodeVarint(v)|
    ensures v < TWO_64 ==> |EncodeVarint(v)| <= MAX_BYTES
  {
    if v < 128 {
      if v > 0 { OrOne(v); }
      assert Pow2(7) == 128;
      BitLenAtMost(v, 7);
      if v > 0 { assert BitLen(v) >= 1; }
    } else {
      SovIsLength(v / 128);
      OrOne(v);
      OrOne(v / 128);
      SevenBits(v);
    }
    if v < TWO_64 {
      Pow2Values();
      if v > 0 { OrOne(v); }
      BitLenAtMost(v, 64);
    }
  }

  // ----- Decoding: what a varint means -----

  /** The number of bytes up to and with the first one without the high bit. */
  function Terminated(s: Str, left: nat): (r: Result<nat, WireError>)
    ensures r.Ok? ==> 0 < r.value <= |s| && r.value <= left
  {
    if left == 0 then Err(IntOverflow)
    else if s == [] then Err(UnexpectedEOF)
    else if s[0] < 128 then Ok(1)
    else match Terminated(s[1..], left - 1)
      case Ok(n) => Ok(n + 1)
      case Err(e) => Err(e)
  }

  function Base128(s: Str): nat {
    if s == [] then 0 else s[0] % 128 + 128 * Base128(s[1..])
  }

  /** The value at the start of s, reduced to 64 bits, and how many bytes it takes. */
  function Read(s: Str): (r: Result<(uint64, nat), WireError>)
    ensures r.Ok? ==> 0 < r.value.1 <= |s|
  {
    match Terminated(s, MAX_BYTES)
    case Err(e) => Err(e)
    case Ok(n) => Ok((Low64(Base128(s[..n])), n))
  }

  lemma {:induction false} TerminatedEncoding(v: nat, t: Str, left: nat)
    requires |EncodeVarint(v)| <= left
    ensures Terminated(EncodeVarint(v) + t, left) == Ok(|EncodeVarint(v)|)
  {
    var s := EncodeVarint(v);
    if v >= 128 {
      TerminatedEncoding(v / 128, t, left - 1);
      assert (s + t)[1..] == EncodeVarint(v / 128) + t;
    }
  }

  lemma {:induction false} Base128Encoding(v: nat)
    ensures Base128(EncodeVarint(v)) == v
  {
    if v >= 128 {
      Base128Encoding(v / 128);
      assert EncodeVarint(v)[1..] == EncodeVarint(v / 128);
    } else {
      assert EncodeVarint(v)[1..] == [];
    }
  }

  /** Every 64-bit value is read back, whatever follows it. */
  lemma ReadEncoding(v: uint64, t: Str)
    ensures Read(EncodeVarint(v) + t) == Ok((v, |EncodeVarint(v)|))
  {
    SovIsLength(v);
    TerminatedEncoding(v, t, MAX_BYTES);
    Base128Encoding(v);
    Low64Small(v);
    assert (EncodeVarint(v) + t)[..|EncodeVarint(v)|] == EncodeVarint(v);
  }

  lemma {:induction false} TerminatedPrefix(a: Str, b: Str, left: nat)
    requires Terminated(a, left).Ok?
    ensures Terminated(a + b, left) == Terminated(a, left)
  {
    if a[0] >= 128 {
      TerminatedPrefix(a[1..], b, left - 1);
      assert (a + b)[1..] == a[1..] + b;
    }
  }

  /** What was read from some bytes is read whatever follows them. */
  lemma ReadPrefix(a: Str, b: Str)
    requires Read(a).Ok?
    ensures Read(a + b) == Read(a)
  {
    TerminatedPrefix(a, b, MAX_BYTES);
    var n := Read(a).value.1;
    assert (a + b)[..n] == a[..n];
  }

  // ----- The loops -----

  lemma {:induction false} Base128Snoc(s: Str, b: Byte)
    ensures Base128(s + [b]) == Base128(s) + (b % 128) * Pow2(7 * |s|)
  {
    if s == [] {
      assert (s + [b])[1..] == [];
      assert Pow2(0) == 1;
    } else {
      Base128Snoc(s[1..], b);
      assert (s + [b])[1..] == s[1..] + [b];
      Pow2Add(7, 7 * |s[1..]|);
      Pow2Values();
      var p := Pow2(7 * |s[1..]|);
      assert Pow2(7 * |s|) == 128 * p;
      assert 128 * ((b % 128) * p) == (b % 128) * (128 * p);
    }
  }

  lemma {:induction false} Base128Below(s: Str)
    ensures Base128(s) < Pow2(7 * |s|)
  {
    if s != [] {
      Base128Below(s[1..]);
      Pow2Add(7, 7 * |s[1..]|);
      Pow2Values();
    }
  }

  /** One turn of the decoding loop: or-ing in seven more bits, shifted and cut to 64, adds the
      byte to the value read so far. At the tenth byte only its lowest bit is kept. */
  lemma OrSevenBits(s: Str, b: Byte, shifted: nat)
    requires |s| < MAX_BYTES && shifted == (b % 128) * Pow2(7 * |s|)
    ensures Or(Low64(Base128(s)), Low64(shifted)) == Low64(Base128(s + [b]))
  {
    hide Or, Low64, Base128;
    Base128Below(s);
    Base128Snoc(s, b);
    var low: nat := b % 128;
    OrShifted64(Base128(s), low, 7 * |s|, shifted);
    assert Base128(s + [b]) == Base128(s) + shifted;
  }

  lemma {:induction false} TerminatedAfter(s: Str, k: nat, left: nat)
    requires k <= |s| && k <= left && forall j :: 0 <= j < k ==> s[j] >= 128
    ensures Terminated(s, left) ==
              match Terminated(s[k..], left - k)
              case Ok(n) => Ok(n + k)
              case Err(e) => Err(e)
  {
    if k > 0 {
      TerminatedAfter(s[1..], k - 1, left - 1);
      assert s[1..][k - 1..] == s[k..];
    } else {
      assert s[0..] == s;
    }
  }

  /** What Read returns when the first k bytes have the high bit set. */
  lemma ReadAfter(s: Str, k: nat)
    requires k <= |s| && k <= MAX_BYTES && forall j :: 0 <= j < k ==> s[j] >= 128
    ensures k == MAX_BYTES ==> Read(s) == Err(IntOverflow)
    ensures k < MAX_BYTES && k == |s| ==> Read(s) == Err(UnexpectedEOF)
    ensures k < MAX_BYTES && k < |s| && s[k] < 128 ==> Read(s) == Ok((Low64(Base128(s[..k + 1])), k + 1))
  {
    TerminatedAfter(s, k, MAX_BYTES);
  }

  lemma NothingRead(s: Str)
    ensures Low64(Base128(s[..0])) == 0
  {
  }

  /** The decoding loop, from an index into a buffer: the same value and end, or the same error. */
  method ReadVarint(dAtA: Str, start: nat) returns (r: Result<(uint64, nat), WireError>)
    requires start <= |dAtA|
    ensures r == match Read(dAtA[start..])
                 case Ok((v, n)) => Ok((v, start + n))
                 case Err(e) => Err(e)
  {
    hide Read, Or, Base128, Pow2, Low64;
    var iNdEx, shift, v: nat := start, 0, 0;
    ghost var s := dAtA[start..];
    NothingRead(s);
    while true
      invariant start <= iNdEx <= |dAtA| && shift == 7 * (iNdEx - start) && iNdEx - start <= MAX_BYTES
      invariant forall j :: 0 <= j < iNdEx - start ==> s[j] >= 128
      invariant v == Low64(Base128(s[..iNdEx - start]))
      decreases |dAtA| - iNdEx
    {
      ghost var k := iNdEx - start;
      ReadAfter(s, k);
      if shift >= 64 {
        return Err(IntOverflow);
      }
      if iNdEx >= |dAtA| {
        return Err(UnexpectedEOF);
      }
      var b := dAtA[iNdEx];
      var shifted := (b % 128) * Pow2(shift);
      assert s[..k + 1] == s[..k] + [b] && shifted == (s[k] % 128) * Pow2(7 * k);
      OrSevenBits(s[..k], b, shifted);
      iNdEx := iNdEx + 1;
      v := Or(v, Low64(shifted));
      if b < 128 {
        return Ok((v, iNdEx));
      }
      shift := shift + 7;
    }
  }

  lemma LowSevenBits(x: nat)
    ensures And(x, 127) == x % 128
  {
    AndLow(x, 7);
    HighAndLow(x, 7);
    Pow2Values();
    Mod128(HighBits(x, 7), LowBits(x, 7));
  }

  lemma Mod128(h: nat, l: nat)
    requires l < 128
    ensures (h * 128 + l) % 128 == l
  {
  }

  lemma HighBit(y: nat)
    requires y < 128
    ensures Or(y, 128) == y + 128
  {
    Pow2Values();
    OrDisjoint(y, 1, 7);
  }

  lemma EncodeByte(x: nat)
    ensures Or(And(x, 127), 128) == x % 128 + 128
  {
    LowSevenBits(x);
    HighBit(And(x, 127));
  }

  lemma EncodeStep(done: Str, x: nat)
    requires x >= 128
    ensures done + EncodeVarint(x) == (done + [x % 128 + 128]) + EncodeVarint(x / 128)
  {
  }

  /** The encoding loop, into the bytes before offset: it writes exactly the size computed
      beforehand and touches nothing else. */
  method WriteVarint(dAtA: array<Byte>, offset: nat, v: uint64) returns (base: nat)
    requires Sov(v) <= offset <= dAtA.Length
    modifies dAtA
    ensures base == offset - Sov(v)
    ensures dAtA[base..offset] == EncodeVarint(v)
    ensures dAtA[..base] == old(dAtA[..base]) && dAtA[offset..] == old(dAtA[offset..])
  {
    SovIsLength(v);
    base := offset - Sov(v);
    var o, x := base, v;
    ghost var done: Str := [];
    while x >= 128
      invariant base <= o < offset && o - base == |done|
      invariant dAtA[base..o] == done && done + EncodeVarint(x) == EncodeVarint(v)
      invariant dAtA[..base] == old(dAtA[..base]) && dAtA[offset..] == old(dAtA[offset..])
    {
      EncodeStep(done, x);
      EncodeByte(x);
      assert |EncodeVarint(x / 128)| > 0 && |EncodeVarint(v)| == offset - base;
      dAtA[o] := Or(And(x, 127), 128);
      done := done + [x % 128 + 128];
      x := x / 128;
      o := o + 1;
    }
    assert EncodeVarint(v) == done + [x];
    dAtA[o] := x;
    assert dAtA[base..offset] == done + [x];
  }
}
