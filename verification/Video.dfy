/** The demo's message (demo/infrastructure/video.pb.go): signed numbers travel as the varint of
    their 64-bit two's complement, and 32-bit ones are put together in 32 bits again. */
module Video {
  import opened GoBase
  import opened Bits
  import opened Varint
  import opened Wire
  import opened Canonical
  import opened Messages
  import opened Layout
  import RoundTrip

  type int32 = x: int | -0x8000_0000 <= x < 0x8000_0000

  type int64 = x: int | -TWO_63 <= x < TWO_63

  datatype Video = Video(id: Str, title: Str, postTime: int64, author: Str, viewCount: int32, likeCount: int32,
                         coinCount: int32, favoriteCount: int32, shareCount: int32, keywords: seq<Str>)

  const NO_VIDEO := Video([], [], 0, [], 0, 0, 0, 0, 0, [])

  // ----- Signed numbers -----

  /** Conversion of a signed number to uint64: the sign is extended. */
  function ToUint64(x: int64): uint64 {
    if x < 0 then x + TWO_64 else x
  }

  lemma Int64Back(x: int64)
    ensures ToInt(ToUint64(x)) == x
  {
  }

  /** The lowest 32 bits of a sign-extended 32-bit number are the number. */
  lemma Int32Back(x: int32)
    ensures Int32(ToUint64(x)) == x
  {
    Pow2Values();
    var low: nat := if x < 0 then x + 0x1_0000_0000 else x;
    var high: nat := if x < 0 then 0xFFFF_FFFF else 0;
    LowBitsAdd(low, high, 32, 32, high * 0x1_0000_0000);
  }

  /** One turn of the decoding loop of a 32-bit field: bits shifted past the 32nd are lost. */
  lemma OrSevenBits32(s: Str, b: Byte, shifted: nat)
    requires |s| < MAX_BYTES && shifted == (b % 128) * Pow2(7 * |s|)
    ensures Or(LowBits(Base128(s), 32), LowBits(shifted, 32)) == LowBits(Base128(s + [b]), 32)
  {
    hide Or, LowBits;
    Base128Below(s);
    Base128Snoc(s, b);
    var low: nat := b % 128;
    if 7 * |s| <= 32 {
      OrShifted(Base128(s), low, 7 * |s|, 32, shifted);
    } else {
      LowBitsBelow(Base128(s), low, 7 * |s|, 32, shifted);
      LowBitsBelow(0, low, 7 * |s|, 32, shifted);
      OrNothing(LowBits(Base128(s), 32));
    }
  }

  lemma OrNothing(x: nat)
    ensures LowBits(0, 32) == 0 && Or(x, 0) == x
  {
  }

  /** A 32-bit field takes the lowest 32 bits of the varint, with the same end and the same errors. */
  method ReadInt32(dAtA: Str, start: nat) returns (r: Result<(int32, nat), WireError>)
    requires start <= |dAtA|
    ensures r == match Read(dAtA[start..])
                 case Ok((v, n)) => Ok((Int32(v), start + n))
                 case Err(e) => Err(e)
  {
    hide Read, Or, LowBits, Base128, Pow2, Int32, Low64;
    var iNdEx, shift, v: nat := start, 0, 0;
    ghost var s := dAtA[start..];
    NoBits(s);
    while true
      invariant start <= iNdEx <= |dAtA| && shift == 7 * (iNdEx - start) && iNdEx - start <= MAX_BYTES
      invariant forall j :: 0 <= j < iNdEx - start ==> s[j] >= 128
      invariant v == LowBits(Base128(s[..iNdEx - start]), 32)
      decreases |dAtA| - iNdEx
    {
      ghost var k := iNdEx - start;
      ReadAfter(s, k);
      if shift >= 64 {
        return Err(IntOverflow);
      }
      if iNdEx >= |dAtA| {
        return Err(UnexpectedEOF);
      }
      var b := dAtA[iNdEx];
      var shifted := (b % 128) * Pow2(shift);
      assert s[..k + 1] == s[..k] + [b] && shifted == (s[k] % 128) * Pow2(7 * k);
      OrSevenBits32(s[..k], b, shifted);
      iNdEx := iNdEx + 1;
      v := Or(v, LowBits(shifted, 32));
      if b < 128 {
        Low32OfLow64(Base128(s[..k + 1]));
        return Ok((Signed32(v), iNdEx));
      }
      shift := shift + 7;
    }
  }

  lemma NoBits(s: Str)
    ensures LowBits(Base128(s[..0]), 32) == 0
  {
  }

  function Signed32(v: nat): int32
    requires v < 0x1_0000_0000
  {
    if v >= 0x8000_0000 then v - 0x1_0000_0000 else v
  }

  lemma Low32OfLow64(x: nat)
    ensures LowBits(x, 32) < 0x1_0000_0000
    ensures Int32(Low64(x)) == Signed32(LowBits(x, 32))
  {
    Pow2Values();
    LowBitsTwice(x, 32, 64);
  }

  // ----- The message -----

  function Schema(): Wire.Schema {
    map[1 := LenKind, 2 := LenKind, 3 := VarintKind, 4 := LenKind, 5 := VarintKind, 6 := VarintKind,
        7 := VarintKind, 8 := VarintKind, 9 := VarintKind, 10 := LenKind]
  }

  function SignedOf(v: uint64): int32 {
    Low32(v);
    Int32(v)
  }

  lemma Low32(v: nat)
    ensures -0x8000_0000 <= Int32(v) < 0x8000_0000
  {
    Pow2Values();
  }

  function Apply(v: Video, rec: Record): Video {
    match rec
    case LenRec(field, payload) =>
      if field == 1 then v.(id := payload)
      else if field == 2 then v.(title := payload)
      else if field == 4 then v.(author := payload)
      else v.(keywords := v.keywords + [payload])
    case VarintRec(field, x) =>
      if field == 3 then v.(postTime := ToInt(x))
      else if field == 5 then v.(viewCount := SignedOf(x))
      else if field == 6 then v.(likeCount := SignedOf(x))
      else if field == 7 then v.(coinCount := SignedOf(x))
      else if field == 8 then v.(favoriteCount := SignedOf(x))
      else v.(shareCount := SignedOf(x))
    case PackedRec(_, _) => v
  }

  function ApplyAll(v: Video, recs: seq<Record>): Video
    decreases |recs|
  {
    if recs == [] then v else ApplyAll(Apply(v, recs[0]), recs[1..])
  }

  function Decode(v: Video, s: Str): Result<Video, WireError> {
    var p := Parse(Schema(), s, 0);
    if p.failure.Some? then Err(p.failure.value) else Ok(ApplyAll(v, p.recs))
  }

  function Strings(field: int, ss: seq<Str>): (r: seq<Record>)
    ensures |r| == |ss| && forall i :: 0 <= i < |r| ==> r[i] == LenRec(field, ss[i])
  {
    if ss == [] then [] else [LenRec(field, ss[0])] + Strings(field, ss[1..])
  }

  function Texts(v: Video): seq<Record> {
    LenIf(1, v.id) + LenIf(2, v.title) + VarintIf(3, ToUint64(v.postTime)) + LenIf(4, v.author)
  }

  function Counts(v: Video): seq<Record> {
    VarintIf(5, ToUint64(v.viewCount)) + VarintIf(6, ToUint64(v.likeCount)) + VarintIf(7, ToUint64(v.coinCount))
    + VarintIf(8, ToUint64(v.favoriteCount)) + VarintIf(9, ToUint64(v.shareCount))
  }

  function Records(v: Video): seq<Record> {
    Texts(v) + Counts(v) + Strings(10, v.keywords)
  }

  lemma {:induction false} ApplyAppend(v: Video, a: seq<Record>, b: seq<Record>)
    ensures ApplyAll(v, a + b) == ApplyAll(ApplyAll(v, a), b)
    decreases |a|
  {
    hide Apply;
    if a == [] {
      assert a + b == b;
    } else {
      assert (a + b)[1..] == a[1..] + b;
      ApplyAppend(Apply(v, a[0]), a[1..], b);
    }
  }

  lemma ApplyLen(v: Video, field: int, s: Str)
    ensures ApplyAll(v, LenIf(field, s)) == if s == [] then v else Apply(v, LenRec(field, s))
  {
    hide Apply;
    if s != [] { assert [LenRec(field, s)][1..] == []; }
  }

  lemma ApplyVarint(v: Video, field: int, x: int64)
    ensures ApplyAll(v, VarintIf(field, ToUint64(x))) == if x == 0 then v else Apply(v, VarintRec(field, ToUint64(x)))
  {
    hide Apply;
    if x != 0 { assert [VarintRec(field, ToUint64(x))][1..] == []; }
  }

  lemma SignedBack(x: int32)
    ensures SignedOf(ToUint64(x)) == x
  {
    hide Int32;
    Int32Back(x);
  }

  lemma ApplyTexts(v: Video)
    ensures ApplyAll(NO_VIDEO, Texts(v)) ==
              NO_VIDEO.(id := v.id, title := v.title, postTime := v.postTime, author := v.author)
  {
    hide ApplyAll, LenIf, VarintIf, ToInt, ToUint64, SignedOf;
    var p1, p2, p3, p4 := LenIf(1, v.id), LenIf(2, v.title), VarintIf(3, ToUint64(v.postTime)), LenIf(4, v.author);
    var v1 := NO_VIDEO.(id := v.id);
    var v2 := v1.(title := v.title);
    var v3 := v2.(postTime := v.postTime);
    Int64Back(v.postTime);
    ApplyLen(NO_VIDEO, 1, v.id);
    ApplyLen(v1, 2, v.title);
    ApplyVarint(v2, 3, v.postTime);
    ApplyLen(v3, 4, v.author);
    ApplyAppend(NO_VIDEO, p1, p2);
    ApplyAppend(NO_VIDEO, p1 + p2, p3);
    ApplyAppend(NO_VIDEO, p1 + p2 + p3, p4);
  }

  lemma ApplyCounts(v0: Video, v: Video)
    requires v0.viewCount == v0.likeCount == v0.coinCount == v0.favoriteCount == v0.shareCount == 0
    ensures ApplyAll(v0, Counts(v)) ==
              v0.(viewCount := v.viewCount, likeCount := v.likeCount, coinCount := v.coinCount,
                  favoriteCount := v.favoriteCount, shareCount := v.shareCount)
  {
    hide ApplyAll, VarintIf, ToUint64, SignedOf;
    var p5, p6 := VarintIf(5, ToUint64(v.viewCount)), VarintIf(6, ToUint64(v.likeCount));
    var p7 := VarintIf(7, ToUint64(v.coinCount));
    var p8, p9 := VarintIf(8, ToUint64(v.favoriteCount)), VarintIf(9, ToUint64(v.shareCount));
    SignedBack(v.viewCount);
    SignedBack(v.likeCount);
    SignedBack(v.coinCount);
    SignedBack(v.favoriteCount);
    SignedBack(v.shareCount);
    var v5 := v0.(viewCount := v.viewCount);
    var v6 := v5.(likeCount := v.likeCount);
    var v7 := v6.(coinCount := v.coinCount);
    var v8 := v7.(favoriteCount := v.favoriteCount);
    ApplyVarint(v0, 5, v.viewCount);
    ApplyVarint(v5, 6, v.likeCount);
    ApplyVarint(v6, 7, v.coinCount);
    ApplyVarint(v7, 8, v.favoriteCount);
    ApplyVarint(v8, 9, v.shareCount);
    ApplyAppend(v0, p5, p6);
    ApplyAppend(v0, p5 + p6, p7);
    ApplyAppend(v0, p5 + p6 + p7, p8);
    ApplyAppend(v0, p5 + p6 + p7 + p8, p9);
  }

  lemma StringsFirst(v: Video, ss: seq<Str>)
    requires ss != []
    ensures ApplyAll(v, Strings(10, ss)) == ApplyAll(v.(keywords := v.keywords + [ss[0]]), Strings(10, ss[1..]))
  {
    hide SignedOf;
    assert Strings(10, ss)[1..] == Strings(10, ss[1..]);
  }

  lemma {:induction false} ApplyStrings(v: Video, ss: seq<Str>)
    ensures ApplyAll(v, Strings(10, ss)) == v.(keywords := v.keywords + ss)
    decreases |ss|
  {
    hide Apply, Strings;
    if ss == [] {
      assert Strings(10, ss) == [];
      assert v.keywords + ss == v.keywords;
    } else {
      StringsFirst(v, ss);
      ApplyStrings(v.(keywords := v.keywords + [ss[0]]), ss[1..]);
      assert v.keywords + [ss[0]] + ss[1..] == v.keywords + ss;
    }
  }

  ghost predicate AllFitVideo(recs: seq<Record>) {
    forall i :: 0 <= i < |recs| ==> Fits(Schema(), recs[i])
  }

  lemma TextsFit(v: Video)
    ensures AllFitVideo(Texts(v))
  {
    hide ToUint64;
  }

  lemma CountsFit(v: Video)
    ensures AllFitVideo(Counts(v))
  {
    hide ToUint64;
  }

  lemma FitIsSmall(recs: seq<Record>)
    requires AllFitVideo(recs)
    ensures SmallFields(recs)
  {
    hide Schema;
  }

  lemma RecordsFit(v: Video)
    ensures SmallFields(Records(v)) && AllFitVideo(Records(v))
  {
    hide Texts, Counts, SmallFields;
    TextsFit(v);
    CountsFit(v);
    assert AllFitVideo(Strings(10, v.keywords));
    FitIsSmall(Records(v));
  }

  function MarshalVideo(v: Video): Str {
    RecordsFit(v);
    Encode(Records(v))
  }

  /** Videos survive the wire, negative numbers included. */
  lemma VideoRoundTrip(v: Video)
    requires |MarshalVideo(v)| < TWO_63
    ensures Decode(NO_VIDEO, MarshalVideo(v)) == Ok(v)
  {
    hide Encode, Parse, ApplyAll, Texts, Counts, Strings, SmallFields, Fits;
    RecordsFit(v);
    ParseBack(Schema(), Records(v), 0);
    ApplyAppend(NO_VIDEO, Texts(v) + Counts(v), Strings(10, v.keywords));
    ApplyAppend(NO_VIDEO, Texts(v), Counts(v));
    ApplyTexts(v);
    var v0 := ApplyAll(NO_VIDEO, Texts(v));
    ApplyCounts(v0, v);
    ApplyStrings(ApplyAll(v0, Counts(v)), v.keywords);
    assert [] + v.keywords == v.keywords;
  }

  // ----- The bytes of a video -----

  lemma {:induction false} StringsBytes(ss: seq<Str>)
    ensures SmallFields(Strings(10, ss)) && Encode(Strings(10, ss)) == Payloads(0x52, ss)
    decreases |ss|
  {
    hide EncodeVarint;
    if ss != [] {
      StringsBytes(ss[1..]);
      assert Strings(10, ss)[1..] == Strings(10, ss[1..]);
    }
  }

  lemma TextsBytes(v: Video)
    ensures SmallFields(Texts(v))
    ensures Encode(Texts(v)) ==
              PayloadUnlessEmpty(0x0A, v.id) + PayloadUnlessEmpty(0x12, v.title)
              + NumberUnlessZero(0x18, ToUint64(v.postTime)) + PayloadUnlessEmpty(0x22, v.author)
  {
    hide Encode, LenIf, VarintIf, SmallFields, ToUint64;
    var p1, p2, p3 := LenIf(1, v.id), LenIf(2, v.title), VarintIf(3, ToUint64(v.postTime));
    LenBytes(1, v.id);
    LenBytes(2, v.title);
    VarintBytes(3, ToUint64(v.postTime));
    LenBytes(4, v.author);
    RoundTrip.EncodeAppend(p1, p2);
    RoundTrip.EncodeAppend(p1 + p2, p3);
    RoundTrip.EncodeAppend(p1 + p2 + p3, LenIf(4, v.author));
  }

  lemma CountsBytes(v: Video)
    ensures SmallFields(Counts(v))
    ensures Encode(Counts(v)) ==
              NumberUnlessZero(0x28, ToUint64(v.viewCount)) + NumberUnlessZero(0x30, ToUint64(v.likeCount))
              + NumberUnlessZero(0x38, ToUint64(v.coinCount)) + NumberUnlessZero(0x40, ToUint64(v.favoriteCount))
              + NumberUnlessZero(0x48, ToUint64(v.shareCount))
  {
    hide Encode, VarintIf, SmallFields, ToUint64;
    var p5, p6 := VarintIf(5, ToUint64(v.viewCount)), VarintIf(6, ToUint64(v.likeCount));
    var p7, p8 := VarintIf(7, ToUint64(v.coinCount)), VarintIf(8, ToUint64(v.favoriteCount));
    VarintBytes(5, ToUint64(v.viewCount));
    VarintBytes(6, ToUint64(v.likeCount));
    VarintBytes(7, ToUint64(v.coinCount));
    VarintBytes(8, ToUint64(v.favoriteCount));
    VarintBytes(9, ToUint64(v.shareCount));
    RoundTrip.EncodeAppend(p5, p6);
    RoundTrip.EncodeAppend(p5 + p6, p7);
    RoundTrip.EncodeAppend(p5 + p6 + p7, p8);
    RoundTrip.EncodeAppend(p5 + p6 + p7 + p8, VarintIf(9, ToUint64(v.shareCount)));
  }

  /** An encoded video is its fields in order, each under its own tag. */
  lemma VideoLayout(v: Video)
    ensures MarshalVideo(v) ==
              PayloadUnlessEmpty(0x0A, v.id) + PayloadUnlessEmpty(0x12, v.title)
              + NumberUnlessZero(0x18, ToUint64(v.postTime)) + PayloadUnlessEmpty(0x22, v.author)
              + NumberUnlessZero(0x28, ToUint64(v.viewCount)) + NumberUnlessZero(0x30, ToUint64(v.likeCount))
              + NumberUnlessZero(0x38, ToUint64(v.coinCount)) + NumberUnlessZero(0x40, ToUint64(v.favoriteCount))
              + NumberUnlessZero(0x48, ToUint64(v.shareCount)) + Payloads(0x52, v.keywords)
  {
    hide Encode, Texts, Counts, Strings, SmallFields, ToUint64, PayloadUnlessEmpty, NumberUnlessZero, Payloads;
    TextsBytes(v);
    CountsBytes(v);
    StringsBytes(v.keywords);
    RoundTrip.EncodeAppend(Texts(v), Counts(v));
    RoundTrip.EncodeAppend(Texts(v) + Counts(v), Strings(10, v.keywords));
  }

  lemma DecodeRecord(v: Video, r: Record)
    requires Fits(Schema(), r) && |EncodeRecord(r)| < TWO_63
    ensures Decode(v, EncodeRecord(r)) == Ok(Apply(v, r))
  {
    hide Encode, EncodeRecord, Parse, Apply, Schema;
    EncodeOne(r);
    ParseBack(Schema(), [r], 0);
    assert [r][1..] == [] && ApplyAll(Apply(v, r), []) == Apply(v, r);
  }

  /** Each tag on its own sets the field it stands for. */
  lemma VideoTexts(v: Video, s: Str)
    requires |Payload(0x0A, s)| < TWO_63
    ensures Decode(v, Payload(0x0A, s)) == Ok(v.(id := s))
    ensures Decode(v, Payload(0x12, s)) == Ok(v.(title := s))
    ensures Decode(v, Payload(0x22, s)) == Ok(v.(author := s))
    ensures Decode(v, Payload(0x52, s)) == Ok(v.(keywords := v.keywords + [s]))
  {
    hide Decode, EncodeVarint, SignedOf;
    DecodeRecord(v, LenRec(1, s));
    DecodeRecord(v, LenRec(2, s));
    DecodeRecord(v, LenRec(4, s));
    DecodeRecord(v, LenRec(10, s));
  }

  lemma VideoNumbers(v: Video, x: int32, t: int64)
    ensures Decode(v, Number(0x18, ToUint64(t))) == Ok(v.(postTime := t))
    ensures Decode(v, Number(0x28, ToUint64(x))) == Ok(v.(viewCount := x))
    ensures Decode(v, Number(0x30, ToUint64(x))) == Ok(v.(likeCount := x))
    ensures Decode(v, Number(0x38, ToUint64(x))) == Ok(v.(coinCount := x))
    ensures Decode(v, Number(0x40, ToUint64(x))) == Ok(v.(favoriteCount := x))
    ensures Decode(v, Number(0x48, ToUint64(x))) == Ok(v.(shareCount := x))
  {
    hide Decode, EncodeVarint, SignedOf, ToUint64, ToInt;
    var (y, u) := (ToUint64(x), ToUint64(t));
    SovIsLength(y);
    SovIsLength(u);
    SignedBack(x);
    Int64Back(t);
    DecodeRecord(v, VarintRec(3, u));
    DecodeRecord(v, VarintRec(5, y));
    DecodeRecord(v, VarintRec(6, y));
    DecodeRecord(v, VarintRec(7, y));
    DecodeRecord(v, VarintRec(8, y));
    DecodeRecord(v, VarintRec(9, y));
  }
}
