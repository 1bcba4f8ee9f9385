/** How the generated code writes records, and that the record layer reads them back. Every field
    number in use is below 16, so that a tag is one byte. */
module Canonical {
  import opened GoBase
  import opened Bits
  import opened Varint
  import opened Wire

  function Pack(vs: seq<uint64>): Str {
    if vs == [] then [] else EncodeVarint(vs[0]) + Pack(vs[1..])
  }

  predicate SmallField(r: Record) { 1 <= r.field < 16 }

  function EncodeLen(field: int, payload: Str): Str
    requires 1 <= field < 16
  {
    [8 * field + 2] + EncodeVarint(|payload|) + payload
  }

  function EncodeRecord(r: Record): (e: Str)
    requires SmallField(r)
    ensures |e| > 0
  {
    match r
    case VarintRec(field, v) => [8 * field] + EncodeVarint(v)
    case LenRec(field, payload) => EncodeLen(field, payload)
    case PackedRec(field, vs) => EncodeLen(field, Pack(vs))
  }

  ghost predicate SmallFields(recs: seq<Record>) {
    forall i :: 0 <= i < |recs| ==> SmallField(recs[i])
  }

  function Encode(recs: seq<Record>): Str
    requires SmallFields(recs)
  {
    if recs == [] then [] else EncodeRecord(recs[0]) + Encode(recs[1..])
  }

  /** A record as the decoder of a message that knows its field accepts it. The encoder writes numbers of
      a list packed only. */
  predicate Fits(schema: Schema, r: Record) {
    && SmallField(r) && r.field in schema
    && match schema[r.field]
       case VarintKind => r.VarintRec?
       case LenKind => r.LenRec?
       case PackedKind => r.PackedRec? || r.VarintRec?
  }

  // ----- Reading back -----

  lemma ReadTag(x: nat, t: Str)
    requires x < 128
    ensures Read([x] + t) == Ok((x, 1))
  {
    hide Read, Sov;
    assert EncodeVarint(x) == [x];
    ReadEncoding(x, t);
  }

  lemma FieldNumber(field: nat, wireType: nat)
    requires field < 0x8000_0000 && wireType < 8
    ensures (8 * field + wireType) / 8 == field && (8 * field + wireType) % 8 == wireType
    ensures Int32(field) == field
  {
    Pow2Values();
    LowBitsSmall(field, 32);
  }

  lemma LengthBack(payload: Str, t: Str, off: nat)
    requires off + |EncodeVarint(|payload|) + payload + t| < TWO_63
    ensures var n := |EncodeVarint(|payload|)|;
            && Length(EncodeVarint(|payload|) + payload + t, off) == Ok((|payload|, n))
            && (EncodeVarint(|payload|) + payload + t)[n..] == payload + t
  {
    hide Read, EncodeVarint;
    ReadEncoding(|payload|, payload + t);
    assert EncodeVarint(|payload|) + payload + t == EncodeVarint(|payload|) + (payload + t);
  }

  lemma {:induction false} NumbersBack(vs: seq<uint64>, t: Str)
    ensures Numbers(Pack(vs) + t, |Pack(vs)|) == Ok((vs, |Pack(vs)|))
  {
    hide Read, EncodeVarint;
    if vs != [] {
      var first, rest := EncodeVarint(vs[0]), Pack(vs[1..]);
      ReadEncoding(vs[0], rest + t);
      assert Pack(vs) + t == first + (rest + t);
      if rest == [] {
        assert vs[1..] == [];
        assert vs == [vs[0]];
      } else {
        NumbersBack(vs[1..], t);
        assert (Pack(vs) + t)[|first|..] == rest + t;
        assert [vs[0]] + vs[1..] == vs;
      }
    }
  }

  lemma NumberBack(schema: Schema, field: int, v: uint64, t: Str, off: nat)
    requires Fits(schema, VarintRec(field, v))
    ensures Body(schema[field], field, 0, EncodeVarint(v) + t, off) == Ok((VarintRec(field, v), |EncodeVarint(v)|))
  {
    hide Read, EncodeVarint, Numbers, Length;
    ReadEncoding(v, t);
  }

  lemma PayloadBack(schema: Schema, field: int, payload: Str, t: Str, off: nat)
    requires Fits(schema, LenRec(field, payload))
    requires off + |EncodeVarint(|payload|) + payload + t| < TWO_63
    ensures var body := EncodeVarint(|payload|) + payload;
            Body(schema[field], field, 2, body + t, off) == Ok((LenRec(field, payload), |body|))
  {
    hide Read, EncodeVarint, Numbers, Length;
    LengthBack(payload, t, off);
    var n := |EncodeVarint(|payload|)|;
    assert (EncodeVarint(|payload|) + payload + t)[n..n + |payload|] == payload;
  }

  lemma ListBack(schema: Schema, field: int, vs: seq<uint64>, t: Str, off: nat)
    requires Fits(schema, PackedRec(field, vs))
    requires off + |EncodeVarint(|Pack(vs)|) + Pack(vs) + t| < TWO_63
    ensures var body := EncodeVarint(|Pack(vs)|) + Pack(vs);
            Body(schema[field], field, 2, body + t, off) == Ok((PackedRec(field, vs), |body|))
  {
    hide Read, EncodeVarint, Numbers, Length, Pack;
    LengthBack(Pack(vs), t, off);
    NumbersBack(vs, t);
  }

  lemma BodyBack(schema: Schema, r: Record, t: Str, off: nat, body: Str)
    requires Fits(schema, r) && body == EncodeRecord(r)[1..]
    requires off + |body + t| < TWO_63
    ensures var wireType := if r.VarintRec? then 0 else 2;
            && EncodeRecord(r)[0] == 8 * r.field + wireType
            && Body(schema[r.field], r.field, wireType, body + t, off) == Ok((r, |body|))
  {
    hide Body, EncodeVarint, Pack, Fits;
    match r
    case VarintRec(field, v) =>
      assert body == EncodeVarint(v);
      NumberBack(schema, field, v, t, off);
    case LenRec(field, payload) =>
      assert body == EncodeVarint(|payload|) + payload;
      PayloadBack(schema, field, payload, t, off);
    case PackedRec(field, vs) =>
      assert body == EncodeVarint(|Pack(vs)|) + Pack(vs);
      ListBack(schema, field, vs, t, off);
  }

  lemma FieldBack(schema: Schema, r: Record, t: Str, off: nat)
    requires Fits(schema, r) && off + |EncodeRecord(r) + t| < TWO_63
    ensures Field(schema, EncodeRecord(r) + t, off) == Ok(([r], |EncodeRecord(r)|))
  {
    hide Read, Body, EncodeRecord, Int32, SkipFrom, TotalBytes;
    var e := EncodeRecord(r);
    var tag, body := e[0], e[1..];
    assert e + t == [tag] + (body + t);
    BodyBack(schema, r, t, off + 1, body);
    ReadTag(tag, body + t);
    FieldNumber(r.field, if r.VarintRec? then 0 else 2);
    assert (e + t)[1..] == body + t;
  }

  /** What a message writes is parsed back into the same records, in the same order. */
  lemma {:induction false} ParseBack(schema: Schema, recs: seq<Record>, off: nat)
    requires forall i :: 0 <= i < |recs| ==> Fits(schema, recs[i])
    requires SmallFields(recs) && off + |Encode(recs)| < TWO_63
    ensures Parse(schema, Encode(recs), off) == Parsed(recs, None)
  {
    hide Field, TotalBytes, EncodeRecord, Parse, Fits;
    if recs == [] {
      ParseEmpty(schema, off);
    } else {
      var e, rest := EncodeRecord(recs[0]), Encode(recs[1..]);
      FieldBack(schema, recs[0], rest, off);
      ParseStep(schema, e + rest, off);
      ParseBack(schema, recs[1..], off + |e|);
      assert (e + rest)[|e|..] == rest;
      assert [recs[0]] + recs[1..] == recs;
    }
  }

  lemma ParseEmpty(schema: Schema, off: nat)
    ensures Parse(schema, [], off) == Parsed([], None)
  {
  }

  // ----- A list that runs over its end -----

  /** A packed list of one byte whose number is not finished takes the next byte, whatever field
      that begins. */
  lemma PackedOverrun(schema: Schema, x: Byte, t: Str, off: nat)
    requires 4 in schema && schema[4] == PackedKind && x < 128
    requires off + 4 + |t| < TWO_63
    ensures Field(schema, [0x22, 1, 0x80, x] + t, off) == Ok(([PackedRec(4, [128 * x])], 4))
  {
    hide Read, Int32, SkipFrom, TotalBytes;
    var rest := [0x80, x] + t;
    assert [0x22, 1, 0x80, x] + t == [0x22] + ([1] + rest);
    ReadTag(0x22, [1] + rest);
    ReadTag(1, rest);
    ReadTwo(x, t);
    FieldNumber(4, 2);
    assert ([0x22] + ([1] + rest))[1..] == [1] + rest && ([1] + rest)[1..] == rest;
    assert Numbers(rest, 1) == Ok(([128 * x], 2));
  }

  lemma ReadTwo(x: Byte, t: Str)
    requires x < 128
    ensures Read([0x80, x] + t) == Ok((128 * x, 2))
  {
    var s := [0x80, x] + t;
    assert s[1..] == [x] + t;
    assert Terminated(s[1..], MAX_BYTES - 1) == Ok(1);
    assert Terminated(s, MAX_BYTES) == Ok(2);
    assert s[..2] == [0x80, x] && [0x80, x][1..] == [x] && [x][1..] == [];
    assert Base128([x]) == x;
    assert Base128([0x80, x]) == 128 * x;
    Low64Small(128 * x);
  }
}
