/** The wire format of each message, byte by byte (types/term_query.pb.go, types/doc.pb.go,
    service/index.pb.go): which tag stands for which field, in the encoder and in the decoder. */
module Layout {
  import opened GoBase
  import opened Types
  import opened Varint
  import opened Wire
  import opened Canonical
  import opened Messages
  import RoundTrip

  // ----- Fields -----

  /** A string or an embedded message, with its length. */
  function Payload(tag: Byte, s: Str): Str {
    [tag] + EncodeVarint(|s|) + s
  }

  function Number(tag: Byte, v: nat): Str {
    [tag] + EncodeVarint(v)
  }

  /** An empty string and a zero are not written. */
  function PayloadUnlessEmpty(tag: Byte, s: Str): Str {
    if s == [] then [] else Payload(tag, s)
  }

  function NumberUnlessZero(tag: Byte, v: nat): Str {
    if v == 0 then [] else Number(tag, v)
  }

  function Payloads(tag: Byte, parts: seq<Str>): Str {
    if parts == [] then [] else Payload(tag, parts[0]) + Payloads(tag, parts[1..])
  }

  function MarshalledQueries(qs: seq<TermQuery>): (r: seq<Str>)
    ensures |r| == |qs| && forall i :: 0 <= i < |qs| ==> r[i] == MarshalQuery(qs[i])
  {
    seq(|qs|, i requires 0 <= i < |qs| => MarshalQuery(qs[i]))
  }

  function MarshalledKeywords(ks: seq<Keyword>): (r: seq<Str>)
    ensures |r| == |ks| && forall i :: 0 <= i < |ks| ==> r[i] == MarshalKeyword(ks[i])
  {
    seq(|ks|, i requires 0 <= i < |ks| => MarshalKeyword(ks[i]))
  }

  function MarshalledDocuments(ds: seq<Document>): (r: seq<Str>)
    ensures |r| == |ds| && forall i :: 0 <= i < |ds| ==> r[i] == MarshalDocument(ds[i])
  {
    seq(|ds|, i requires 0 <= i < |ds| => MarshalDocument(ds[i]))
  }

  function AllNumbers(vs: seq<uint64>): Str {
    if vs == [] then [] else EncodeVarint(vs[0]) + AllNumbers(vs[1..])
  }

  // ----- Encoding -----

  lemma EncodeOne(r: Record)
    requires SmallField(r)
    ensures SmallFields([r]) && Encode([r]) == EncodeRecord(r)
  {
    hide EncodeRecord;
    assert [r][1..] == [];
  }

  lemma LenBytes(field: int, s: Str)
    requires 1 <= field < 16
    ensures SmallFields(LenIf(field, s)) && Encode(LenIf(field, s)) == PayloadUnlessEmpty(8 * field + 2, s)
  {
    hide EncodeVarint;
    if s != [] { EncodeOne(LenRec(field, s)); }
  }

  lemma VarintBytes(field: int, v: uint64)
    requires 1 <= field < 16
    ensures SmallFields(VarintIf(field, v)) && Encode(VarintIf(field, v)) == NumberUnlessZero(8 * field, v)
  {
    hide EncodeVarint;
    if v != 0 { EncodeOne(VarintRec(field, v)); }
  }

  lemma {:induction false} QueriesBytes(field: int, qs: seq<TermQuery>)
    requires 1 <= field < 16
    ensures Encode(QueryList(field, qs)) == Payloads(8 * field + 2, MarshalledQueries(qs))
    decreases |qs|
  {
    hide EncodeVarint, MarshalQuery, SmallFields;
    if qs != [] {
      QueriesBytes(field, qs[1..]);
      assert MarshalledQueries(qs)[1..] == MarshalledQueries(qs[1..]);
      assert QueryList(field, qs)[1..] == QueryList(field, qs[1..]);
    }
  }

  lemma {:induction false} KeywordsBytes(field: int, ks: seq<Keyword>)
    requires 1 <= field < 16
    ensures Encode(KeywordList(field, ks)) == Payloads(8 * field + 2, MarshalledKeywords(ks))
    decreases |ks|
  {
    hide EncodeVarint, MarshalKeyword, SmallFields;
    if ks != [] {
      KeywordsBytes(field, ks[1..]);
      assert MarshalledKeywords(ks)[1..] == MarshalledKeywords(ks[1..]);
      assert KeywordList(field, ks)[1..] == KeywordList(field, ks[1..]);
    }
  }

  lemma {:induction false} DocumentsBytes(ds: seq<Document>)
    ensures Encode(DocumentList(ds)) == Payloads(0x0A, MarshalledDocuments(ds))
    decreases |ds|
  {
    hide EncodeVarint, MarshalDocument, SmallFields;
    if ds != [] {
      DocumentsBytes(ds[1..]);
      assert MarshalledDocuments(ds)[1..] == MarshalledDocuments(ds[1..]);
      assert DocumentList(ds)[1..] == DocumentList(ds[1..]);
    }
  }

  lemma {:induction false} PackBytes(vs: seq<uint64>)
    ensures Pack(vs) == AllNumbers(vs)
  {
    if vs != [] { PackBytes(vs[1..]); }
  }

  lemma KeywordLayout(k: Keyword)
    ensures MarshalKeyword(k) == PayloadUnlessEmpty(0x0A, k.field) + PayloadUnlessEmpty(0x12, k.word)
  {
    hide Encode, LenIf, SmallFields;
    LenBytes(1, k.field);
    LenBytes(2, k.word);
    RoundTrip.EncodeAppend(LenIf(1, k.field), LenIf(2, k.word));
  }

  lemma QueryLayout(q: TermQuery)
    ensures MarshalQuery(q) ==
              (if q.keyword.Some? then Payload(0x0A, MarshalKeyword(q.keyword.value)) else [])
              + Payloads(0x12, MarshalledQueries(q.must)) + Payloads(0x1A, MarshalledQueries(q.should))
  {
    hide Encode, QueryList, MarshalKeyword, SmallFields, EncodeVarint;
    var p1, p2, p3 := KeywordIf(1, q.keyword), QueryList(2, q.must), QueryList(3, q.should);
    RoundTrip.KeywordIfSmall(1, q.keyword);
    RoundTrip.EncodeAppend(p1, p2);
    RoundTrip.EncodeAppend(p1 + p2, p3);
    QueriesBytes(2, q.must);
    QueriesBytes(3, q.should);
    if q.keyword.Some? {
      EncodeOne(LenRec(1, MarshalKeyword(q.keyword.value)));
    } else {
      NothingEncoded();
    }
  }

  lemma NothingEncoded()
    ensures SmallFields([]) && Encode([]) == []
  {
  }

  lemma DocumentLayout(d: Document)
    ensures MarshalDocument(d) ==
              PayloadUnlessEmpty(0x0A, d.id) + NumberUnlessZero(0x10, d.intId) + NumberUnlessZero(0x18, d.bits)
              + Payloads(0x22, MarshalledKeywords(d.keywords)) + PayloadUnlessEmpty(0x2A, d.bytes)
  {
    hide Encode, KeywordList, LenIf, VarintIf, SmallFields;
    var p1, p2, p3 := LenIf(1, d.id), VarintIf(2, d.intId), VarintIf(3, d.bits);
    var p4, p5 := KeywordList(4, d.keywords), LenIf(5, d.bytes);
    LenBytes(1, d.id);
    VarintBytes(2, d.intId);
    VarintBytes(3, d.bits);
    KeywordsBytes(4, d.keywords);
    LenBytes(5, d.bytes);
    RoundTrip.EncodeAppend(p1, p2);
    RoundTrip.EncodeAppend(p1 + p2, p3);
    RoundTrip.EncodeAppend(p1 + p2 + p3, p4);
    RoundTrip.EncodeAppend(p1 + p2 + p3 + p4, p5);
  }

  lemma RequestLayout(r: SearchRequest)
    ensures Encode(RequestRecords(r)) ==
              (if r.query.Some? then Payload(0x0A, MarshalQuery(r.query.value)) else [])
              + NumberUnlessZero(0x10, r.onFlag) + NumberUnlessZero(0x18, r.offFlag)
              + PayloadUnlessEmpty(0x22, AllNumbers(r.orFlags))
  {
    hide Encode, VarintIf, MarshalQuery, SmallFields, EncodeVarint, Pack;
    var p1, p2, p3 := QueryIf(1, r.query), VarintIf(2, r.onFlag), VarintIf(3, r.offFlag);
    var p4 := PackedIf(4, r.orFlags);
    VarintBytes(2, r.onFlag);
    VarintBytes(3, r.offFlag);
    HeadBytes(r);
    FlagsBytes(r.orFlags);
    RoundTrip.EncodeAppend(p1, p2);
    RoundTrip.EncodeAppend(p1 + p2, p3);
    RoundTrip.EncodeAppend(p1 + p2 + p3, p4);
  }

  lemma HeadBytes(r: SearchRequest)
    ensures SmallFields(QueryIf(1, r.query))
    ensures Encode(QueryIf(1, r.query)) == if r.query.Some? then Payload(0x0A, MarshalQuery(r.query.value)) else []
  {
    hide Encode, MarshalQuery, EncodeVarint;
    if r.query.Some? {
      EncodeOne(LenRec(1, MarshalQuery(r.query.value)));
    } else {
      NothingEncoded();
    }
  }

  lemma FlagsBytes(vs: seq<uint64>)
    ensures SmallFields(PackedIf(4, vs)) && Encode(PackedIf(4, vs)) == PayloadUnlessEmpty(0x22, AllNumbers(vs))
  {
    hide Encode, EncodeVarint;
    PackBytes(vs);
    if vs == [] {
      NothingEncoded();
    } else {
      EncodeOne(PackedRec(4, vs));
    }
  }

  lemma ResponseLayout(ds: seq<Document>)
    ensures Messages.Marshal(ResponseMsg(ds)) == Payloads(0x0A, MarshalledDocuments(ds))
  {
    hide Encode, DocumentList, MarshalledDocuments;
    DocumentsBytes(ds);
  }

  // ----- Decoding one field, whatever wrote it -----

  lemma DecodeOne(m: Message, r: Record)
    requires Fits(SchemaOf(m), r) && |EncodeRecord(r)| < TWO_63
    ensures Decode(m, EncodeRecord(r)) == Apply(m, r)
  {
    hide Decode, Encode, EncodeRecord, SchemaOf, ApplyAll, Apply, Zero;
    EncodeOne(r);
    RoundTrip.DecodeEncoded(m, [r]);
    ApplyOne(m, r);
  }

  function WithKeyword(q: TermQuery, r: Result<Keyword, WireError>): Result<Message, WireError> {
    match r case Ok(k) => Ok(QueryMsg(q.(keyword := Some(k)))) case Err(e) => Err(e)
  }

  function MoreMust(q: TermQuery, r: Result<TermQuery, WireError>): Result<Message, WireError> {
    match r case Ok(sub) => Ok(QueryMsg(q.(must := q.must + [sub]))) case Err(e) => Err(e)
  }

  function MoreShould(q: TermQuery, r: Result<TermQuery, WireError>): Result<Message, WireError> {
    match r case Ok(sub) => Ok(QueryMsg(q.(should := q.should + [sub]))) case Err(e) => Err(e)
  }

  function MoreKeywords(d: Document, r: Result<Keyword, WireError>): Result<Message, WireError> {
    match r case Ok(k) => Ok(DocumentMsg(d.(keywords := d.keywords + [k]))) case Err(e) => Err(e)
  }

  function WithQuery(r: SearchRequest, q: Result<TermQuery, WireError>): Result<Message, WireError> {
    match q case Ok(q') => Ok(RequestMsg(r.(query := Some(q')))) case Err(e) => Err(e)
  }

  function MoreDocuments(ds: seq<Document>, r: Result<Document, WireError>): Result<Message, WireError> {
    match r case Ok(d) => Ok(ResponseMsg(ds + [d])) case Err(e) => Err(e)
  }

  /** A sent string replaces the present one, an empty one too. */
  lemma KeywordFields(k: Keyword, s: Str)
    requires |Payload(0x0A, s)| < TWO_63
    ensures Decode(KeywordMsg(k), Payload(0x0A, s)) == Ok(KeywordMsg(k.(field := s)))
    ensures Decode(KeywordMsg(k), Payload(0x12, s)) == Ok(KeywordMsg(k.(word := s)))
  {
    hide Decode, EncodeVarint, Zero;
    DecodeOne(KeywordMsg(k), LenRec(1, s));
    DecodeOne(KeywordMsg(k), LenRec(2, s));
  }

  /** A sent keyword is decoded into the present one, a sub-query into a fresh one. */
  lemma QueryFields(q: TermQuery, s: Str)
    requires |Payload(0x0A, s)| < TWO_63
    ensures Decode(QueryMsg(q), Payload(0x0A, s)) ==
              WithKeyword(q, DecodeKeyword(OrDefault(q.keyword, Keyword([], [])), s))
    ensures Decode(QueryMsg(q), Payload(0x12, s)) == MoreMust(q, DecodeQuery(TermQuery(None, [], []), s))
    ensures Decode(QueryMsg(q), Payload(0x1A, s)) == MoreShould(q, DecodeQuery(TermQuery(None, [], []), s))
  {
    hide Decode, DecodeKeyword, DecodeQuery, EncodeVarint, Zero;
    DecodeOne(QueryMsg(q), LenRec(1, s));
    DecodeOne(QueryMsg(q), LenRec(2, s));
    DecodeOne(QueryMsg(q), LenRec(3, s));
  }

  /** A sent zero replaces the present number. */
  lemma DocumentFields(d: Document, s: Str, v: uint64)
    requires |Payload(0x0A, s)| < TWO_63
    ensures Decode(DocumentMsg(d), Payload(0x0A, s)) == Ok(DocumentMsg(d.(id := s)))
    ensures Decode(DocumentMsg(d), Number(0x10, v)) == Ok(DocumentMsg(d.(intId := v)))
    ensures Decode(DocumentMsg(d), Number(0x18, v)) == Ok(DocumentMsg(d.(bits := v)))
    ensures Decode(DocumentMsg(d), Payload(0x22, s)) == MoreKeywords(d, DecodeKeyword(Keyword([], []), s))
    ensures Decode(DocumentMsg(d), Payload(0x2A, s)) == Ok(DocumentMsg(d.(bytes := s)))
  {
    hide Decode, DecodeKeyword, EncodeVarint, Zero;
    SovIsLength(v);
    DecodeOne(DocumentMsg(d), LenRec(1, s));
    DecodeOne(DocumentMsg(d), VarintRec(2, v));
    DecodeOne(DocumentMsg(d), VarintRec(3, v));
    DecodeOne(DocumentMsg(d), LenRec(4, s));
    DecodeOne(DocumentMsg(d), LenRec(5, s));
  }

  /** A flag of the list may come alone, unpacked. */
  lemma RequestFields(r: SearchRequest, s: Str, v: uint64)
    requires |Payload(0x0A, s)| < TWO_63
    ensures Decode(RequestMsg(r), Payload(0x0A, s)) ==
              WithQuery(r, DecodeQuery(OrDefault(r.query, TermQuery(None, [], [])), s))
    ensures Decode(RequestMsg(r), Number(0x10, v)) == Ok(RequestMsg(r.(onFlag := v)))
    ensures Decode(RequestMsg(r), Number(0x18, v)) == Ok(RequestMsg(r.(offFlag := v)))
    ensures Decode(RequestMsg(r), Number(0x20, v)) == Ok(RequestMsg(r.(orFlags := r.orFlags + [v])))
  {
    hide Decode, DecodeQuery, EncodeVarint, Zero;
    SovIsLength(v);
    DecodeOne(RequestMsg(r), LenRec(1, s));
    DecodeOne(RequestMsg(r), VarintRec(2, v));
    DecodeOne(RequestMsg(r), VarintRec(3, v));
    DecodeOne(RequestMsg(r), VarintRec(4, v));
  }

  lemma PackedFlags(r: SearchRequest, vs: seq<uint64>)
    requires |Payload(0x22, AllNumbers(vs))| < TWO_63
    ensures Decode(RequestMsg(r), Payload(0x22, AllNumbers(vs))) == Ok(RequestMsg(r.(orFlags := r.orFlags + vs)))
  {
    hide Decode, EncodeVarint, Zero;
    PackBytes(vs);
    DecodeOne(RequestMsg(r), PackedRec(4, vs));
  }

  lemma ResponseFields(ds: seq<Document>, s: Str)
    requires |Payload(0x0A, s)| < TWO_63
    ensures Decode(ResponseMsg(ds), Payload(0x0A, s)) ==
              MoreDocuments(ds, DecodeDocument(Document([], 0, 0, [], []), s))
  {
    hide Decode, DecodeDocument, EncodeVarint, Zero;
    DecodeOne(ResponseMsg(ds), LenRec(1, s));
  }

  // ----- Packed or not -----

  /** Or-flags as an encoder may write them that does not pack. */
  function Unpacked(vs: seq<uint64>): Str {
    if vs == [] then [] else Number(0x20, vs[0]) + Unpacked(vs[1..])
  }

  lemma {:induction false} UnpackedFlags(r: SearchRequest, vs: seq<uint64>)
    requires |Unpacked(vs)| < TWO_63
    ensures Decode(RequestMsg(r), Unpacked(vs)) == Ok(RequestMsg(r.(orFlags := r.orFlags + vs)))
    decreases |vs|
  {
    hide Decode, Number, Zero;
    if vs == [] {
      DecodeNothing(RequestMsg(r));
      assert r.orFlags + vs == r.orFlags;
    } else {
      var first, rest := Number(0x20, vs[0]), Unpacked(vs[1..]);
      var r' := r.(orFlags := r.orFlags + [vs[0]]);
      EmptyPayloadFits();
      RequestFields(r, [], vs[0]);
      DecodeAppend(RequestMsg(r), first, rest);
      UnpackedFlags(r', vs[1..]);
      assert r.orFlags + [vs[0]] + vs[1..] == r.orFlags + vs;
    }
  }

  lemma EmptyPayloadFits()
    ensures |Payload(0x0A, [])| < TWO_63
  {
  }

  lemma DecodeNothing(m: Message)
    ensures Decode(m, []) == Ok(m)
  {
    hide SchemaOf, Zero, Apply;
    ParseEmpty(SchemaOf(m), 0);
  }

  /** Packing makes no difference to what a request means. */
  lemma UnpackedIsPacked(r: SearchRequest, vs: seq<uint64>)
    requires |Unpacked(vs)| < TWO_63 && |Payload(0x22, AllNumbers(vs))| < TWO_63
    ensures Decode(RequestMsg(r), Unpacked(vs)) == Decode(RequestMsg(r), Payload(0x22, AllNumbers(vs)))
  {
    hide Decode, Payload, Zero;
    UnpackedFlags(r, vs);
    PackedFlags(r, vs);
  }

  // ----- What no field may look like -----

  /** The wire types a known field is accepted with. */
  predicate Accepted(kind: Kind, wireType: nat) {
    match kind
    case VarintKind => wireType == 0
    case LenKind => wireType == 2
    case PackedKind => wireType == 0 || wireType == 2
  }

  /** An end of a group, a field number of zero, and a known field with a wire type it does not take. */
  lemma BadTag(m: Message, tag: Byte, t: Str)
    requires tag < 0x80
    ensures tag % 8 == 4 ==> Decode(m, [tag] + t) == Err(EndGroup)
    ensures tag < 8 && tag != 4 ==> Decode(m, [tag] + t) == Err(IllegalTag)
    ensures tag >= 8 && tag / 8 in SchemaOf(m) && tag % 8 != 4 && !Accepted(SchemaOf(m)[tag / 8], tag % 8) ==>
              Decode(m, [tag] + t) == Err(WrongWireType)
  {
    hide Read, Int32, SkipFrom, TotalBytes, ApplyAll, Zero, SchemaOf, Numbers, Length, Parse;
    ReadTag(tag, t);
    FieldNumber(tag / 8, tag % 8);
    FieldNumber(0, 0);
    var f := Field(SchemaOf(m), [tag] + t, 0);
    assert ([tag] + t)[1..] == t;
    if f.Err? {
      ParseFirstFails(SchemaOf(m), [tag] + t);
      ApplyNone(m);
    }
  }

  lemma ParseFirstFails(schema: Wire.Schema, s: Str)
    requires s != [] && Field(schema, s, 0).Err?
    ensures Parse(schema, s, 0) == Parsed([], Some(Field(schema, s, 0).error))
  {
    hide Field, TotalBytes;
  }

  /** A known field that cannot be read fails the message. */
  lemma FirstBodyFails(m: Message, field: nat, wireType: nat, t: Str, e: WireError)
    requires 0 < field < 16 && field in SchemaOf(m) && wireType < 8 && wireType != 4
    requires Body(SchemaOf(m)[field], field, wireType, t, 1) == Err(e)
    ensures Decode(m, [8 * field + wireType] + t) == Err(e)
  {
    hide Read, Body, Int32, SkipFrom, TotalBytes, ApplyAll, Zero, SchemaOf, Parse;
    var s := [8 * field + wireType] + t;
    assert s[1..] == t;
    ReadTag(8 * field + wireType, t);
    FieldNumber(field, wireType);
    ParseFirstFails(SchemaOf(m), s);
    ApplyNone(m);
  }

  lemma LengthFails(v: uint64, t: Str, off: nat)
    requires off + |EncodeVarint(v) + t| < TWO_63
    ensures var n := |EncodeVarint(v)|;
            && (off + n + v >= TWO_63 ==> Length(EncodeVarint(v) + t, off) == Err(InvalidLength))
            && (off + n + v < TWO_63 && v > |t| ==> Length(EncodeVarint(v) + t, off) == Err(UnexpectedEOF))
  {
    hide Read, EncodeVarint;
    ReadEncoding(v, t);
  }

  lemma BodyNeedsLength(kind: Kind, field: int, s: Str)
    requires !kind.VarintKind? && Length(s, 1).Err?
    ensures Body(kind, field, 2, s, 1) == Err(Length(s, 1).error)
  {
    hide Read, Length, Numbers;
  }

  /** A length whose end is no positive signed number, or lies behind the end of the message. */
  lemma BadLength(m: Message, field: nat, v: uint64, t: Str)
    requires 0 < field < 16 && field in SchemaOf(m) && !SchemaOf(m)[field].VarintKind?
    requires 1 + |EncodeVarint(v) + t| < TWO_63
    ensures var n := |EncodeVarint(v)|;
            && (1 + n + v >= TWO_63 ==>
                  Decode(m, [8 * field + 2] + (EncodeVarint(v) + t)) == Err(InvalidLength))
            && (1 + n + v < TWO_63 && v > |t| ==>
                  Decode(m, [8 * field + 2] + (EncodeVarint(v) + t)) == Err(UnexpectedEOF))
  {
    hide EncodeVarint, Body, Length, Decode, SchemaOf;
    var s := EncodeVarint(v) + t;
    LengthFails(v, t, 1);
    if Length(s, 1).Err? {
      BodyNeedsLength(SchemaOf(m)[field], field, s);
      FirstBodyFails(m, field, 2, s, Length(s, 1).error);
    }
  }

  /** A number that does not end, or is longer than ten bytes. */
  lemma BadNumber(m: Message, field: nat, s: Str)
    requires 0 < field < 16 && field in SchemaOf(m) && SchemaOf(m)[field].VarintKind?
    requires forall i :: 0 <= i < |s| ==> s[i] >= 128
    ensures Decode(m, [8 * field] + s) == Err(if |s| < 10 then UnexpectedEOF else IntOverflow)
  {
    hide Read, Decode, SchemaOf;
    ReadAfter(s, if |s| < 10 then |s| else 10);
    FirstBodyFails(m, field, 0, s, Read(s).error);
  }

  /** The two wire types that do not exist, under a field number the message does not know. */
  lemma BadWireType(m: Message, tag: Byte, t: Str)
    requires 8 <= tag < 0x80 && tag / 8 !in SchemaOf(m) && tag % 8 in {6, 7}
    ensures Decode(m, [tag] + t) == Err(IllegalWireType)
  {
    hide Read, Int32, TotalBytes, ApplyAll, Zero, SchemaOf, Numbers, Parse;
    ReadTag(tag, t);
    FieldNumber(tag / 8, tag % 8);
    var s := [tag] + t;
    assert s[0..] == s;
    assert SkipFrom(s, 0, 0) == Err(IllegalWireType);
    ParseFirstFails(SchemaOf(m), s);
    ApplyNone(m);
  }
}
