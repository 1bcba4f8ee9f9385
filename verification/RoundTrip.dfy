/** Every message that fits a buffer survives the wire: decoding what was encoded into a fresh
    message gives the message back, and into any other message merges it. */
module RoundTrip {
  import opened GoBase
  import opened Types
  import opened Varint
  import opened Wire
  import opened Canonical
  import opened Messages

  lemma {:induction false} EncodeAppend(a: seq<Record>, b: seq<Record>)
    requires SmallFields(a) && SmallFields(b)
    ensures SmallFields(a + b) && Encode(a + b) == Encode(a) + Encode(b)
    decreases |a|
  {
    hide EncodeRecord, SmallField;
    if a == [] {
      assert a + b == b;
    } else {
      EncodeAppend(a[1..], b);
      assert (a + b)[1..] == a[1..] + b;
    }
  }

  /** A payload is shorter than the bytes it is part of. */
  lemma {:induction false} PayloadBelow(recs: seq<Record>, i: nat)
    requires SmallFields(recs) && i < |recs|
    ensures PayloadSize(recs[i]) < |Encode(recs)|
    decreases |recs|
  {
    if i > 0 {
      PayloadBelow(recs[1..], i - 1);
    }
  }

  lemma DecodeEncoded(m: Message, recs: seq<Record>)
    requires SmallFields(recs) && AllFit(m, recs) && |Encode(recs)| < TWO_63
    ensures Decode(m, Encode(recs)) == ApplyAll(m, recs)
  {
    hide Encode, ApplyAll, Parse, SchemaOf, Zero, Fits;
    ParseBack(SchemaOf(m), recs, 0);
  }

  /** Applying records in two parts, the first of which succeeds. */
  lemma ApplyParts(m: Message, a: seq<Record>, b: seq<Record>, m': Message)
    requires ApplyAll(m, a) == Ok(m')
    ensures ApplyAll(m, a + b) == ApplyAll(m', b)
  {
    hide ApplyAll, Zero;
    ApplyAllAppend(m, a, b);
  }

  // ----- Keywords -----

  lemma KeywordPart(k: Keyword, field: int, payload: Str)
    ensures ApplyAll(KeywordMsg(k), LenIf(field, payload)) ==
              Ok(KeywordMsg(if payload == [] then k
                            else if field == 1 then k.(field := payload) else k.(word := payload)))
  {
    hide ApplyAll, Zero;
    ApplyNone(KeywordMsg(k));
    ApplyOne(KeywordMsg(k), LenRec(field, payload));
  }

  lemma KeywordMerges(k0: Keyword, k: Keyword)
    requires |MarshalKeyword(k)| < TWO_63
    ensures DecodeKeyword(k0, MarshalKeyword(k)) == Ok(MergeKeyword(k0, k))
    ensures Decode(KeywordMsg(k0), MarshalKeyword(k)) == Ok(KeywordMsg(MergeKeyword(k0, k)))
  {
    hide ApplyAll, Zero, Decode, Encode, LenIf, AllFit, SmallFields;
    DecodeEncoded(KeywordMsg(k0), KeywordRecords(k));
    KeywordPart(k0, 1, k.field);
    var k1 := if k.field == [] then k0 else k0.(field := k.field);
    ApplyParts(KeywordMsg(k0), LenIf(1, k.field), LenIf(2, k.word), KeywordMsg(k1));
    KeywordPart(k1, 2, k.word);
  }

  // ----- Queries -----

  lemma ApplyKeywordToQuery(q: TermQuery, k: Keyword)
    requires |MarshalKeyword(k)| < TWO_63
    ensures ApplyAll(QueryMsg(q), [LenRec(1, MarshalKeyword(k))]) ==
              Ok(QueryMsg(q.(keyword := Some(MergeKeyword(OrDefault(q.keyword, NO_KEYWORD), k)))))
  {
    hide ApplyAll, Zero, MarshalKeyword, MergeKeyword, DecodeKeyword;
    ApplyOne(QueryMsg(q), LenRec(1, MarshalKeyword(k)));
    KeywordMerges(OrDefault(q.keyword, NO_KEYWORD), k);
  }

  function Extended(q: TermQuery, field: int, qs: seq<TermQuery>): TermQuery {
    if field == 2 then q.(must := q.must + qs) else q.(should := q.should + qs)
  }

  lemma ApplySubquery(q: TermQuery, field: int, sub: TermQuery)
    requires field == 2 || field == 3
    requires DecodeQuery(EMPTY_QUERY, MarshalQuery(sub)) == Ok(sub)
    ensures Apply(QueryMsg(q), LenRec(field, MarshalQuery(sub))) == Ok(QueryMsg(Extended(q, field, [sub])))
  {
    hide Zero, MarshalQuery, DecodeQuery, DecodeKeyword;
  }

  lemma {:induction false} ApplyQueryList(q: TermQuery, field: int, qs: seq<TermQuery>)
    requires field == 2 || field == 3
    requires |Encode(QueryList(field, qs))| < TWO_63
    ensures ApplyAll(QueryMsg(q), QueryList(field, qs)) == Ok(QueryMsg(Extended(q, field, qs)))
    decreases qs, 0
  {
    hide ApplyAll, Zero, MarshalQuery, Apply, DecodeQuery, EncodeRecord, SmallField;
    if qs == [] {
      ApplyNone(QueryMsg(q));
      assert q.must + qs == q.must && q.should + qs == q.should;
    } else {
      var first, rest := LenRec(field, MarshalQuery(qs[0])), QueryList(field, qs[1..]);
      PayloadBelow(QueryList(field, qs), 0);
      assert QueryList(field, qs)[1..] == rest;
      QueryBack(qs[0]);
      ApplySubquery(q, field, qs[0]);
      ApplyOne(QueryMsg(q), first);
      var q' := Extended(q, field, [qs[0]]);
      ApplyParts(QueryMsg(q), [first], rest, QueryMsg(q'));
      ApplyQueryList(q', field, qs[1..]);
      ExtendTwice(q, field, qs);
    }
  }

  lemma ExtendTwice(q: TermQuery, field: int, qs: seq<TermQuery>)
    requires qs != []
    ensures Extended(Extended(q, field, [qs[0]]), field, qs[1..]) == Extended(q, field, qs)
  {
    assert q.must + [qs[0]] + qs[1..] == q.must + qs;
    assert q.should + [qs[0]] + qs[1..] == q.should + qs;
  }

  lemma {:induction false} QueryMerges(q0: TermQuery, q: TermQuery)
    requires |MarshalQuery(q)| < TWO_63
    ensures DecodeQuery(q0, MarshalQuery(q)) == Ok(MergeQuery(q0, q))
    decreases q, 1
  {
    hide ApplyAll, Zero, Decode, Encode, QueryList, MarshalKeyword, AllFit, SmallFields, MergeKeyword;
    var head := KeywordIf(1, q.keyword);
    var must, should := QueryList(2, q.must), QueryList(3, q.should);
    KeywordIfSmall(1, q.keyword);
    EncodeAppend(head, must);
    EncodeAppend(head + must, should);
    DecodeEncoded(QueryMsg(q0), QueryRecords(q));
    var q1 := if q.keyword == None then q0
              else q0.(keyword := Some(MergeKeyword(OrDefault(q0.keyword, NO_KEYWORD), q.keyword.value)));
    if q.keyword.Some? {
      PayloadBelow(head, 0);
      ApplyKeywordToQuery(q0, q.keyword.value);
    } else {
      ApplyNone(QueryMsg(q0));
    }
    ApplyQueryList(q1, 2, q.must);
    var q2 := Extended(q1, 2, q.must);
    ApplyQueryList(q2, 3, q.should);
    ApplyParts(QueryMsg(q0), head, must, QueryMsg(q1));
    ApplyParts(QueryMsg(q0), head + must, should, QueryMsg(q2));
  }

  lemma KeywordIfSmall(field: int, k: Option<Keyword>)
    requires 1 <= field < 16
    ensures SmallFields(KeywordIf(field, k))
  {
    hide MarshalKeyword;
  }

  lemma {:induction false} QueryBack(q: TermQuery)
    requires |MarshalQuery(q)| < TWO_63
    ensures DecodeQuery(EMPTY_QUERY, MarshalQuery(q)) == Ok(q)
    decreases q, 2
  {
    hide DecodeQuery, MarshalQuery;
    QueryMerges(EMPTY_QUERY, q);
    assert [] + q.must == q.must && [] + q.should == q.should;
  }

  // ----- Documents -----

  lemma DocumentLen(d: Document, field: int, payload: Str)
    requires field == 1 || field == 5
    ensures ApplyAll(DocumentMsg(d), LenIf(field, payload)) ==
              Ok(DocumentMsg(if payload == [] then d
                             else if field == 1 then d.(id := payload) else d.(bytes := payload)))
  {
    hide ApplyAll, Zero, DecodeKeyword;
    ApplyNone(DocumentMsg(d));
    ApplyOne(DocumentMsg(d), LenRec(field, payload));
  }

  lemma DocumentVarint(d: Document, field: int, v: uint64)
    requires field == 2 || field == 3
    ensures ApplyAll(DocumentMsg(d), VarintIf(field, v)) ==
              Ok(DocumentMsg(if v == 0 then d else if field == 2 then d.(intId := v) else d.(bits := v)))
  {
    hide ApplyAll, Zero, DecodeKeyword;
    ApplyNone(DocumentMsg(d));
    ApplyOne(DocumentMsg(d), VarintRec(field, v));
  }

  lemma KeywordBack(k: Keyword)
    requires |MarshalKeyword(k)| < TWO_63
    ensures DecodeKeyword(NO_KEYWORD, MarshalKeyword(k)) == Ok(k)
  {
    hide DecodeKeyword, MarshalKeyword;
    KeywordMerges(NO_KEYWORD, k);
  }

  lemma ApplyDocumentKeyword(d: Document, k: Keyword)
    requires |MarshalKeyword(k)| < TWO_63
    ensures ApplyAll(DocumentMsg(d), [LenRec(4, MarshalKeyword(k))]) ==
              Ok(DocumentMsg(d.(keywords := d.keywords + [k])))
  {
    hide ApplyAll, Zero, MarshalKeyword, DecodeKeyword;
    ApplyOne(DocumentMsg(d), LenRec(4, MarshalKeyword(k)));
    KeywordBack(k);
  }

  lemma {:induction false} ApplyKeywordList(d: Document, ks: seq<Keyword>)
    requires |Encode(KeywordList(4, ks))| < TWO_63
    ensures ApplyAll(DocumentMsg(d), KeywordList(4, ks)) == Ok(DocumentMsg(d.(keywords := d.keywords + ks)))
    decreases |ks|
  {
    hide ApplyAll, Zero, MarshalKeyword, EncodeRecord, SmallField;
    if ks == [] {
      ApplyNone(DocumentMsg(d));
      assert d.keywords + ks == d.keywords;
    } else {
      var first, rest := LenRec(4, MarshalKeyword(ks[0])), KeywordList(4, ks[1..]);
      PayloadBelow(KeywordList(4, ks), 0);
      assert KeywordList(4, ks)[1..] == rest;
      ApplyDocumentKeyword(d, ks[0]);
      var d' := d.(keywords := d.keywords + [ks[0]]);
      ApplyParts(DocumentMsg(d), [first], rest, DocumentMsg(d'));
      ApplyKeywordList(d', ks[1..]);
      assert d.keywords + [ks[0]] + ks[1..] == d.keywords + ks;
    }
  }

  lemma LenIfSmall(field: int, payload: Str)
    requires 1 <= field < 16
    ensures SmallFields(LenIf(field, payload))
  {
  }

  lemma VarintIfSmall(field: int, v: uint64)
    requires 1 <= field < 16
    ensures SmallFields(VarintIf(field, v))
  {
  }

  lemma DocumentMerges(d0: Document, d: Document)
    requires |MarshalDocument(d)| < TWO_63
    ensures Decode(DocumentMsg(d0), MarshalDocument(d)) == Ok(DocumentMsg(MergeDocument(d0, d)))
    ensures DecodeDocument(d0, MarshalDocument(d)) == Ok(MergeDocument(d0, d))
  {
    hide ApplyAll, Zero, Decode, Encode, KeywordList, LenIf, VarintIf, AllFit, SmallFields;
    DecodeEncoded(DocumentMsg(d0), DocumentRecords(d));
    var p1, p2, p3 := LenIf(1, d.id), VarintIf(2, d.intId), VarintIf(3, d.bits);
    var p4, p5 := KeywordList(4, d.keywords), LenIf(5, d.bytes);
    KeywordsFit(d);
    DocumentLen(d0, 1, d.id);
    var d1 := if d.id == [] then d0 else d0.(id := d.id);
    DocumentVarint(d1, 2, d.intId);
    var d2 := if d.intId == 0 then d1 else d1.(intId := d.intId);
    DocumentVarint(d2, 3, d.bits);
    var d3 := if d.bits == 0 then d2 else d2.(bits := d.bits);
    ApplyKeywordList(d3, d.keywords);
    var d4 := d3.(keywords := d3.keywords + d.keywords);
    DocumentLen(d4, 5, d.bytes);
    ApplyParts(DocumentMsg(d0), p1, p2, DocumentMsg(d1));
    ApplyParts(DocumentMsg(d0), p1 + p2, p3, DocumentMsg(d2));
    ApplyParts(DocumentMsg(d0), p1 + p2 + p3, p4, DocumentMsg(d3));
    ApplyParts(DocumentMsg(d0), p1 + p2 + p3 + p4, p5, DocumentMsg(d4));
  }

  lemma KeywordsFit(d: Document)
    ensures |Encode(KeywordList(4, d.keywords))| <= |MarshalDocument(d)|
  {
    hide Encode, KeywordList, LenIf, VarintIf, SmallFields;
    var p1, p2, p3 := LenIf(1, d.id), VarintIf(2, d.intId), VarintIf(3, d.bits);
    var p4, p5 := KeywordList(4, d.keywords), LenIf(5, d.bytes);
    LenIfSmall(1, d.id);
    LenIfSmall(5, d.bytes);
    VarintIfSmall(2, d.intId);
    VarintIfSmall(3, d.bits);
    EncodeAppend(p1, p2);
    EncodeAppend(p1 + p2, p3);
    EncodeAppend(p1 + p2 + p3, p4);
    EncodeAppend(p1 + p2 + p3 + p4, p5);
  }

  // ----- Requests and responses -----

  lemma RequestVarint(r: SearchRequest, field: int, v: uint64)
    requires field == 2 || field == 3
    ensures ApplyAll(RequestMsg(r), VarintIf(field, v)) ==
              Ok(RequestMsg(if v == 0 then r else if field == 2 then r.(onFlag := v) else r.(offFlag := v)))
  {
    hide ApplyAll, Zero, DecodeQuery;
    ApplyNone(RequestMsg(r));
    ApplyOne(RequestMsg(r), VarintRec(field, v));
  }

  lemma RequestOrFlags(r: SearchRequest, vs: seq<uint64>)
    ensures ApplyAll(RequestMsg(r), PackedIf(4, vs)) ==
              Ok(RequestMsg(r.(orFlags := r.orFlags + vs)))
  {
    hide ApplyAll, Zero, DecodeQuery;
    ApplyNone(RequestMsg(r));
    ApplyOne(RequestMsg(r), PackedRec(4, vs));
    assert vs == [] ==> r.orFlags + vs == r.orFlags;
  }

  lemma RequestQuery(r: SearchRequest, q: TermQuery)
    requires |MarshalQuery(q)| < TWO_63
    ensures ApplyAll(RequestMsg(r), [LenRec(1, MarshalQuery(q))]) ==
              Ok(RequestMsg(r.(query := Some(MergeQuery(OrDefault(r.query, EMPTY_QUERY), q)))))
  {
    hide ApplyAll, Zero, DecodeQuery, MarshalQuery, MergeQuery;
    ApplyOne(RequestMsg(r), LenRec(1, MarshalQuery(q)));
    QueryMerges(OrDefault(r.query, EMPTY_QUERY), q);
  }

  lemma RequestHead(r0: SearchRequest, r: SearchRequest)
    requires |Encode(RequestRecords(r))| < TWO_63
    ensures ApplyAll(RequestMsg(r0), QueryIf(1, r.query)) ==
              Ok(RequestMsg(if r.query == None then r0
                            else r0.(query := Some(MergeQuery(OrDefault(r0.query, EMPTY_QUERY), r.query.value)))))
  {
    hide ApplyAll, Zero, MarshalQuery, MergeQuery, Encode, VarintIf;
    if r.query.Some? {
      PayloadBelow(RequestRecords(r), 0);
      RequestQuery(r0, r.query.value);
    } else {
      ApplyNone(RequestMsg(r0));
    }
  }

  lemma RequestMerges(r0: SearchRequest, r: SearchRequest)
    requires |Encode(RequestRecords(r))| < TWO_63
    ensures Decode(RequestMsg(r0), Encode(RequestRecords(r))) == Ok(RequestMsg(MergeRequest(r0, r)))
  {
    hide ApplyAll, Zero, Decode, Encode, VarintIf, MarshalQuery, MergeQuery, AllFit, SmallFields;
    DecodeEncoded(RequestMsg(r0), RequestRecords(r));
    var p1, p2, p3 := QueryIf(1, r.query), VarintIf(2, r.onFlag), VarintIf(3, r.offFlag);
    var p4 := PackedIf(4, r.orFlags);
    RequestHead(r0, r);
    var r1 := if r.query == None then r0
              else r0.(query := Some(MergeQuery(OrDefault(r0.query, EMPTY_QUERY), r.query.value)));
    RequestVarint(r1, 2, r.onFlag);
    var r2 := if r.onFlag == 0 then r1 else r1.(onFlag := r.onFlag);
    RequestVarint(r2, 3, r.offFlag);
    var r3 := if r.offFlag == 0 then r2 else r2.(offFlag := r.offFlag);
    RequestOrFlags(r3, r.orFlags);
    ApplyParts(RequestMsg(r0), p1, p2, RequestMsg(r1));
    ApplyParts(RequestMsg(r0), p1 + p2, p3, RequestMsg(r2));
    ApplyParts(RequestMsg(r0), p1 + p2 + p3, p4, RequestMsg(r3));
  }

  lemma ApplyResponseDocument(ds: seq<Document>, d: Document)
    requires |MarshalDocument(d)| < TWO_63
    ensures ApplyAll(ResponseMsg(ds), [LenRec(1, MarshalDocument(d))]) == Ok(ResponseMsg(ds + [d]))
  {
    hide ApplyAll, Zero, MarshalDocument, DecodeDocument;
    ApplyOne(ResponseMsg(ds), LenRec(1, MarshalDocument(d)));
    DocumentBack(d);
  }

  lemma DocumentBack(d: Document)
    requires |MarshalDocument(d)| < TWO_63
    ensures DecodeDocument(NO_DOCUMENT, MarshalDocument(d)) == Ok(d)
  {
    hide MarshalDocument, DecodeDocument, Decode;
    DocumentMerges(NO_DOCUMENT, d);
    assert [] + d.keywords == d.keywords;
  }

  lemma {:induction false} ApplyDocumentList(ds0: seq<Document>, ds: seq<Document>)
    requires |Encode(DocumentList(ds))| < TWO_63
    ensures ApplyAll(ResponseMsg(ds0), DocumentList(ds)) == Ok(ResponseMsg(ds0 + ds))
    decreases |ds|
  {
    hide ApplyAll, Zero, MarshalDocument, EncodeRecord, SmallField;
    if ds == [] {
      ApplyNone(ResponseMsg(ds0));
      assert ds0 + ds == ds0;
    } else {
      var first, rest := LenRec(1, MarshalDocument(ds[0])), DocumentList(ds[1..]);
      PayloadBelow(DocumentList(ds), 0);
      assert DocumentList(ds)[1..] == rest;
      ApplyResponseDocument(ds0, ds[0]);
      ApplyParts(ResponseMsg(ds0), [first], rest, ResponseMsg(ds0 + [ds[0]]));
      ApplyDocumentList(ds0 + [ds[0]], ds[1..]);
      assert ds0 + [ds[0]] + ds[1..] == ds0 + ds;
    }
  }

  lemma ResponseMerges(ds0: seq<Document>, ds: seq<Document>)
    requires |Encode(DocumentList(ds))| < TWO_63
    ensures Decode(ResponseMsg(ds0), Encode(DocumentList(ds))) == Ok(ResponseMsg(ds0 + ds))
  {
    hide ApplyAll, Zero, Decode, Encode, DocumentList, SmallFields;
    DocumentsFit(ds0, ds);
    DecodeEncoded(ResponseMsg(ds0), DocumentList(ds));
    ApplyDocumentList(ds0, ds);
  }

  lemma DocumentsFit(ds0: seq<Document>, ds: seq<Document>)
    ensures AllFit(ResponseMsg(ds0), DocumentList(ds))
  {
    hide DocumentList;
  }

  // ----- The main results -----

  /** Decoding an encoded message into any message of its kind merges it in. */
  lemma MarshalMerges(m0: Message, m: Message)
    requires Zero(m0) == Zero(m) && |Marshal(m)| < TWO_63
    ensures Decode(m0, Marshal(m)) == Ok(Merge(m0, m))
  {
    hide Decode, DecodeQuery, Encode, DocumentRecords, QueryRecords, KeywordRecords, RequestRecords, DocumentList,
      MergeKeyword, MergeQuery, MergeDocument, MergeRequest;
    match m
    case KeywordMsg(k) => KeywordMerges(m0.keyword, k);
    case QueryMsg(q) =>
      QueryMerges(m0.query, q);
      DecodeQueryIs(m0.query, Marshal(m));
    case DocumentMsg(d) => DocumentMerges(m0.doc, d);
    case RequestMsg(r) => RequestMerges(m0.request, r);
    case ResponseMsg(ds) => ResponseMerges(m0.docs, ds);
  }

  lemma DecodeQueryIs(q: TermQuery, s: Str)
    requires DecodeQuery(q, s).Ok?
    ensures Decode(QueryMsg(q), s) == Ok(QueryMsg(DecodeQuery(q, s).value))
  {
    hide Decode;
  }

  lemma MergeIntoZero(m: Message)
    ensures Zero(Zero(m)) == Zero(m) && Merge(Zero(m), m) == m
  {
    match m
    case QueryMsg(q) => MergeIntoEmpty(q);
    case DocumentMsg(d) => assert [] + d.keywords == d.keywords;
    case RequestMsg(r) =>
      assert [] + r.orFlags == r.orFlags;
      if r.query.Some? { MergeIntoEmpty(r.query.value); }
    case ResponseMsg(ds) => assert [] + ds == ds;
    case KeywordMsg(_) =>
  }

  lemma MergeIntoEmpty(q: TermQuery)
    ensures MergeQuery(EMPTY_QUERY, q) == q
  {
    assert [] + q.must == q.must && [] + q.should == q.should;
  }

  /** Unmarshal(Marshal(m)) into a fresh message gives m back: queries of any depth, present but
      empty keywords, and the order of every list included. */
  lemma RoundTrip(m: Message)
    requires |Marshal(m)| < TWO_63
    ensures Decode(Zero(m), Marshal(m)) == Ok(m)
  {
    hide Decode, Marshal, Merge, Zero;
    MergeIntoZero(m);
    MarshalMerges(Zero(m), m);
  }

  /** Different messages of one kind have different encodings. */
  lemma MarshalInjective(m: Message, m': Message)
    requires Zero(m) == Zero(m') && |Marshal(m)| < TWO_63 && Marshal(m) == Marshal(m')
    ensures m == m'
  {
    hide Decode, Marshal, Zero;
    RoundTrip(m);
    RoundTrip(m');
  }

  /** In a request: the list 80 takes the tag of OnFlag behind it, whose value 5 is then no tag. On
      its own, the field that follows sets OnFlag to 5. */
  lemma RequestOverrun()
    ensures Decode(RequestMsg(NO_REQUEST), [0x10, 5]) == Ok(RequestMsg(NO_REQUEST.(onFlag := 5)))
    ensures Decode(RequestMsg(NO_REQUEST), [0x22, 1, 0x80, 0x10, 5]) == Err(IllegalTag)
  {
    hide ApplyAll, Parse, Zero, Marshal, Encode, Read, Field;
    var m := RequestMsg(NO_REQUEST);
    OnFlagAlone();
    RequestVarint(NO_REQUEST, 2, 5);
    DecodeEncoded(m, [VarintRec(2, 5)]);
    OverrunParsed(SchemaOf(m));
    ApplyOne(m, PackedRec(4, [2048]));
  }

  lemma OnFlagAlone()
    ensures VarintIf(2, 5) == [VarintRec(2, 5)]
    ensures SmallFields([VarintRec(2, 5)]) && AllFit(RequestMsg(NO_REQUEST), [VarintRec(2, 5)])
    ensures Encode([VarintRec(2, 5)]) == [0x10, 5]
  {
    assert [VarintRec(2, 5)][1..] == [];
    assert EncodeVarint(5) == [5];
  }

  lemma OverrunParsed(schema: Wire.Schema)
    requires 4 in schema && schema[4] == PackedKind
    ensures Parse(schema, [0x22, 1, 0x80, 0x10, 5], 0) == Parsed([PackedRec(4, [2048])], Some(IllegalTag))
  {
    hide TotalBytes, Read, Int32, SkipFrom, Body;
    var s: Str := [0x22, 1, 0x80, 0x10, 5];
    PackedOverrun(schema, 0x10, [5], 0);
    assert [0x22, 1, 0x80, 0x10] + [5] == s && s[4..] == [5];
    ReadTag(5, []);
    assert [5] + [] == [5];
    FieldNumber(0, 5);
    assert Field(schema, [5], 4) == Err(IllegalTag);
    assert Parse(schema, [5], 4) == Parsed([], Some(IllegalTag));
    ParseStep(schema, s, 0);
  }
}
