/** The encoding loops (Size and MarshalToSizedBuffer): sizes are added up first, then the buffer is
    filled from its end backwards, nested messages in place. */
module Marshalling {
  import opened GoBase
  import opened Types
  import opened Varint
  import opened Wire
  import opened Canonical
  import opened Messages
  import RoundTrip

  // ----- Sizes -----

  lemma EncodedLen(field: int, size: nat)
    requires 1 <= field < 16
    ensures forall payload: Str :: |payload| == size ==> |EncodeLen(field, payload)| == 1 + size + Sov(size)
  {
    hide Sov, EncodeVarint;
    SovIsLength(size);
  }

  lemma EncodeTwo(a: seq<Record>, b: seq<Record>)
    requires SmallFields(a) && SmallFields(b)
    ensures SmallFields(a + b) && |Encode(a + b)| == |Encode(a)| + |Encode(b)|
  {
    hide Encode;
    RoundTrip.EncodeAppend(a, b);
  }

  lemma EncodeSingle(rec: Record)
    requires SmallField(rec)
    ensures SmallFields([rec]) && Encode([rec]) == EncodeRecord(rec)
  {
    hide EncodeRecord;
    assert [rec][1..] == [];
  }

  lemma LenIfSize(field: int, payload: Str)
    requires 1 <= field < 16
    ensures SmallFields(LenIf(field, payload))
    ensures |Encode(LenIf(field, payload))| == if |payload| > 0 then 1 + |payload| + Sov(|payload|) else 0
  {
    hide Sov, EncodeLen;
    EncodedLen(field, |payload|);
    if payload != [] { EncodeSingle(LenRec(field, payload)); }
  }

  lemma VarintIfSize(field: int, v: uint64)
    requires 1 <= field < 16
    ensures SmallFields(VarintIf(field, v))
    ensures |Encode(VarintIf(field, v))| == if v != 0 then 1 + Sov(v) else 0
  {
    hide Sov, EncodeVarint;
    SovIsLength(v);
    if v != 0 { EncodeSingle(VarintRec(field, v)); }
  }

  method SizeKeyword(m: Keyword) returns (n: nat)
    ensures n == |MarshalKeyword(m)|
  {
    hide Sov, Encode, SmallFields, LenIf;
    n := 0;
    LenIfSize(1, m.field);
    LenIfSize(2, m.word);
    EncodeTwo(LenIf(1, m.field), LenIf(2, m.word));
    var l := |m.field|;
    if l > 0 {
      n := n + 1 + l + Sov(l);
    }
    l := |m.word|;
    if l > 0 {
      n := n + 1 + l + Sov(l);
    }
  }

  /** The first element of what is left of a list, and the rest. */
  lemma QueryListFrom(field: int, qs: seq<TermQuery>, j: nat)
    requires 1 <= field < 16 && j < |qs|
    ensures Encode(QueryList(field, qs[j..])) ==
              EncodeLen(field, MarshalQuery(qs[j])) + Encode(QueryList(field, qs[j + 1..]))
  {
    hide MarshalQuery, EncodeLen, SmallFields;
    var rest := QueryList(field, qs[j + 1..]);
    assert qs[j..][1..] == qs[j + 1..];
    assert ([LenRec(field, MarshalQuery(qs[j]))] + rest)[1..] == rest;
  }

  lemma KeywordListFrom(field: int, ks: seq<Keyword>, j: nat)
    requires 1 <= field < 16 && j < |ks|
    ensures Encode(KeywordList(field, ks[j..])) ==
              EncodeLen(field, MarshalKeyword(ks[j])) + Encode(KeywordList(field, ks[j + 1..]))
  {
    hide MarshalKeyword, EncodeLen, SmallFields;
    var rest := KeywordList(field, ks[j + 1..]);
    assert ks[j..][1..] == ks[j + 1..];
    assert ([LenRec(field, MarshalKeyword(ks[j]))] + rest)[1..] == rest;
  }

  lemma DocumentListFrom(ds: seq<Document>, j: nat)
    requires j < |ds|
    ensures Encode(DocumentList(ds[j..])) == EncodeLen(1, MarshalDocument(ds[j])) + Encode(DocumentList(ds[j + 1..]))
  {
    hide MarshalDocument, EncodeLen, SmallFields;
    var rest := DocumentList(ds[j + 1..]);
    assert ds[j..][1..] == ds[j + 1..];
    assert ([LenRec(1, MarshalDocument(ds[j]))] + rest)[1..] == rest;
  }

  lemma EncodeNone()
    ensures Encode([]) == []
  {
  }

  lemma KeywordIfSize(field: int, k: Option<Keyword>)
    requires 1 <= field < 16
    ensures SmallFields(KeywordIf(field, k))
    ensures |Encode(KeywordIf(field, k))| == if k.Some? then var l := |MarshalKeyword(k.value)|; 1 + l + Sov(l) else 0
  {
    hide Sov, EncodeLen, MarshalKeyword;
    if k.Some? {
      EncodeSingle(LenRec(field, MarshalKeyword(k.value)));
      EncodedLen(field, |MarshalKeyword(k.value)|);
    }
  }

  lemma QueryIfSize(field: int, q: Option<TermQuery>)
    requires 1 <= field < 16
    ensures SmallFields(QueryIf(field, q))
    ensures |Encode(QueryIf(field, q))| == if q.Some? then var l := |MarshalQuery(q.value)|; 1 + l + Sov(l) else 0
  {
    hide Sov, EncodeLen, MarshalQuery;
    if q.Some? {
      EncodeSingle(LenRec(field, MarshalQuery(q.value)));
      EncodedLen(field, |MarshalQuery(q.value)|);
    }
  }

  lemma PackedIfSize(field: int, vs: seq<uint64>)
    requires 1 <= field < 16
    ensures SmallFields(PackedIf(field, vs))
    ensures |Encode(PackedIf(field, vs))| == if |vs| > 0 then var l := |Pack(vs)|; 1 + Sov(l) + l else 0
  {
    hide Sov, EncodeLen, Pack;
    if vs != [] {
      EncodeSingle(PackedRec(field, vs));
      EncodedLen(field, |Pack(vs)|);
    }
  }

  lemma QueryParts(q: TermQuery)
    ensures SmallFields(KeywordIf(1, q.keyword))
    ensures MarshalQuery(q) ==
              Encode(KeywordIf(1, q.keyword)) + Encode(QueryList(2, q.must)) + Encode(QueryList(3, q.should))
  {
    hide Encode, QueryList, MarshalKeyword, SmallFields, KeywordIf, Sov;
    KeywordIfSize(1, q.keyword);
    RoundTrip.EncodeAppend(KeywordIf(1, q.keyword), QueryList(2, q.must));
    RoundTrip.EncodeAppend(KeywordIf(1, q.keyword) + QueryList(2, q.must), QueryList(3, q.should));
  }

  /** Size is the length of the encoding, for queries of any depth. */
  method SizeQuery(m: TermQuery) returns (n: nat)
    ensures n == |MarshalQuery(m)|
    decreases m, 0
  {
    hide Sov, Encode, QueryList, KeywordIf, MarshalQuery, MarshalKeyword;
    n := 0;
    QueryParts(m);
    KeywordIfSize(1, m.keyword);
    if m.keyword.Some? {
      var l := SizeKeyword(m.keyword.value);
      n := n + 1 + l + Sov(l);
    }
    var must := SizeQueries(2, m.must);
    var should := SizeQueries(3, m.should);
    n := n + must + should;
  }

  method SizeQueries(field: int, ms: seq<TermQuery>) returns (n: nat)
    requires 1 <= field < 16
    ensures n == |Encode(QueryList(field, ms))|
    decreases ms, 1
  {
    hide Sov, Encode, EncodeLen, MarshalQuery;
    n := 0;
    assert ms[0..] == ms;
    for j := 0 to |ms|
      invariant n + |Encode(QueryList(field, ms[j..]))| == |Encode(QueryList(field, ms))|
    {
      QueryListFrom(field, ms, j);
      EncodedLen(field, |MarshalQuery(ms[j])|);
      var l := SizeQuery(ms[j]);
      n := n + 1 + l + Sov(l);
    }
    EncodeNone();
  }

  lemma DocumentParts(d: Document)
    ensures MarshalDocument(d) ==
              Encode(LenIf(1, d.id)) + Encode(VarintIf(2, d.intId)) + Encode(VarintIf(3, d.bits))
              + Encode(KeywordList(4, d.keywords)) + Encode(LenIf(5, d.bytes))
  {
    hide Encode, KeywordList, LenIf, VarintIf, SmallFields;
    var p1, p2, p3 := LenIf(1, d.id), VarintIf(2, d.intId), VarintIf(3, d.bits);
    var p4, p5 := KeywordList(4, d.keywords), LenIf(5, d.bytes);
    RoundTrip.LenIfSmall(1, d.id);
    RoundTrip.LenIfSmall(5, d.bytes);
    RoundTrip.VarintIfSmall(2, d.intId);
    RoundTrip.VarintIfSmall(3, d.bits);
    RoundTrip.EncodeAppend(p1, p2);
    RoundTrip.EncodeAppend(p1 + p2, p3);
    RoundTrip.EncodeAppend(p1 + p2 + p3, p4);
    RoundTrip.EncodeAppend(p1 + p2 + p3 + p4, p5);
  }

  method SizeDocument(m: Document) returns (n: nat)
    ensures n == |MarshalDocument(m)|
  {
    hide Sov, Encode, EncodeLen, LenIf, VarintIf, MarshalDocument, MarshalKeyword;
    n := 0;
    DocumentParts(m);
    LenIfSize(1, m.id);
    VarintIfSize(2, m.intId);
    VarintIfSize(3, m.bits);
    LenIfSize(5, m.bytes);
    var l := |m.id|;
    if l > 0 {
      n := n + 1 + l + Sov(l);
    }
    if m.intId != 0 {
      n := n + 1 + Sov(m.intId);
    }
    if m.bits != 0 {
      n := n + 1 + Sov(m.bits);
    }

    ghost var before := n;
    assert m.keywords[0..] == m.keywords;
    for j := 0 to |m.keywords|
      invariant n + |Encode(KeywordList(4, m.keywords[j..]))| == before + |Encode(KeywordList(4, m.keywords))|
    {
      KeywordListFrom(4, m.keywords, j);
      EncodedLen(4, |MarshalKeyword(m.keywords[j])|);
      l := SizeKeyword(m.keywords[j]);
      n := n + 1 + l + Sov(l);
    }
    EncodeNone();
    l := |m.bytes|;
    if l > 0 {
      n := n + 1 + l + Sov(l);
    }
  }

  lemma RequestParts(r: SearchRequest)
    ensures Encode(RequestRecords(r)) ==
              Encode(QueryIf(1, r.query)) + Encode(VarintIf(2, r.onFlag)) + Encode(VarintIf(3, r.offFlag))
              + Encode(PackedIf(4, r.orFlags))
    ensures SmallFields(QueryIf(1, r.query)) && SmallFields(PackedIf(4, r.orFlags))
  {
    hide Encode, VarintIf, MarshalQuery;
    var p1, p2, p3, p4 := QueryIf(1, r.query), VarintIf(2, r.onFlag), VarintIf(3, r.offFlag), PackedIf(4, r.orFlags);
    RoundTrip.VarintIfSmall(2, r.onFlag);
    RoundTrip.VarintIfSmall(3, r.offFlag);
    RoundTrip.EncodeAppend(p1, p2);
    RoundTrip.EncodeAppend(p1 + p2, p3);
    RoundTrip.EncodeAppend(p1 + p2 + p3, p4);
  }

  lemma PackFrom(vs: seq<uint64>, j: nat)
    requires j < |vs|
    ensures Pack(vs[j..]) == EncodeVarint(vs[j]) + Pack(vs[j + 1..])
  {
    hide EncodeVarint;
    assert vs[j..][1..] == vs[j + 1..];
  }

  method SizeRequest(m: SearchRequest) returns (n: nat)
    ensures n == |Encode(RequestRecords(m))|
  {
    hide Sov, Encode, VarintIf, MarshalQuery, RequestRecords, EncodeVarint, QueryIf, PackedIf;
    n := 0;
    RequestParts(m);
    QueryIfSize(1, m.query);
    VarintIfSize(2, m.onFlag);
    VarintIfSize(3, m.offFlag);
    PackedIfSize(4, m.orFlags);
    if m.query.Some? {
      var l := SizeQuery(m.query.value);
      n := n + 1 + l + Sov(l);
    }
    if m.onFlag != 0 {
      n := n + 1 + Sov(m.onFlag);
    }
    if m.offFlag != 0 {
      n := n + 1 + Sov(m.offFlag);
    }
    if |m.orFlags| > 0 {
      var l := 0;
      assert m.orFlags[0..] == m.orFlags;
      for j := 0 to |m.orFlags|
        invariant l + |Pack(m.orFlags[j..])| == |Pack(m.orFlags)|
      {
        PackFrom(m.orFlags, j);
        SovIsLength(m.orFlags[j]);
        l := l + Sov(m.orFlags[j]);
      }
      n := n + 1 + Sov(l) + l;
    }
  }

  method SizeResponse(ms: seq<Document>) returns (n: nat)
    ensures n == |Encode(DocumentList(ms))|
  {
    hide Sov, Encode, EncodeLen, MarshalDocument;
    n := 0;
    assert ms[0..] == ms;
    for j := 0 to |ms|
      invariant n + |Encode(DocumentList(ms[j..]))| == |Encode(DocumentList(ms))|
    {
      DocumentListFrom(ms, j);
      EncodedLen(1, |MarshalDocument(ms[j])|);
      var l := SizeDocument(ms[j]);
      n := n + 1 + l + Sov(l);
    }
    EncodeNone();
  }

  /** Size of any message: exactly the bytes that Marshal writes. */
  method Size(m: Message) returns (n: nat)
    ensures n == |Messages.Marshal(m)|
  {
    hide Encode, KeywordRecords, QueryRecords, DocumentRecords, RequestRecords, DocumentList;
    match m
    case KeywordMsg(k) => n := SizeKeyword(k);
    case QueryMsg(q) => n := SizeQuery(q);
    case DocumentMsg(d) => n := SizeDocument(d);
    case RequestMsg(r) => n := SizeRequest(r);
    case ResponseMsg(ds) => n := SizeResponse(ds);
  }
}
