/** The messages on the wire: keywords, queries, documents, search requests and responses
    (types/term_query.pb.go, types/doc.pb.go, service/index.pb.go), as values. Decode says what
    Unmarshal does with bytes, Marshal which bytes a message becomes. */
module Messages {
  import opened GoBase
  import opened Types
  import opened Varint
  import opened Wire
  import opened Canonical
  import UnknownFields

  datatype SearchRequest = SearchRequest(query: Option<TermQuery>, onFlag: uint64, offFlag: uint64,
                                         orFlags: seq<uint64>)

  datatype Message =
    | KeywordMsg(keyword: Keyword)
    | QueryMsg(query: TermQuery)
    | DocumentMsg(doc: Document)
    | RequestMsg(request: SearchRequest)
    | ResponseMsg(docs: seq<Document>)

  const NO_KEYWORD := Keyword([], [])
  const NO_DOCUMENT := Document([], 0, 0, [], [])
  const NO_REQUEST := SearchRequest(None, 0, 0, [])

  /** A fresh message of the same kind. */
  function Zero(m: Message): Message {
    match m
    case KeywordMsg(_) => KeywordMsg(NO_KEYWORD)
    case QueryMsg(_) => QueryMsg(EMPTY_QUERY)
    case DocumentMsg(_) => DocumentMsg(NO_DOCUMENT)
    case RequestMsg(_) => RequestMsg(NO_REQUEST)
    case ResponseMsg(_) => ResponseMsg([])
  }

  function SchemaOf(m: Message): Wire.Schema {
    match m
    case KeywordMsg(_) => map[1 := LenKind, 2 := LenKind]
    case QueryMsg(_) => map[1 := LenKind, 2 := LenKind, 3 := LenKind]
    case DocumentMsg(_) => map[1 := LenKind, 2 := VarintKind, 3 := VarintKind, 4 := LenKind, 5 := LenKind]
    case RequestMsg(_) => map[1 := LenKind, 2 := VarintKind, 3 := VarintKind, 4 := PackedKind]
    case ResponseMsg(_) => map[1 := LenKind]
  }

  // ----- Decoding -----

  function OrDefault<T>(o: Option<T>, default: T): T {
    if o.Some? then o.value else default
  }

  function DecodeKeyword(k: Keyword, s: Str): Result<Keyword, WireError>
    decreases |s|, 4
  {
    match Decode(KeywordMsg(k), s) case Ok(m) => Ok(m.keyword) case Err(e) => Err(e)
  }

  function DecodeQuery(q: TermQuery, s: Str): Result<TermQuery, WireError>
    decreases |s|, 4
  {
    match Decode(QueryMsg(q), s) case Ok(m) => Ok(m.query) case Err(e) => Err(e)
  }

  function DecodeDocument(d: Document, s: Str): Result<Document, WireError>
    decreases |s|, 4
  {
    match Decode(DocumentMsg(d), s) case Ok(m) => Ok(m.doc) case Err(e) => Err(e)
  }

  function ApplyKeyword(k: Keyword, rec: Record): Keyword {
    match rec
    case LenRec(field, payload) => if field == 1 then k.(field := payload) else k.(word := payload)
    case _ => k
  }

  /** A present keyword is merged into, a list gains an element. */
  function ApplyQuery(q: TermQuery, rec: Record): Result<TermQuery, WireError>
    decreases PayloadSize(rec), 5
  {
    match rec
    case LenRec(field, payload) =>
      if field == 1 then
        match DecodeKeyword(OrDefault(q.keyword, NO_KEYWORD), payload)
        case Ok(k) => Ok(q.(keyword := Some(k)))
        case Err(e) => Err(e)
      else
        (match DecodeQuery(EMPTY_QUERY, payload)
         case Ok(sub) => Ok(if field == 2 then q.(must := q.must + [sub]) else q.(should := q.should + [sub]))
         case Err(e) => Err(e))
    case _ => Ok(q)
  }

  function ApplyDocument(d: Document, rec: Record): Result<Document, WireError>
    decreases PayloadSize(rec), 5
  {
    match rec
    case VarintRec(field, v) => Ok(if field == 2 then d.(intId := v) else d.(bits := v))
    case LenRec(field, payload) =>
      if field == 1 then Ok(d.(id := payload))
      else if field == 5 then Ok(d.(bytes := payload))
      else
        (match DecodeKeyword(NO_KEYWORD, payload)
         case Ok(k) => Ok(d.(keywords := d.keywords + [k]))
         case Err(e) => Err(e))
    case PackedRec(_, _) => Ok(d)
  }

  function ApplyRequest(r: SearchRequest, rec: Record): Result<SearchRequest, WireError>
    decreases PayloadSize(rec), 5
  {
    match rec
    case VarintRec(field, v) =>
      Ok(if field == 2 then r.(onFlag := v)
         else if field == 3 then r.(offFlag := v)
         else r.(orFlags := r.orFlags + [v]))
    case LenRec(_, payload) =>
      (match DecodeQuery(OrDefault(r.query, EMPTY_QUERY), payload)
       case Ok(q) => Ok(r.(query := Some(q)))
       case Err(e) => Err(e))
    case PackedRec(_, vs) => Ok(r.(orFlags := r.orFlags + vs))
  }

  /** What one record does to a message. */
  function Apply(m: Message, rec: Record): (r: Result<Message, WireError>)
    ensures r.Ok? ==> Zero(r.value) == Zero(m)
    decreases PayloadSize(rec), 6
  {
    match m
    case KeywordMsg(k) => Ok(KeywordMsg(ApplyKeyword(k, rec)))
    case QueryMsg(q) => (match ApplyQuery(q, rec) case Ok(q') => Ok(QueryMsg(q')) case Err(e) => Err(e))
    case DocumentMsg(d) => (match ApplyDocument(d, rec) case Ok(d') => Ok(DocumentMsg(d')) case Err(e) => Err(e))
    case RequestMsg(r) => (match ApplyRequest(r, rec) case Ok(r') => Ok(RequestMsg(r')) case Err(e) => Err(e))
    case ResponseMsg(docs) =>
      (match rec
       case LenRec(_, payload) =>
         (match DecodeDocument(NO_DOCUMENT, payload) case Ok(d) => Ok(ResponseMsg(docs + [d])) case Err(e) => Err(e))
       case _ => Ok(m))
  }

  function ApplyAll(m: Message, recs: seq<Record>): (r: Result<Message, WireError>)
    ensures r.Ok? ==> Zero(r.value) == Zero(m)
    decreases TotalBytes(recs), 1
  {
    if recs == [] then Ok(m)
    else
      match Apply(m, recs[0])
      case Err(e) => Err(e)
      case Ok(m') => ApplyAll(m', recs[1..])
  }

  function Finish(m: Message, p: Parsed): (r: Result<Message, WireError>)
    ensures r.Ok? ==> Zero(r.value) == Zero(m)
    decreases TotalBytes(p.recs), 2
  {
    match ApplyAll(m, p.recs)
    case Err(e) => Err(e)
    case Ok(m') => if p.failure.Some? then Err(p.failure.value) else Ok(m')
  }

  /** Decoding into a message that may already have contents. */
  function Decode(m: Message, s: Str): (r: Result<Message, WireError>)
    ensures r.Ok? ==> Zero(r.value) == Zero(m)
    decreases |s|, 3
  {
    Finish(m, Parse(SchemaOf(m), s, 0))
  }

  // ----- Decoding is compositional -----

  lemma {:induction false} ApplyAllAppend(m: Message, a: seq<Record>, b: seq<Record>)
    ensures ApplyAll(m, a + b) == match ApplyAll(m, a) case Err(e) => Err(e) case Ok(m') => ApplyAll(m', b)
    decreases |a|
  {
    hide Apply, Zero;
    if a == [] {
      assert a + b == b;
    } else {
      assert (a + b)[1..] == a[1..] + b;
      if Apply(m, a[0]).Ok? { ApplyAllAppend(Apply(m, a[0]).value, a[1..], b); }
    }
  }

  lemma ApplyNone(m: Message)
    ensures ApplyAll(m, []) == Ok(m)
  {
    hide Apply, Zero;
  }

  lemma ApplyOne(m: Message, rec: Record)
    ensures ApplyAll(m, [rec]) == Apply(m, rec)
  {
    hide Apply, Zero;
    assert [rec][1..] == [];
  }

  /** The same up to the kind of error. */
  predicate Agree(r: Result<Message, WireError>, r': Result<Message, WireError>) {
    (r.Ok? <==> r'.Ok?) && (r.Ok? ==> r == r')
  }

  lemma SchemaOfKind(m: Message, m': Message)
    requires Zero(m) == Zero(m')
    ensures SchemaOf(m) == SchemaOf(m')
  {
  }

  /** Once some bytes are accepted, decoding them with more bytes behind is decoding the rest into
      the result: lists append, the last scalar wins, a keyword merges. */
  lemma DecodeAppend(m: Message, a: Str, b: Str)
    requires Decode(m, a).Ok? && |a + b| < TWO_63
    ensures Agree(Decode(m, a + b), Decode(Decode(m, a).value, b))
  {
    hide Parse, ApplyAll, Zero, SchemaOf;
    var m' := Decode(m, a).value;
    SchemaOfKind(m, m');
    ParseAppend(SchemaOf(m), a, b, 0);
    ParseOffset(SchemaOf(m), b, |a|, 0);
    ApplyAllAppend(m, Parse(SchemaOf(m), a, 0).recs, Parse(SchemaOf(m), b, |a|).recs);
  }

  /** Unknown fields, nested groups included, can stand between the parts of a message. */
  lemma DecodeSpliced(m: Message, a: Str, us: seq<UnknownFields.Unknown>, b: Str)
    requires Parse(SchemaOf(m), a, 0).failure == None && UnknownFields.AllUnknownTo(SchemaOf(m), us)
    requires |a + UnknownFields.EncodeAll(us) + b| < TWO_63
    ensures Agree(Decode(m, a + UnknownFields.EncodeAll(us) + b), Decode(m, a + b))
  {
    hide Parse, ApplyAll, Zero, SchemaOf, UnknownFields.EncodeAll, UnknownFields.AllUnknownTo;
    UnknownFields.ParseSpliced(SchemaOf(m), a, us, b);
  }

  // ----- Encoding -----

  ghost predicate AllFit(m: Message, recs: seq<Record>) {
    forall i :: 0 <= i < |recs| ==> Fits(SchemaOf(m), recs[i])
  }

  function LenIf(field: int, payload: Str): seq<Record> {
    if payload == [] then [] else [LenRec(field, payload)]
  }

  function VarintIf(field: int, v: uint64): seq<Record> {
    if v == 0 then [] else [VarintRec(field, v)]
  }

  function KeywordIf(field: int, k: Option<Keyword>): seq<Record> {
    if k == None then [] else [LenRec(field, MarshalKeyword(k.value))]
  }

  function QueryIf(field: int, q: Option<TermQuery>): seq<Record> {
    if q == None then [] else [LenRec(field, MarshalQuery(q.value))]
  }

  function PackedIf(field: int, vs: seq<uint64>): seq<Record> {
    if vs == [] then [] else [PackedRec(field, vs)]
  }

  function KeywordRecords(k: Keyword): (r: seq<Record>)
    ensures SmallFields(r) && forall k' :: AllFit(KeywordMsg(k'), r)
  {
    LenIf(1, k.field) + LenIf(2, k.word)
  }

  function MarshalKeyword(k: Keyword): Str {
    Encode(KeywordRecords(k))
  }

  function KeywordList(field: int, ks: seq<Keyword>): (r: seq<Record>)
    requires 1 <= field < 16
    ensures SmallFields(r) && |r| == |ks| && forall i :: 0 <= i < |r| ==> r[i].LenRec? && r[i].field == field
  {
    hide MarshalKeyword;
    if ks == [] then [] else [LenRec(field, MarshalKeyword(ks[0]))] + KeywordList(field, ks[1..])
  }

  function QueryRecords(q: TermQuery): (r: seq<Record>)
    ensures SmallFields(r) && forall q' :: AllFit(QueryMsg(q'), r)
    decreases q, 0
  {
    hide MarshalKeyword, EncodeVarint;
    KeywordIf(1, q.keyword) + QueryList(2, q.must) + QueryList(3, q.should)
  }

  function MarshalQuery(q: TermQuery): Str
    decreases q, 1
  {
    Encode(QueryRecords(q))
  }

  function QueryList(field: int, qs: seq<TermQuery>): (r: seq<Record>)
    requires 1 <= field < 16
    ensures SmallFields(r) && |r| == |qs| && forall i :: 0 <= i < |r| ==> r[i].LenRec? && r[i].field == field
    decreases qs, 2
  {
    if qs == [] then [] else [LenRec(field, MarshalQuery(qs[0]))] + QueryList(field, qs[1..])
  }

  function DocumentRecords(d: Document): (r: seq<Record>)
    ensures SmallFields(r) && forall d' :: AllFit(DocumentMsg(d'), r)
  {
    hide KeywordList, MarshalKeyword, EncodeVarint;
    LenIf(1, d.id) + VarintIf(2, d.intId) + VarintIf(3, d.bits) + KeywordList(4, d.keywords) + LenIf(5, d.bytes)
  }

  function MarshalDocument(d: Document): Str {
    Encode(DocumentRecords(d))
  }

  function RequestRecords(r: SearchRequest): (recs: seq<Record>)
    ensures SmallFields(recs) && forall r' :: AllFit(RequestMsg(r'), recs)
  {
    QueryIf(1, r.query) + VarintIf(2, r.onFlag) + VarintIf(3, r.offFlag) + PackedIf(4, r.orFlags)
  }

  function DocumentList(ds: seq<Document>): (r: seq<Record>)
    ensures forall i :: 0 <= i < |r| ==> r[i].LenRec? && r[i].field == 1
    ensures SmallFields(r)
  {
    hide MarshalDocument, SmallFields;
    if ds == [] then
      SmallNone();
      []
    else
      var first, rest := LenRec(1, MarshalDocument(ds[0])), DocumentList(ds[1..]);
      SmallCons(first, rest);
      [first] + rest
  }

  lemma SmallNone()
    ensures SmallFields([])
  {
  }

  lemma SmallCons(first: Record, rest: seq<Record>)
    requires SmallField(first) && SmallFields(rest)
    ensures SmallFields([first] + rest)
  {
  }

  function Records(m: Message): (r: seq<Record>)
    ensures SmallFields(r)
  {
    match m
    case KeywordMsg(k) => KeywordRecords(k)
    case QueryMsg(q) => QueryRecords(q)
    case DocumentMsg(d) => DocumentRecords(d)
    case RequestMsg(r) => RequestRecords(r)
    case ResponseMsg(ds) => DocumentList(ds)
  }

  function Marshal(m: Message): Str {
    Encode(Records(m))
  }

  // ----- What decoding an encoded message does -----

  function MergeKeyword(k: Keyword, update: Keyword): Keyword {
    Keyword(if update.field == [] then k.field else update.field, if update.word == [] then k.word else update.word)
  }

  function MergeQuery(q: TermQuery, update: TermQuery): TermQuery {
    TermQuery(if update.keyword == None then q.keyword
              else Some(MergeKeyword(OrDefault(q.keyword, NO_KEYWORD), update.keyword.value)),
              q.must + update.must, q.should + update.should)
  }

  function MergeDocument(d: Document, update: Document): Document {
    Document(if update.id == [] then d.id else update.id,
             if update.intId == 0 then d.intId else update.intId,
             if update.bits == 0 then d.bits else update.bits,
             d.keywords + update.keywords,
             if update.bytes == [] then d.bytes else update.bytes)
  }

  function MergeRequest(r: SearchRequest, update: SearchRequest): SearchRequest {
    SearchRequest(if update.query == None then r.query
                  else Some(MergeQuery(OrDefault(r.query, EMPTY_QUERY), update.query.value)),
                  if update.onFlag == 0 then r.onFlag else update.onFlag,
                  if update.offFlag == 0 then r.offFlag else update.offFlag,
                  r.orFlags + update.orFlags)
  }

  /** The section "Last One Wins" of the Protocol Buffers encoding guide: scalars are replaced, lists
      appended to, embedded messages merged. A zero or empty scalar is not sent and replaces
      nothing. */
  function Merge(m: Message, update: Message): Message
    requires Zero(m) == Zero(update)
  {
    match m
    case KeywordMsg(k) => KeywordMsg(MergeKeyword(k, update.keyword))
    case QueryMsg(q) => QueryMsg(MergeQuery(q, update.query))
    case DocumentMsg(d) => DocumentMsg(MergeDocument(d, update.doc))
    case RequestMsg(r) => RequestMsg(MergeRequest(r, update.request))
    case ResponseMsg(ds) => ResponseMsg(ds + update.docs)
  }
}
