/** The decoding loops (skipTermQuery, skipDoc, skipIndex and the Unmarshal methods): an index moves
    through the buffer and the message is updated as it goes. The five generated decoders and the
    three generated skippers are alike up to the fields they know, so there is one of each here.
    A signed index that would overflow is caught where the code finds it negative. */
module Unmarshalling {
  import opened GoBase
  import opened Types
  import opened Varint
  import opened Wire
  import opened Messages

  /** The varint loop of the skippers, which drops the value. */
  method SkipVarint(dAtA: Str, start: nat) returns (r: Result<nat, WireError>)
    requires start <= |dAtA|
    ensures r == match Terminated(dAtA[start..], MAX_BYTES) case Ok(n) => Ok(start + n) case Err(e) => Err(e)
  {
    hide Terminated;
    var iNdEx, shift := start, 0;
    ghost var s := dAtA[start..];
    while true
      invariant start <= iNdEx <= |dAtA| && shift == 7 * (iNdEx - start) && iNdEx - start <= MAX_BYTES
      invariant forall j :: 0 <= j < iNdEx - start ==> s[j] >= 128
      decreases |dAtA| - iNdEx
    {
      TerminatedHere(s, iNdEx - start);
      if shift >= 64 {
        return Err(IntOverflow);
      }
      if iNdEx >= |dAtA| {
        return Err(UnexpectedEOF);
      }
      iNdEx := iNdEx + 1;
      if dAtA[iNdEx - 1] < 128 {
        return Ok(iNdEx);
      }
      shift := shift + 7;
    }
  }

  lemma TerminatedHere(s: Str, k: nat)
    requires k <= |s| && k <= MAX_BYTES && forall j :: 0 <= j < k ==> s[j] >= 128
    ensures k == MAX_BYTES ==> Terminated(s, MAX_BYTES) == Err(IntOverflow)
    ensures k < MAX_BYTES && k == |s| ==> Terminated(s, MAX_BYTES) == Err(UnexpectedEOF)
    ensures k < MAX_BYTES && k < |s| && s[k] < 128 ==> Terminated(s, MAX_BYTES) == Ok(k + 1)
  {
    TerminatedAfter(s, k, MAX_BYTES);
  }

  /** Skipping ends exactly where SkipFrom says, or fails with the same error. */
  method Skip(dAtA: Str) returns (r: Result<nat, WireError>)
    ensures r == SkipFrom(dAtA, 0, 0)
  {
    hide Read, Terminated, SkipFrom;
    var iNdEx, depth: nat := 0, 0;
    while iNdEx < |dAtA|
      invariant SkipFrom(dAtA, iNdEx, depth) == SkipFrom(dAtA, 0, 0)
      decreases |dAtA| - iNdEx
    {
      SkipStep(dAtA, iNdEx, depth);
      var tag := ReadVarint(dAtA, iNdEx);
      if tag.Err? {
        return Err(tag.error);
      }
      var (wire, i) := tag.value;
      iNdEx := i;
      match wire % 8 {
        case 0 =>
          var end := SkipVarint(dAtA, iNdEx);
          if end.Err? {
            return Err(end.error);
          }
          iNdEx := end.value;
        case 1 =>
          iNdEx := iNdEx + 8;
        case 2 =>
          var length := ReadVarint(dAtA, iNdEx);
          if length.Err? {
            return Err(length.error);
          }
          if ToInt(length.value.0) < 0 {
            return Err(InvalidLength);
          }
          iNdEx := length.value.1 + length.value.0;
        case 3 =>
          depth := depth + 1;
        case 4 =>
          if depth == 0 {
            return Err(UnexpectedEndOfGroup);
          }
          depth := depth - 1;
        case 5 =>
          iNdEx := iNdEx + 4;
        case _ =>
          return Err(IllegalWireType);
      }
      if iNdEx >= TWO_63 {
        return Err(InvalidLength);
      }
      if depth == 0 {
        return Ok(iNdEx);
      }
    }
    SkipEnd(dAtA, iNdEx, depth);
    return Err(UnexpectedEOF);
  }

  lemma SkipStep(s: Str, i: nat, depth: nat)
    requires i < |s|
    ensures SkipFrom(s, i, depth) ==
              match Read(s[i..])
              case Err(e) => Err(e)
              case Ok((wire, n)) =>
                match SkipBody(s, i + n, wire % 8, depth)
                case Err(e) => Err(e)
                case Ok((j, d)) =>
                  if j >= TWO_63 then Err(InvalidLength) else if d == 0 then Ok(j) else SkipFrom(s, j, d)
  {
    hide Read, SkipBody;
  }

  lemma SkipEnd(s: Str, i: nat, depth: nat)
    requires i >= |s|
    ensures SkipFrom(s, i, depth) == Err(UnexpectedEOF)
  {
  }

  /** A length, and the index behind what it covers. */
  method ReadLength(dAtA: Str, iNdEx: nat) returns (r: Result<(nat, nat), WireError>)
    requires iNdEx <= |dAtA|
    ensures r == match Length(dAtA[iNdEx..], iNdEx)
                 case Ok((len, n)) => Ok((iNdEx + n, iNdEx + n + len))
                 case Err(e) => Err(e)
  {
    hide Read;
    var length := ReadVarint(dAtA, iNdEx);
    if length.Err? {
      return Err(length.error);
    }
    var (v, i) := length.value;
    if ToInt(v) < 0 {
      return Err(InvalidLength);
    }
    var postIndex := i + v;
    if postIndex >= TWO_63 {
      return Err(InvalidLength);
    }
    if postIndex > |dAtA| {
      return Err(UnexpectedEOF);
    }
    r := Ok((i, postIndex));
  }

  function Prepend(vs: seq<uint64>, used: nat, r: Result<(seq<uint64>, nat), WireError>)
    : Result<(seq<uint64>, nat), WireError>
  {
    match r case Ok((ws, m)) => Ok((vs + ws, used + m)) case Err(e) => Err(e)
  }

  lemma NumbersStep(s: Str, todo: nat, vs: seq<uint64>, used: nat)
    requires todo > 0
    ensures Prepend(vs, used, Numbers(s, todo)) ==
              match Read(s)
              case Err(e) => Err(e)
              case Ok((v, n)) => Prepend(vs + [v], used + n, Numbers(s[n..], if n >= todo then 0 else todo - n))
  {
    hide Read;
    if Read(s).Ok? {
      var (v, n) := Read(s).value;
      if n < todo && Numbers(s[n..], todo - n).Ok? {
        assert vs + ([v] + Numbers(s[n..], todo - n).value.0) == vs + [v] + Numbers(s[n..], todo - n).value.0;
      } else if n >= todo {
        assert Numbers(s[n..], 0) == Ok(([], 0));
        assert vs + [v] + [] == vs + [v];
      }
    }
  }

  /** The loop over a packed list; it stops at the first index at or behind its end. */
  method ReadNumbers(dAtA: Str, start: nat, postIndex: nat) returns (r: Result<(seq<uint64>, nat), WireError>)
    requires start <= postIndex <= |dAtA|
    ensures r == match Numbers(dAtA[start..], postIndex - start)
                 case Ok((vs, n)) => Ok((vs, start + n))
                 case Err(e) => Err(e)
  {
    hide Read, Numbers;
    var iNdEx := start;
    var vs: seq<uint64> := [];
    ghost var all := Numbers(dAtA[start..], postIndex - start);
    assert Prepend([], 0, all) == all by { assert all.Ok? ==> [] + all.value.0 == all.value.0; }
    while iNdEx < postIndex
      invariant start <= iNdEx <= |dAtA|
      invariant Prepend(vs, iNdEx - start,
                        Numbers(dAtA[iNdEx..], if iNdEx >= postIndex then 0 else postIndex - iNdEx)) == all
    {
      NumbersStep(dAtA[iNdEx..], postIndex - iNdEx, vs, iNdEx - start);
      var number := ReadVarint(dAtA, iNdEx);
      if number.Err? {
        return Err(number.error);
      }
      var (v, i) := number.value;
      assert dAtA[iNdEx..][i - iNdEx..] == dAtA[i..];
      vs := vs + [v];
      iNdEx := i;
    }
    NoNumbers(dAtA[iNdEx..]);
    assert vs + [] == vs;
    r := Ok((vs, iNdEx));
  }

  lemma NoNumbers(s: Str)
    ensures Numbers(s, 0) == Ok(([], 0))
  {
  }

  /** What follows the tag of a field the message knows. */
  method ReadBody(kind: Kind, fieldNum: int, wireType: nat, dAtA: Str, iNdEx: nat)
    returns (r: Result<(Record, nat), WireError>)
    requires iNdEx <= |dAtA|
    ensures r == match Body(kind, fieldNum, wireType, dAtA[iNdEx..], iNdEx)
                 case Ok((rec, n)) => Ok((rec, iNdEx + n))
                 case Err(e) => Err(e)
  {
    hide Read, Numbers, Length;
    if kind.VarintKind? || (kind.PackedKind? && wireType == 0) {
      if wireType != 0 {
        return Err(WrongWireType);
      }
      var number := ReadVarint(dAtA, iNdEx);
      if number.Err? {
        return Err(number.error);
      }
      return Ok((VarintRec(fieldNum, number.value.0), number.value.1));
    }
    if wireType != 2 {
      return Err(WrongWireType);
    }
    var length := ReadLength(dAtA, iNdEx);
    if length.Err? {
      return Err(length.error);
    }
    var (i, postIndex) := length.value;
    if kind.LenKind? {
      assert dAtA[iNdEx..][i - iNdEx..postIndex - iNdEx] == dAtA[i..postIndex];
      return Ok((LenRec(fieldNum, dAtA[i..postIndex]), postIndex));
    }
    assert dAtA[iNdEx..][i - iNdEx..] == dAtA[i..];
    var numbers := ReadNumbers(dAtA, i, postIndex);
    if numbers.Err? {
      return Err(numbers.error);
    }
    r := Ok((PackedRec(fieldNum, numbers.value.0), numbers.value.1));
  }

  /** One turn of an Unmarshal loop, up to what it does to the message. The index always moves on. */
  method ReadField(schema: Wire.Schema, dAtA: Str, preIndex: nat)
    returns (r: Result<(seq<Record>, nat), WireError>)
    requires preIndex <= |dAtA|
    ensures r == match Field(schema, dAtA[preIndex..], preIndex)
                 case Ok((recs, n)) => Ok((recs, preIndex + n))
                 case Err(e) => Err(e)
    ensures r.Ok? ==> preIndex < r.value.1 <= |dAtA|
  {
    hide Read, Body, SkipFrom, Int32, TotalBytes;
    var tag := ReadVarint(dAtA, preIndex);
    if tag.Err? {
      return Err(tag.error);
    }
    var (wire, iNdEx) := tag.value;
    assert dAtA[preIndex..][iNdEx - preIndex..] == dAtA[iNdEx..];
    var fieldNum, wireType := Int32(wire / 8), wire % 8;
    if wireType == 4 {
      return Err(EndGroup);
    }
    if fieldNum <= 0 {
      return Err(IllegalTag);
    }
    if fieldNum in schema {
      var body := ReadBody(schema[fieldNum], fieldNum, wireType, dAtA, iNdEx);
      if body.Err? {
        return Err(body.error);
      }
      return Ok(([body.value.0], body.value.1));
    }
    var skippy := Skip(dAtA[preIndex..]);
    if skippy.Err? {
      return Err(skippy.error);
    }
    if preIndex + skippy.value >= TWO_63 {
      return Err(InvalidLength);
    }
    if preIndex + skippy.value > |dAtA| {
      return Err(UnexpectedEOF);
    }
    r := Ok(([], preIndex + skippy.value));
  }

  ghost predicate Remains(m: Message, schema: Wire.Schema, s: Str, off: nat, r: Result<Message, WireError>) {
    Finish(m, Parse(schema, s, off)) == r
  }

  lemma RemainsStep(m: Message, schema: Wire.Schema, s: Str, off: nat, r: Result<Message, WireError>)
    requires s != [] && Remains(m, schema, s, off, r)
    ensures var field := Field(schema, s, off);
            && (field.Err? ==> r == Err(field.error))
            && (field.Ok? ==>
                  var applied, n := ApplyAll(m, field.value.0), field.value.1;
                  && (applied.Err? ==> r == Err(applied.error))
                  && (applied.Ok? ==> Remains(applied.value, schema, s[n..], off + n, r)))
  {
    hide Field, ApplyAll, TotalBytes, Zero, Parse;
    if Field(schema, s, off).Ok? {
      var recs, n := Field(schema, s, off).value.0, Field(schema, s, off).value.1;
      ParseStep(schema, s, off);
      ApplyAllAppend(m, recs, Parse(schema, s[n..], off + n).recs);
    } else {
      ParseFails(schema, s, off);
      ApplyNone(m);
    }
  }

  lemma ParseFails(schema: Wire.Schema, s: Str, off: nat)
    requires s != [] && Field(schema, s, off).Err?
    ensures Parse(schema, s, off) == Parsed([], Some(Field(schema, s, off).error))
  {
    hide Field, TotalBytes;
  }

  lemma RemainsAtEnd(m: Message, schema: Wire.Schema, off: nat, r: Result<Message, WireError>)
    requires Remains(m, schema, [], off, r)
    ensures r == Ok(m)
  {
    hide Field, TotalBytes, Apply, Zero;
  }

  /** Nested messages are decoded from their own, strictly shorter, part of the buffer. */
  method UnmarshalInto(m: Message, dAtA: Str) returns (r: Result<Message, WireError>)
    ensures r == Decode(m, dAtA)
    decreases |dAtA|, 1
  {
    hide Parse, ApplyAll, Apply, Field, TotalBytes, SchemaOf, Zero, Finish, Remains;
    var iNdEx, cur := 0, m;
    ghost var result := Decode(m, dAtA);
    RemainsAtStart(m, dAtA);
    assert dAtA[0..] == dAtA;
    while iNdEx < |dAtA|
      invariant iNdEx <= |dAtA| && Zero(cur) == Zero(m)
      invariant Remains(cur, SchemaOf(m), dAtA[iNdEx..], iNdEx, result)
    {
      RemainsStep(cur, SchemaOf(m), dAtA[iNdEx..], iNdEx, result);
      var field := ReadField(SchemaOf(m), dAtA, iNdEx);
      if field.Err? {
        return Err(field.error);
      }
      var recs, next := field.value.0, field.value.1;
      assert dAtA[iNdEx..][next - iNdEx..] == dAtA[next..];
      FieldRecords(SchemaOf(m), dAtA[iNdEx..], iNdEx);
      if |recs| == 1 {
        ApplyOne(cur, recs[0]);
        assert recs == [recs[0]];
        var applied := ApplyRecord(cur, recs[0]);
        if applied.Err? {
          return Err(applied.error);
        }
        cur := applied.value;
      } else {
        ApplyNone(cur);
        assert recs == [];
      }
      iNdEx := next;
    }
    assert dAtA[iNdEx..] == [];
    RemainsAtEnd(cur, SchemaOf(m), iNdEx, result);
    r := Ok(cur);
  }

  lemma RemainsAtStart(m: Message, s: Str)
    ensures Remains(m, SchemaOf(m), s, 0, Decode(m, s))
  {
    hide Parse, Finish, SchemaOf;
  }

  /** At most one record, whose payload is shorter than the field. */
  lemma FieldRecords(schema: Wire.Schema, s: Str, off: nat)
    requires Field(schema, s, off).Ok?
    ensures var (recs, n) := Field(schema, s, off).value;
            |recs| <= 1 && (|recs| == 1 ==> PayloadSize(recs[0]) < n <= |s|)
  {
    hide Read, Body, SkipFrom, Int32;
  }

  lemma DecodedKeyword(k: Keyword, s: Str)
    ensures var r := Decode(KeywordMsg(k), s);
            if r.Err? then DecodeKeyword(k, s) == Err(r.error)
            else r.value.KeywordMsg? && DecodeKeyword(k, s) == Ok(r.value.keyword)
  {
    hide Finish;
  }

  lemma DecodedQuery(q: TermQuery, s: Str)
    ensures var r := Decode(QueryMsg(q), s);
            if r.Err? then DecodeQuery(q, s) == Err(r.error)
            else r.value.QueryMsg? && DecodeQuery(q, s) == Ok(r.value.query)
  {
    hide Finish;
  }

  lemma DecodedDocument(d: Document, s: Str)
    ensures var r := Decode(DocumentMsg(d), s);
            if r.Err? then DecodeDocument(d, s) == Err(r.error)
            else r.value.DocumentMsg? && DecodeDocument(d, s) == Ok(r.value.doc)
  {
    hide Finish;
  }

  /** The switch of TermQuery.Unmarshal: a present keyword is decoded into, a list grows. */
  method QueryField(q: TermQuery, rec: Record) returns (r: Result<TermQuery, WireError>)
    ensures r == ApplyQuery(q, rec)
    decreases PayloadSize(rec), 2
  {
    hide Decode, DecodeKeyword, DecodeQuery;
    match rec
    case LenRec(field, payload) =>
      if field == 1 {
        var into := OrDefault(q.keyword, NO_KEYWORD);
        DecodedKeyword(into, payload);
        var kw := UnmarshalInto(KeywordMsg(into), payload);
        if kw.Err? { return Err(kw.error); }
        return Ok(q.(keyword := Some(kw.value.keyword)));
      }
      DecodedQuery(EMPTY_QUERY, payload);
      var sub := UnmarshalInto(QueryMsg(EMPTY_QUERY), payload);
      if sub.Err? { return Err(sub.error); }
      r := Ok(if field == 2 then q.(must := q.must + [sub.value.query])
              else q.(should := q.should + [sub.value.query]));
    case _ =>
      r := Ok(q);
  }

  method DocumentField(d: Document, rec: Record) returns (r: Result<Document, WireError>)
    ensures r == ApplyDocument(d, rec)
    decreases PayloadSize(rec), 2
  {
    hide Decode, DecodeKeyword;
    match rec
    case VarintRec(field, v) =>
      r := Ok(if field == 2 then d.(intId := v) else d.(bits := v));
    case LenRec(field, payload) =>
      if field == 1 { return Ok(d.(id := payload)); }
      if field == 5 { return Ok(d.(bytes := payload)); }
      DecodedKeyword(NO_KEYWORD, payload);
      var kw := UnmarshalInto(KeywordMsg(NO_KEYWORD), payload);
      if kw.Err? { return Err(kw.error); }
      r := Ok(d.(keywords := d.keywords + [kw.value.keyword]));
    case _ =>
      r := Ok(d);
  }

  method RequestField(req: SearchRequest, rec: Record) returns (r: Result<SearchRequest, WireError>)
    ensures r == ApplyRequest(req, rec)
    decreases PayloadSize(rec), 2
  {
    hide Decode, DecodeQuery;
    match rec
    case VarintRec(field, v) =>
      r := Ok(if field == 2 then req.(onFlag := v) else if field == 3 then req.(offFlag := v)
              else req.(orFlags := req.orFlags + [v]));
    case LenRec(_, payload) =>
      var into := OrDefault(req.query, EMPTY_QUERY);
      DecodedQuery(into, payload);
      var q := UnmarshalInto(QueryMsg(into), payload);
      if q.Err? { return Err(q.error); }
      r := Ok(req.(query := Some(q.value.query)));
    case PackedRec(_, vs) =>
      r := Ok(req.(orFlags := req.orFlags + vs));
  }

  /** What the switch does with a field: assign, append, or decode a nested message. */
  method ApplyRecord(m: Message, rec: Record) returns (r: Result<Message, WireError>)
    ensures r == Apply(m, rec)
    decreases PayloadSize(rec), 3
  {
    hide Decode, DecodeDocument, ApplyQuery, ApplyDocument, ApplyRequest;
    match m
    case KeywordMsg(k) =>
      r := Ok(KeywordMsg(ApplyKeyword(k, rec)));
    case QueryMsg(q) =>
      var q' := QueryField(q, rec);
      r := if q'.Err? then Err(q'.error) else Ok(QueryMsg(q'.value));
    case DocumentMsg(d) =>
      var d' := DocumentField(d, rec);
      r := if d'.Err? then Err(d'.error) else Ok(DocumentMsg(d'.value));
    case RequestMsg(req) =>
      var req' := RequestField(req, rec);
      r := if req'.Err? then Err(req'.error) else Ok(RequestMsg(req'.value));
    case ResponseMsg(docs) =>
      match rec {
        case LenRec(_, payload) =>
          DecodedDocument(NO_DOCUMENT, payload);
          var d := UnmarshalInto(DocumentMsg(NO_DOCUMENT), payload);
          if d.Err? { return Err(d.error); }
          r := Ok(ResponseMsg(docs + [d.value.doc]));
        case _ =>
          r := Ok(m);
      }
  }
}
