/** MarshalToSizedBuffer: every part is written in front of what is already there, and the length of
    a nested message is written after the message itself. What lies outside is not touched. */
module Backward {
  import opened GoBase
  import opened Types
  import opened Varint
  import opened Wire
  import opened Canonical
  import opened Messages
  import opened Marshalling
  import RoundTrip

  /** After writing x into the bytes before i: x is there, and nothing else has changed. */
  ghost predicate Put(before: Str, after: Str, i: nat, x: Str, base: nat) {
    && i <= |before| == |after| && base + |x| == i
    && after == before[..base] + x + before[i..]
  }

  lemma PutTwice(s0: Str, s1: Str, s2: Str, i: nat, x: Str, j: nat, y: Str, k: nat)
    requires Put(s0, s1, i, x, j) && Put(s1, s2, j, y, k)
    ensures Put(s0, s2, i, y + x, k)
  {
    assert s1[..k] == s0[..k];
    assert s1[j..] == x + s0[i..];
    assert s0[..k] + (y + x) + s0[i..] == s0[..k] + y + (x + s0[i..]);
  }

  lemma PutNothing(s: Str, i: nat)
    requires i <= |s|
    ensures Put(s, s, i, [], i)
  {
    assert s[..i] + [] + s[i..] == s;
  }

  /** A payload, then its length and tag in front: a length-delimited record. */
  lemma PutLenRecord(s0: Str, s1: Str, s2: Str, i: nat, field: int, payload: Str, j: nat, k: nat)
    requires 1 <= field < 16
    requires Put(s0, s1, i, payload, j) && Put(s1, s2, j, [8 * field + 2] + EncodeVarint(|payload|), k)
    ensures Put(s0, s2, i, EncodeLen(field, payload), k)
  {
    hide Put, EncodeVarint;
    PutTwice(s0, s1, s2, i, payload, j, [8 * field + 2] + EncodeVarint(|payload|), k);
  }

  method PutVarint(dAtA: array<Byte>, i: nat, v: uint64) returns (base: nat)
    requires |EncodeVarint(v)| <= i <= dAtA.Length
    modifies dAtA
    ensures Put(old(dAtA[..]), dAtA[..], i, EncodeVarint(v), base)
  {
    hide EncodeVarint, Sov;
    SovIsLength(v);
    base := WriteVarint(dAtA, i, v);
    assert dAtA[..] == dAtA[..base] + dAtA[base..i] + dAtA[i..];
  }

  method PutByte(dAtA: array<Byte>, i: nat, b: Byte) returns (base: nat)
    requires 1 <= i <= dAtA.Length
    modifies dAtA
    ensures Put(old(dAtA[..]), dAtA[..], i, [b], base)
  {
    base := i - 1;
    dAtA[base] := b;
    assert dAtA[..] == dAtA[..base] + [dAtA[base]] + dAtA[i..];
  }

  /** copy(dAtA[i:], s) */
  method PutBytes(dAtA: array<Byte>, i: nat, s: Str) returns (base: nat)
    requires |s| <= i <= dAtA.Length
    modifies dAtA
    ensures Put(old(dAtA[..]), dAtA[..], i, s, base)
  {
    base := i - |s|;
    for j := 0 to |s|
      invariant dAtA[base..base + j] == s[..j]
      invariant dAtA[..base] == old(dAtA[..base]) && dAtA[i..] == old(dAtA[i..])
    {
      dAtA[base + j] := s[j];
      assert dAtA[base..base + j + 1] == dAtA[base..base + j] + [s[j]];
      assert s[..j + 1] == s[..j] + [s[j]];
    }
    assert dAtA[..] == dAtA[..base] + dAtA[base..base + |s|] + dAtA[i..];
    assert s[..|s|] == s;
  }

  /** The length and the tag in front of a payload that has been written. */
  method PutHead(dAtA: array<Byte>, i: nat, field: int, size: nat) returns (base: nat)
    requires 1 <= field < 16 && size < TWO_63 && 1 + |EncodeVarint(size)| <= i <= dAtA.Length
    modifies dAtA
    ensures Put(old(dAtA[..]), dAtA[..], i, [8 * field + 2] + EncodeVarint(size), base)
  {
    hide EncodeVarint;
    ghost var s0 := dAtA[..];
    var j := PutVarint(dAtA, i, size);
    ghost var s1 := dAtA[..];
    base := PutByte(dAtA, j, 8 * field + 2);
    PutTwice(s0, s1, dAtA[..], i, EncodeVarint(size), j, [8 * field + 2], base);
  }

  lemma EncodeLenSize(field: int, payload: Str)
    requires 1 <= field < 16
    ensures |EncodeLen(field, payload)| == 1 + |EncodeVarint(|payload|)| + |payload|
  {
    hide EncodeVarint;
  }

  lemma LenIfEncoding(field: int, s: Str)
    requires 1 <= field < 16
    ensures SmallFields(LenIf(field, s)) && Encode(LenIf(field, s)) == if |s| > 0 then EncodeLen(field, s) else []
  {
    hide EncodeLen;
    if |s| > 0 { EncodeSingle(LenRec(field, s)); }
  }

  lemma VarintIfEncoding(field: int, v: uint64)
    requires 1 <= field < 16
    ensures SmallFields(VarintIf(field, v))
    ensures Encode(VarintIf(field, v)) == if v != 0 then [8 * field] + EncodeVarint(v) else []
  {
    hide EncodeVarint;
    if v != 0 { EncodeSingle(VarintRec(field, v)); }
  }

  method PutLen(dAtA: array<Byte>, i: nat, field: int, s: Str) returns (base: nat)
    requires 1 <= field < 16 && |EncodeLen(field, s)| <= i <= dAtA.Length < TWO_63
    modifies dAtA
    ensures Put(old(dAtA[..]), dAtA[..], i, EncodeLen(field, s), base)
  {
    hide EncodeLen, EncodeVarint;
    EncodeLenSize(field, s);
    ghost var s0 := dAtA[..];
    var j := PutBytes(dAtA, i, s);
    ghost var s1 := dAtA[..];
    base := PutHead(dAtA, j, field, |s|);
    PutLenRecord(s0, s1, dAtA[..], i, field, s, j, base);
  }

  method PutLenIf(dAtA: array<Byte>, i: nat, field: int, s: Str) returns (base: nat)
    requires 1 <= field < 16 && SmallFields(LenIf(field, s)) && |Encode(LenIf(field, s))| <= i <= dAtA.Length < TWO_63
    modifies dAtA
    ensures Put(old(dAtA[..]), dAtA[..], i, Encode(LenIf(field, s)), base)
  {
    hide Encode, LenIf, EncodeLen, SmallFields, Put;
    LenIfEncoding(field, s);
    PutNothing(dAtA[..], i);
    base := i;
    if |s| > 0 {
      base := PutLen(dAtA, i, field, s);
    }
  }

  method PutVarintIf(dAtA: array<Byte>, i: nat, field: int, v: uint64) returns (base: nat)
    requires 1 <= field < 16 && SmallFields(VarintIf(field, v)) && |Encode(VarintIf(field, v))| <= i <= dAtA.Length
    modifies dAtA
    ensures Put(old(dAtA[..]), dAtA[..], i, Encode(VarintIf(field, v)), base)
  {
    hide Encode, VarintIf, EncodeVarint, SmallFields;
    VarintIfEncoding(field, v);
    PutNothing(dAtA[..], i);
    base := i;
    if v != 0 {
      ghost var s0 := dAtA[..];
      var j := PutVarint(dAtA, i, v);
      ghost var s1 := dAtA[..];
      base := PutByte(dAtA, j, 8 * field);
      PutTwice(s0, s1, dAtA[..], i, EncodeVarint(v), j, [8 * field], base);
    }
  }

  lemma KeywordParts(k: Keyword)
    ensures SmallFields(LenIf(1, k.field)) && SmallFields(LenIf(2, k.word))
    ensures MarshalKeyword(k) == Encode(LenIf(1, k.field)) + Encode(LenIf(2, k.word))
  {
    hide Encode, LenIf, SmallFields;
    RoundTrip.LenIfSmall(1, k.field);
    RoundTrip.LenIfSmall(2, k.word);
    RoundTrip.EncodeAppend(LenIf(1, k.field), LenIf(2, k.word));
  }

  lemma PutBase(s: Str, t: Str, i: nat, x: Str, base: nat)
    requires Put(s, t, i, x, base)
    ensures base == i - |x| && |s| == |t|
  {
  }

  /** Writes the last n bytes before hi, which are the encoding, and returns n. */
  method PutKeyword(dAtA: array<Byte>, hi: nat, m: Keyword) returns (n: nat)
    requires |MarshalKeyword(m)| <= hi <= dAtA.Length < TWO_63
    modifies dAtA
    ensures n == |MarshalKeyword(m)|
    ensures Put(old(dAtA[..]), dAtA[..], hi, MarshalKeyword(m), hi - n)
  {
    hide Encode, LenIf, MarshalKeyword, SmallFields, Put;
    KeywordParts(m);
    ghost var s0 := dAtA[..];
    var j := PutLenIf(dAtA, hi, 2, m.word);
    ghost var s1 := dAtA[..];
    PutBase(s0, s1, hi, Encode(LenIf(2, m.word)), j);
    var i := PutLenIf(dAtA, j, 1, m.field);
    PutTwice(s0, s1, dAtA[..], hi, Encode(LenIf(2, m.word)), j, Encode(LenIf(1, m.field)), i);
    PutBase(s0, dAtA[..], hi, MarshalKeyword(m), i);
    n := hi - i;
  }

  lemma QuerySuffix(field: int, qs: seq<TermQuery>, j: nat)
    requires 1 <= field < 16 && j <= |qs|
    ensures |Encode(QueryList(field, qs[j..]))| <= |Encode(QueryList(field, qs))|
    decreases j
  {
    hide Encode, QueryList, MarshalQuery, EncodeLen;
    if j == 0 {
      assert qs[0..] == qs;
    } else {
      QuerySuffix(field, qs, j - 1);
      QueryListFrom(field, qs, j - 1);
    }
  }

  lemma KeywordSuffix(ks: seq<Keyword>, j: nat)
    requires j <= |ks|
    ensures |Encode(KeywordList(4, ks[j..]))| <= |Encode(KeywordList(4, ks))|
    decreases j
  {
    hide Encode, KeywordList, MarshalKeyword, EncodeLen;
    if j == 0 {
      assert ks[0..] == ks;
    } else {
      KeywordSuffix(ks, j - 1);
      KeywordListFrom(4, ks, j - 1);
    }
  }

  lemma DocumentSuffix(ds: seq<Document>, j: nat)
    requires j <= |ds|
    ensures |Encode(DocumentList(ds[j..]))| <= |Encode(DocumentList(ds))|
    decreases j
  {
    hide Encode, DocumentList, MarshalDocument, EncodeLen;
    if j == 0 {
      assert ds[0..] == ds;
    } else {
      DocumentSuffix(ds, j - 1);
      DocumentListFrom(ds, j - 1);
    }
  }

  lemma NoQueries(field: int, qs: seq<TermQuery>)
    requires 1 <= field < 16
    ensures Encode(QueryList(field, qs[|qs|..])) == []
  {
  }

  lemma NoKeywords(ks: seq<Keyword>)
    ensures Encode(KeywordList(4, ks[|ks|..])) == []
  {
  }

  lemma NoDocuments(ds: seq<Document>)
    ensures Encode(DocumentList(ds[|ds|..])) == []
  {
  }

  method PutQuery(dAtA: array<Byte>, hi: nat, m: TermQuery) returns (n: nat)
    requires |MarshalQuery(m)| <= hi <= dAtA.Length < TWO_63
    modifies dAtA
    ensures n == |MarshalQuery(m)|
    ensures Put(old(dAtA[..]), dAtA[..], hi, MarshalQuery(m), hi - n)
    decreases m, 0
  {
    hide Encode, QueryList, KeywordIf, MarshalQuery, SmallFields, Put;
    QueryParts(m);
    ghost var head := Encode(KeywordIf(1, m.keyword));
    ghost var must, should := Encode(QueryList(2, m.must)), Encode(QueryList(3, m.should));
    ghost var s0 := dAtA[..];
    var j := PutQueries(dAtA, hi, 3, m.should);
    ghost var s1 := dAtA[..];
    PutBase(s0, s1, hi, should, j);
    var k := PutQueries(dAtA, j, 2, m.must);
    ghost var s2 := dAtA[..];
    PutTwice(s0, s1, s2, hi, should, j, must, k);
    PutBase(s0, s2, hi, must + should, k);
    var i := PutQueryHead(dAtA, k, m);
    PutTwice(s0, s2, dAtA[..], hi, must + should, k, head, i);
    assert head + (must + should) == head + must + should;
    PutBase(s0, dAtA[..], hi, MarshalQuery(m), i);
    n := hi - i;
  }

  lemma KeywordIfEncoding(field: int, k: Option<Keyword>)
    requires 1 <= field < 16
    ensures SmallFields(KeywordIf(field, k))
    ensures Encode(KeywordIf(field, k)) == if k.Some? then EncodeLen(field, MarshalKeyword(k.value)) else []
  {
    hide EncodeLen, MarshalKeyword;
    if k.Some? { EncodeSingle(LenRec(field, MarshalKeyword(k.value))); }
  }

  method PutQueryHead(dAtA: array<Byte>, hi: nat, m: TermQuery) returns (i: nat)
    requires SmallFields(KeywordIf(1, m.keyword)) && |Encode(KeywordIf(1, m.keyword))| <= hi <= dAtA.Length < TWO_63
    modifies dAtA
    ensures Put(old(dAtA[..]), dAtA[..], hi, Encode(KeywordIf(1, m.keyword)), i)
  {
    hide Encode, KeywordIf, MarshalKeyword, SmallFields, EncodeLen, EncodeVarint, Put;
    KeywordIfEncoding(1, m.keyword);
    PutNothing(dAtA[..], hi);
    i := hi;
    if m.keyword.Some? {
      EncodeLenSize(1, MarshalKeyword(m.keyword.value));
      ghost var s0 := dAtA[..];
      var size := PutKeyword(dAtA, hi, m.keyword.value);
      ghost var s1 := dAtA[..];
      i := PutHead(dAtA, hi - size, 1, size);
      PutLenRecord(s0, s1, dAtA[..], hi, 1, MarshalKeyword(m.keyword.value), hi - size, i);
    }
  }

  method PutQueries(dAtA: array<Byte>, hi: nat, field: int, ms: seq<TermQuery>) returns (i: nat)
    requires 1 <= field < 16 && |Encode(QueryList(field, ms))| <= hi <= dAtA.Length < TWO_63
    modifies dAtA
    ensures Put(old(dAtA[..]), dAtA[..], hi, Encode(QueryList(field, ms)), i)
    decreases ms, 1
  {
    hide Encode, QueryList, MarshalQuery, SmallFields, EncodeLen, EncodeVarint, Put;
    i := hi;
    ghost var s0 := dAtA[..];
    NoQueries(field, ms);
    PutNothing(s0, hi);
    for j := |ms| downto 0
      invariant Put(s0, dAtA[..], hi, Encode(QueryList(field, ms[j..])), i)
    {
      ghost var done := Encode(QueryList(field, ms[j + 1..]));
      QuerySuffix(field, ms, j);
      QueryListFrom(field, ms, j);
      EncodeLenSize(field, MarshalQuery(ms[j]));
      ghost var s1 := dAtA[..];
      PutBase(s0, s1, hi, done, i);
      var size := PutQuery(dAtA, i, ms[j]);
      ghost var s2, before := dAtA[..], i;
      i := PutHead(dAtA, i - size, field, size);
      PutLenRecord(s1, s2, dAtA[..], before, field, MarshalQuery(ms[j]), before - size, i);
      PutTwice(s0, s1, dAtA[..], hi, done, before, EncodeLen(field, MarshalQuery(ms[j])), i);
    }
    assert ms[0..] == ms;
  }

  method PutKeywords(dAtA: array<Byte>, hi: nat, ms: seq<Keyword>) returns (i: nat)
    requires |Encode(KeywordList(4, ms))| <= hi <= dAtA.Length < TWO_63
    modifies dAtA
    ensures Put(old(dAtA[..]), dAtA[..], hi, Encode(KeywordList(4, ms)), i)
  {
    hide Encode, KeywordList, MarshalKeyword, SmallFields, EncodeLen, EncodeVarint, Put;
    i := hi;
    ghost var s0 := dAtA[..];
    NoKeywords(ms);
    PutNothing(s0, hi);
    for j := |ms| downto 0
      invariant Put(s0, dAtA[..], hi, Encode(KeywordList(4, ms[j..])), i)
    {
      ghost var done := Encode(KeywordList(4, ms[j + 1..]));
      KeywordSuffix(ms, j);
      KeywordListFrom(4, ms, j);
      EncodeLenSize(4, MarshalKeyword(ms[j]));
      ghost var s1 := dAtA[..];
      PutBase(s0, s1, hi, done, i);
      var size := PutKeyword(dAtA, i, ms[j]);
      ghost var s2, before := dAtA[..], i;
      i := PutHead(dAtA, i - size, 4, size);
      PutLenRecord(s1, s2, dAtA[..], before, 4, MarshalKeyword(ms[j]), before - size, i);
      PutTwice(s0, s1, dAtA[..], hi, done, before, EncodeLen(4, MarshalKeyword(ms[j])), i);
    }
    assert ms[0..] == ms;
  }

  lemma PartsSmall(d: Document)
    ensures SmallFields(LenIf(1, d.id)) && SmallFields(VarintIf(2, d.intId)) && SmallFields(VarintIf(3, d.bits))
    ensures SmallFields(LenIf(5, d.bytes))
  {
  }

  lemma FiveParts(a: Str, b: Str, c: Str, d: Str, e: Str)
    ensures a + (b + (c + (d + e))) == a + b + c + d + e
  {
  }

  method PutDocument(dAtA: array<Byte>, hi: nat, m: Document) returns (n: nat)
    requires |MarshalDocument(m)| <= hi <= dAtA.Length < TWO_63
    modifies dAtA
    ensures n == |MarshalDocument(m)|
    ensures Put(old(dAtA[..]), dAtA[..], hi, MarshalDocument(m), hi - n)
  {
    hide Encode, KeywordList, LenIf, VarintIf, MarshalDocument, SmallFields, Put;
    PartsSmall(m);
    DocumentParts(m);
    ghost var e1, e2, e3 := Encode(LenIf(1, m.id)), Encode(VarintIf(2, m.intId)), Encode(VarintIf(3, m.bits));
    ghost var e4, e5 := Encode(KeywordList(4, m.keywords)), Encode(LenIf(5, m.bytes));
    FiveParts(e1, e2, e3, e4, e5);
    ghost var s0 := dAtA[..];
    var i5 := PutLenIf(dAtA, hi, 5, m.bytes);
    ghost var s1 := dAtA[..];
    PutBase(s0, s1, hi, e5, i5);
    var i4 := PutKeywords(dAtA, i5, m.keywords);
    ghost var s2 := dAtA[..];
    PutTwice(s0, s1, s2, hi, e5, i5, e4, i4);
    PutBase(s0, s2, hi, e4 + e5, i4);
    var i3 := PutVarintIf(dAtA, i4, 3, m.bits);
    ghost var s3 := dAtA[..];
    PutTwice(s0, s2, s3, hi, e4 + e5, i4, e3, i3);
    PutBase(s0, s3, hi, e3 + (e4 + e5), i3);
    var i2 := PutVarintIf(dAtA, i3, 2, m.intId);
    ghost var s4 := dAtA[..];
    PutTwice(s0, s3, s4, hi, e3 + (e4 + e5), i3, e2, i2);
    PutBase(s0, s4, hi, e2 + (e3 + (e4 + e5)), i2);
    var i1 := PutLenIf(dAtA, i2, 1, m.id);
    PutTwice(s0, s4, dAtA[..], hi, e2 + (e3 + (e4 + e5)), i2, e1, i1);
    PutBase(s0, dAtA[..], hi, MarshalDocument(m), i1);
    n := hi - i1;
  }

  /** One number of a packed list, written forwards into the scratch buffer. */
  method AppendVarint(buf: array<Byte>, j1: nat, num: uint64) returns (j: nat)
    requires j1 + |EncodeVarint(num)| <= buf.Length
    modifies buf
    ensures j == j1 + |EncodeVarint(num)| && buf[..j] == old(buf[..j1]) + EncodeVarint(num)
  {
    j := j1;
    var x := num;
    ghost var done: Str := [];
    while x >= 128
      invariant j == j1 + |done| && j + |EncodeVarint(x)| <= buf.Length
      invariant done + EncodeVarint(x) == EncodeVarint(num)
      invariant buf[..j] == old(buf[..j1]) + done
    {
      EncodeStep(done, x);
      EncodeByte(x);
      ghost var before := buf[..j];
      buf[j] := Bits.Or(Bits.And(x, 127), 128);
      done := done + [x % 128 + 128];
      x := x / 128;
      j := j + 1;
      assert buf[..j] == before + [buf[j - 1]];
    }

    ghost var before := buf[..j];
    buf[j] := x;
    j := j + 1;
    assert buf[..j] == before + [x];
  }

  lemma {:induction false} PackSnoc(vs: seq<uint64>, k: nat)
    requires k < |vs|
    ensures Pack(vs[..k + 1]) == Pack(vs[..k]) + EncodeVarint(vs[k])
    decreases k
  {
    hide EncodeVarint;
    if k == 0 {
      assert vs[..1] == [vs[0]] && vs[..0] == [];
      assert [vs[0]][1..] == [];
    } else {
      PackSnoc(vs[1..], k - 1);
      assert vs[1..][..k] == vs[..k + 1][1..] && vs[1..][..k - 1] == vs[..k][1..];
    }
  }

  method PackNumbers(vs: seq<uint64>) returns (buf: array<Byte>, j1: nat)
    ensures fresh(buf) && j1 <= buf.Length && buf[..j1] == Pack(vs)
  {
    hide EncodeVarint, Pack;
    buf := new Byte[|vs| * MAX_BYTES](_ => 0);
    j1 := 0;
    PackNone();
    assert vs[..0] == [];
    for k := 0 to |vs|
      invariant j1 <= k * MAX_BYTES && buf[..j1] == Pack(vs[..k])
    {
      SovIsLength(vs[k]);
      PackSnoc(vs, k);
      assert (k + 1) * MAX_BYTES <= |vs| * MAX_BYTES;
      j1 := AppendVarint(buf, j1, vs[k]);
    }
    assert vs[..|vs|] == vs;
  }

  lemma PackNone()
    ensures Pack([]) == []
  {
  }

  lemma PackedIfEncoding(field: int, vs: seq<uint64>)
    requires 1 <= field < 16
    ensures SmallFields(PackedIf(field, vs))
    ensures Encode(PackedIf(field, vs)) == if |vs| > 0 then EncodeLen(field, Pack(vs)) else []
  {
    hide EncodeLen, Pack;
    if vs != [] { EncodeSingle(PackedRec(field, vs)); }
  }

  method PutOrFlags(dAtA: array<Byte>, hi: nat, vs: seq<uint64>) returns (i: nat)
    requires SmallFields(PackedIf(4, vs)) && |Encode(PackedIf(4, vs))| <= hi <= dAtA.Length < TWO_63
    modifies dAtA
    ensures Put(old(dAtA[..]), dAtA[..], hi, Encode(PackedIf(4, vs)), i)
  {
    hide Encode, PackedIf, EncodeLen, Pack, Put;
    PackedIfEncoding(4, vs);
    PutNothing(dAtA[..], hi);
    i := hi;
    if |vs| > 0 {
      var scratch, j1 := PackNumbers(vs);
      i := PutLen(dAtA, hi, 4, scratch[..j1]);
    }
  }

  lemma QueryIfEncoding(field: int, q: Option<TermQuery>)
    requires 1 <= field < 16
    ensures SmallFields(QueryIf(field, q))
    ensures Encode(QueryIf(field, q)) == if q.Some? then EncodeLen(field, MarshalQuery(q.value)) else []
  {
    hide EncodeLen, MarshalQuery;
    if q.Some? { EncodeSingle(LenRec(field, MarshalQuery(q.value))); }
  }

  lemma FlagsSmall(r: SearchRequest)
    ensures SmallFields(VarintIf(2, r.onFlag)) && SmallFields(VarintIf(3, r.offFlag))
  {
  }

  lemma FourParts(a: Str, b: Str, c: Str, d: Str)
    ensures a + (b + (c + d)) == a + b + c + d
  {
  }

  method PutRequestHead(dAtA: array<Byte>, hi: nat, m: SearchRequest) returns (i: nat)
    requires SmallFields(QueryIf(1, m.query)) && |Encode(QueryIf(1, m.query))| <= hi <= dAtA.Length < TWO_63
    modifies dAtA
    ensures Put(old(dAtA[..]), dAtA[..], hi, Encode(QueryIf(1, m.query)), i)
  {
    hide Encode, QueryIf, MarshalQuery, SmallFields, EncodeLen, EncodeVarint, Put;
    QueryIfEncoding(1, m.query);
    PutNothing(dAtA[..], hi);
    i := hi;
    if m.query.Some? {
      EncodeLenSize(1, MarshalQuery(m.query.value));
      ghost var s0 := dAtA[..];
      var size := PutQuery(dAtA, hi, m.query.value);
      ghost var s1 := dAtA[..];
      i := PutHead(dAtA, hi - size, 1, size);
      PutLenRecord(s0, s1, dAtA[..], hi, 1, MarshalQuery(m.query.value), hi - size, i);
    }
  }

  method PutRequest(dAtA: array<Byte>, hi: nat, m: SearchRequest) returns (n: nat)
    requires |Encode(RequestRecords(m))| <= hi <= dAtA.Length < TWO_63
    modifies dAtA
    ensures n == |Encode(RequestRecords(m))|
    ensures Put(old(dAtA[..]), dAtA[..], hi, Encode(RequestRecords(m)), hi - n)
  {
    hide Encode, VarintIf, SmallFields, PackedIf, RequestRecords, QueryIf, Put;
    FlagsSmall(m);
    RequestParts(m);
    ghost var e1, e2 := Encode(QueryIf(1, m.query)), Encode(VarintIf(2, m.onFlag));
    ghost var e3, e4 := Encode(VarintIf(3, m.offFlag)), Encode(PackedIf(4, m.orFlags));
    FourParts(e1, e2, e3, e4);
    ghost var s0 := dAtA[..];
    var i4 := PutOrFlags(dAtA, hi, m.orFlags);
    ghost var s1 := dAtA[..];
    PutBase(s0, s1, hi, e4, i4);
    var i3 := PutVarintIf(dAtA, i4, 3, m.offFlag);
    ghost var s2 := dAtA[..];
    PutTwice(s0, s1, s2, hi, e4, i4, e3, i3);
    PutBase(s0, s2, hi, e3 + e4, i3);
    var i2 := PutVarintIf(dAtA, i3, 2, m.onFlag);
    ghost var s3 := dAtA[..];
    PutTwice(s0, s2, s3, hi, e3 + e4, i3, e2, i2);
    PutBase(s0, s3, hi, e2 + (e3 + e4), i2);
    var i1 := PutRequestHead(dAtA, i2, m);
    PutTwice(s0, s3, dAtA[..], hi, e2 + (e3 + e4), i2, e1, i1);
    PutBase(s0, dAtA[..], hi, Encode(RequestRecords(m)), i1);
    n := hi - i1;
  }

  method PutResponse(dAtA: array<Byte>, hi: nat, ms: seq<Document>) returns (n: nat)
    requires |Encode(DocumentList(ms))| <= hi <= dAtA.Length < TWO_63
    modifies dAtA
    ensures n == |Encode(DocumentList(ms))|
    ensures Put(old(dAtA[..]), dAtA[..], hi, Encode(DocumentList(ms)), hi - n)
  {
    hide Encode, DocumentList, MarshalDocument, SmallFields, EncodeLen, EncodeVarint, Put;
    var i := hi;
    ghost var s0 := dAtA[..];
    NoDocuments(ms);
    PutNothing(s0, hi);
    for j := |ms| downto 0
      invariant Put(s0, dAtA[..], hi, Encode(DocumentList(ms[j..])), i)
    {
      ghost var done := Encode(DocumentList(ms[j + 1..]));
      DocumentSuffix(ms, j);
      DocumentListFrom(ms, j);
      EncodeLenSize(1, MarshalDocument(ms[j]));
      ghost var s1 := dAtA[..];
      PutBase(s0, s1, hi, done, i);
      var size := PutDocument(dAtA, i, ms[j]);
      ghost var s2, before := dAtA[..], i;
      i := PutHead(dAtA, i - size, 1, size);
      PutLenRecord(s1, s2, dAtA[..], before, 1, MarshalDocument(ms[j]), before - size, i);
      PutTwice(s0, s1, dAtA[..], hi, done, before, EncodeLen(1, MarshalDocument(ms[j])), i);
    }
    assert ms[0..] == ms;
    PutBase(s0, dAtA[..], hi, Encode(DocumentList(ms)), i);
    n := hi - i;
  }

  /** MarshalToSizedBuffer, into any buffer that has room before hi: exactly the last Size() bytes
      are written, with the encoding, and everything else stays. */
  method MarshalToSizedBuffer(m: Message, dAtA: array<Byte>, hi: nat) returns (n: nat)
    requires |Messages.Marshal(m)| <= hi <= dAtA.Length < TWO_63
    modifies dAtA
    ensures n == |Messages.Marshal(m)|
    ensures dAtA[..] == old(dAtA[..hi - n]) + Messages.Marshal(m) + old(dAtA[hi..])
  {
    hide Encode, KeywordRecords, QueryRecords, DocumentRecords, RequestRecords, DocumentList;
    match m
    case KeywordMsg(k) => n := PutKeyword(dAtA, hi, k);
    case QueryMsg(q) => n := PutQuery(dAtA, hi, q);
    case DocumentMsg(d) => n := PutDocument(dAtA, hi, d);
    case RequestMsg(r) => n := PutRequest(dAtA, hi, r);
    case ResponseMsg(ds) => n := PutResponse(dAtA, hi, ds);
  }

  /** Marshal fills a fresh buffer of exactly the right size. */
  method Marshal(m: Message) returns (dAtA: array<Byte>)
    requires |Messages.Marshal(m)| < TWO_63
    ensures fresh(dAtA) && dAtA[..] == Messages.Marshal(m)
  {
    hide Messages.Marshal;
    var size := Size(m);
    dAtA := new Byte[size](_ => 0);
    var _ := MarshalToSizedBuffer(m, dAtA, size);
  }
}
