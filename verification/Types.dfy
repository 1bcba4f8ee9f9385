/** Documents, queries and posting keys (types/doc.go, types/term_query.go), and strings.TrimSpace. */
module Types {
  import opened GoBase

  datatype Keyword = Keyword(field: Str, word: Str)

  datatype Document = Document(id: Str, intId: uint64, bits: uint64, keywords: seq<Keyword>, bytes: seq<Byte>)

  datatype TermQuery = TermQuery(keyword: Option<Keyword>, must: seq<TermQuery>, should: seq<TermQuery>)

  /** The posting key of a keyword (Keyword.ToString): all keywords with an empty word share one key. */
  function KeyOf(kw: Keyword): Str {
    if |kw.word| > 0 then kw.field + [1] + kw.word else []
  }

  const EMPTY_QUERY := TermQuery(None, [], [])

  predicate Empty(q: TermQuery) {
    q.keyword == None && |q.must| == 0 && |q.should| == 0
  }

  /** What a query asks of a document, read off the document alone. */
  ghost predicate Matches(d: Document, q: TermQuery)
    decreases q
  {
    match q.keyword
    case Some(kw) => HasPostingKey(d, KeyOf(kw))
    case None =>
      if |q.must| > 0 then forall j :: 0 <= j < |q.must| ==> Matches(d, q.must[j])
      else exists j :: 0 <= j < |q.should| && Matches(d, q.should[j])
  }

  ghost predicate HasPostingKey(d: Document, key: Str) {
    HasKeyword(d.keywords, key)
  }

  ghost predicate HasKeyword(kws: seq<Keyword>, key: Str) {
    exists i :: 0 <= i < |kws| && KeyOf(kws[i]) == key
  }

  lemma HasKeywordLast(kws: seq<Keyword>, key: Str)
    requires kws != []
    ensures HasKeyword(kws, key) <==> HasKeyword(kws[..|kws| - 1], key) || KeyOf(kws[|kws| - 1]) == key
  {
    var n := |kws| - 1;
    if HasKeyword(kws[..n], key) {
      var i :| 0 <= i < n && KeyOf(kws[..n][i]) == key;
      assert KeyOf(kws[i]) == key;
    }
    if HasKeyword(kws, key) {
      var i :| 0 <= i < |kws| && KeyOf(kws[i]) == key;
      assert i == n || kws[..n][i] == kws[i];
    }
  }

  /** What is in the middle belongs to a's word and to b's field. */
  ghost predicate Shifted(a: Keyword, b: Keyword) {
    exists middle :: b.field == a.field + [1] + middle && a.word == middle + [1] + b.word
  }

  lemma LongerField(a: Keyword, b: Keyword)
    requires a.word != [] && b.word != [] && KeyOf(a) == KeyOf(b) && |a.field| < |b.field|
    ensures Shifted(a, b)
  {
    var (key, m, n) := (KeyOf(a), |a.field|, |b.field|);
    var middle := key[m + 1..n];
    assert a.field == key[..m] && a.word == key[m + 1..] && key[m] == 1;
    assert b.field == key[..n] && b.word == key[n + 1..] && key[n] == 1;
    assert b.field == a.field + [1] + middle;
    assert a.word == middle + [1] + b.word;
  }

  lemma ShiftedShares(a: Keyword, b: Keyword)
    requires a.word != [] && b.word != [] && Shifted(a, b)
    ensures KeyOf(a) == KeyOf(b)
  {
    var middle :| b.field == a.field + [1] + middle && a.word == middle + [1] + b.word;
    assert a.field + [1] + (middle + [1] + b.word) == (a.field + [1] + middle) + [1] + b.word;
  }

  /** Which keywords share a posting key: equal ones, all with an empty word, and those that read the same
      around two separators, because a byte 1 in a field or word is not escaped. */
  lemma SharedKeyIff(a: Keyword, b: Keyword)
    ensures KeyOf(a) == KeyOf(b) <==>
              || a == b
              || (a.word == [] && b.word == [])
              || (a.word != [] && b.word != [] && (Shifted(a, b) || Shifted(b, a)))
  {
    if KeyOf(a) == KeyOf(b) && a.word != [] {
      assert |KeyOf(b)| > 0;
      if |a.field| < |b.field| {
        LongerField(a, b);
      } else if |b.field| < |a.field| {
        LongerField(b, a);
      } else {
        assert a.field == KeyOf(a)[..|a.field|] && b.field == KeyOf(b)[..|b.field|];
        assert a.word == KeyOf(a)[|a.field| + 1..] && b.word == KeyOf(b)[|b.field| + 1..];
      }
    }
    if a.word != [] && b.word != [] {
      if Shifted(a, b) { ShiftedShares(a, b); }
      if Shifted(b, a) { ShiftedShares(b, a); }
    }
  }

  lemma ShiftedHasByte(a: Keyword, b: Keyword)
    requires Shifted(a, b)
    ensures 1 in b.field
  {
    assert b.field[|a.field|] == 1;
  }

  /** So keywords whose fields have no such byte share a key only if they are equal or have no word. */
  lemma CleanFieldsShare(a: Keyword, b: Keyword)
    requires 1 !in a.field && 1 !in b.field
    ensures KeyOf(a) == KeyOf(b) <==> a == b || (a.word == [] && b.word == [])
  {
    SharedKeyIff(a, b);
    if Shifted(a, b) { ShiftedHasByte(a, b); }
    if Shifted(b, a) { ShiftedHasByte(b, a); }
  }

  /** The queries that are not empty, in their order. */
  function Kept(queries: seq<TermQuery>): seq<TermQuery> {
    if queries == [] then []
    else
      var last := queries[|queries| - 1];
      Kept(queries[..|queries| - 1]) + if Empty(last) then [] else [last]
  }

  lemma KeptSnoc(queries: seq<TermQuery>, q: TermQuery)
    ensures Kept(queries + [q]) == if Empty(q) then Kept(queries) else Kept(queries) + [q]
  {
    assert (queries + [q])[..|queries|] == queries;
  }

  lemma KeptOne(q: TermQuery)
    ensures Kept([q]) == if Empty(q) then [] else [q]
  {
    KeptSnoc([], q);
    assert [] + [q] == [q];
  }

  lemma {:induction false} KeptMembers(queries: seq<TermQuery>)
    ensures forall q :: q in Kept(queries) <==> q in queries && !Empty(q)
    decreases |queries|
  {
    hide Empty;
    if queries != [] {
      var n := |queries| - 1;
      KeptMembers(queries[..n]);
      assert queries == queries[..n] + [queries[n]];
    }
  }

  /** The builder drops empty queries; what is left is a conjunction, which holds of no document
      when nothing is left. */
  method And(tq: TermQuery, queries: seq<TermQuery>) returns (r: TermQuery)
    ensures |queries| == 0 ==> r == tq
    ensures |queries| > 0 ==> r == TermQuery(None, Kept([tq] + queries), [])
    ensures |queries| > 0 ==>
              forall d :: Matches(d, r) <==>
                && (exists q :: q in [tq] + queries && !Empty(q))
                && (forall q :: q in [tq] + queries && !Empty(q) ==> Matches(d, q))
  {
    if |queries| == 0 {
      return tq;
    }
    var all := NonEmpty(tq, queries);
    r := TermQuery(None, all, []);
    forall d
      ensures Matches(d, r) <==>
                && (exists q :: q in [tq] + queries && !Empty(q))
                && (forall q :: q in [tq] + queries && !Empty(q) ==> Matches(d, q))
    {
      if |all| > 0 { assert all[0] in all; }
      assert forall j :: 0 <= j < |all| ==> all[j] in all;
    }
  }

  /** The same for a disjunction. */
  method Or(tq: TermQuery, queries: seq<TermQuery>) returns (r: TermQuery)
    ensures |queries| == 0 ==> r == tq
    ensures |queries| > 0 ==> r == TermQuery(None, [], Kept([tq] + queries))
    ensures |queries| > 0 ==>
              forall d :: Matches(d, r) <==> exists q :: q in [tq] + queries && Matches(d, q)
  {
    if |queries| == 0 {
      return tq;
    }
    var all := NonEmpty(tq, queries);
    r := TermQuery(None, [], all);
    forall d ensures Matches(d, r) <==> exists q :: q in [tq] + queries && Matches(d, q) {
      assert forall j :: 0 <= j < |all| ==> all[j] in all;
    }
  }

  method NonEmpty(tq: TermQuery, queries: seq<TermQuery>) returns (all: seq<TermQuery>)
    ensures all == Kept([tq] + queries)
    ensures forall q :: q in all <==> q in [tq] + queries && !Empty(q)
  {
    hide Kept, Empty;
    all := if Empty(tq) then [] else [tq];
    KeptOne(tq);
    assert [tq] + queries[..0] == [tq];
    for i := 0 to |queries|
      invariant all == Kept([tq] + queries[..i])
    {
      KeptSnoc([tq] + queries[..i], queries[i]);
      assert [tq] + queries[..i + 1] == [tq] + queries[..i] + [queries[i]];
      if !Empty(queries[i]) {
        all := all + [queries[i]];
      }
    }
    assert queries[..|queries|] == queries;
    KeptMembers([tq] + queries);
  }

  /** The length of the UTF-8 encoding of a Unicode space at the start of s, or 0. */
  function SpaceAtStart(s: Str): (n: nat)
    ensures n <= |s|
  {
    if |s| >= 1 && IsSpace1(s[0]) then 1
    else if |s| >= 2 && IsSpace2(s[0], s[1]) then 2
    else if |s| >= 3 && IsSpace3(s[0], s[1], s[2]) then 3
    else 0
  }

  function SpaceAtEnd(s: Str): (n: nat)
    ensures n <= |s|
  {
    var l := |s|;
    if l >= 1 && IsSpace1(s[l - 1]) then 1
    else if l >= 2 && IsSpace2(s[l - 2], s[l - 1]) then 2
    else if l >= 3 && IsSpace3(s[l - 3], s[l - 2], s[l - 1]) then 3
    else 0
  }

  predicate IsSpace1(a: Byte) { 9 <= a <= 13 || a == 32 }

  predicate IsSpace2(a: Byte, b: Byte) { a == 0xC2 && (b == 0x85 || b == 0xA0) }

  predicate IsSpace3(a: Byte, b: Byte, c: Byte) {
    || (a == 0xE1 && b == 0x9A && c == 0x80)
    || (a == 0xE2 && b == 0x80 && (0x80 <= c <= 0x8A || c == 0xA8 || c == 0xA9 || c == 0xAF))
    || (a == 0xE2 && b == 0x81 && c == 0x9F)
    || (a == 0xE3 && b == 0x80 && c == 0x80)
  }

  function TrimLeft(s: Str): Str
    decreases |s|
  {
    var n := SpaceAtStart(s);
    if n == 0 then s else TrimLeft(s[n..])
  }

  function TrimRight(s: Str): Str
    decreases |s|
  {
    var n := SpaceAtEnd(s);
    if n == 0 then s else TrimRight(s[..|s| - n])
  }

  function TrimSpace(s: Str): Str {
    TrimRight(TrimLeft(s))
  }

  /** Trimming leaves no space at either end, and trimming again changes nothing. */
  lemma TrimSpaceIdempotent(s: Str)
    ensures SpaceAtStart(TrimSpace(s)) == 0 && SpaceAtEnd(TrimSpace(s)) == 0
    ensures TrimSpace(TrimSpace(s)) == TrimSpace(s)
  {
    TrimLeftStops(s);
    TrimRightStops(TrimLeft(s));
  }

  lemma {:induction false} TrimLeftStops(s: Str)
    ensures SpaceAtStart(TrimLeft(s)) == 0
    decreases |s|
  {
    if SpaceAtStart(s) > 0 { TrimLeftStops(s[SpaceAtStart(s)..]); }
  }

  lemma {:induction false} TrimRightStops(s: Str)
    requires SpaceAtStart(s) == 0
    ensures SpaceAtEnd(TrimRight(s)) == 0 && SpaceAtStart(TrimRight(s)) == 0
    decreases |s|
  {
    if SpaceAtEnd(s) > 0 { TrimRightStops(s[..|s| - SpaceAtEnd(s)]); }
  }
}
