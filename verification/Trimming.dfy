/** What strings.TrimSpace keeps (service/indexer.go trims ids with it): the spaces of Unicode as
    characters, and trimming as a statement about texts made of their encodings. */
module Trimming {
  import opened GoBase
  import opened Types

  /** A character of the basic plane, which has all spaces. */
  type Rune = c: int | 0 <= c < 0x10000

  /** The characters that unicode.IsSpace accepts. */
  predicate SpaceChar(c: Rune) {
    || 0x09 <= c <= 0x0D || c == 0x20 || c == 0x85 || c == 0xA0 || c == 0x1680 || 0x2000 <= c <= 0x200A
    || c == 0x2028 || c == 0x2029 || c == 0x202F || c == 0x205F || c == 0x3000
  }

  /** The UTF-8 encoding (section 3 of RFC 3629). */
  function Utf8(c: Rune): (e: Str)
    ensures 1 <= |e| <= 3
  {
    if c < 0x80 then [c]
    else if c < 0x800 then [0xC0 + c / 64, 0x80 + c % 64]
    else [0xE0 + c / 4096, 0x80 + c / 64 % 64, 0x80 + c % 64]
  }

  predicate Ends(s: Str, e: Str) {
    |e| <= |s| && s[|s| - |e|..] == e
  }

  ghost predicate StartsWithSpace(s: Str) {
    exists c: Rune :: SpaceChar(c) && Utf8(c) <= s
  }

  ghost predicate EndsWithSpace(s: Str) {
    exists c: Rune :: SpaceChar(c) && Ends(s, Utf8(c))
  }

  predicate AllSpaces(cs: seq<Rune>) {
    forall i :: 0 <= i < |cs| ==> SpaceChar(cs[i])
  }

  function Text(cs: seq<Rune>): Str {
    if cs == [] then [] else Utf8(cs[0]) + Text(cs[1..])
  }

  // ----- One space -----

  /** The character whose encoding the byte tests have found. */
  lemma CharOf(e: Str) returns (c: Rune)
    requires |e| == 1 ==> IsSpace1(e[0])
    requires |e| == 2 ==> IsSpace2(e[0], e[1])
    requires |e| == 3 ==> IsSpace3(e[0], e[1], e[2])
    requires 1 <= |e| <= 3
    ensures SpaceChar(c) && Utf8(c) == e
  {
    if |e| == 1 {
      c := e[0];
    } else if |e| == 2 {
      c := e[1];
    } else {
      var x: int, y: int, z: int := e[0] - 0xE0, e[1] - 0x80, e[2] - 0x80;
      c := x * 4096 + y * 64 + z;
    }
  }

  lemma FoundAtStart(s: Str) returns (c: Rune)
    requires SpaceAtStart(s) > 0
    ensures SpaceChar(c) && Utf8(c) == s[..SpaceAtStart(s)]
  {
    hide Utf8, SpaceChar;
    c := CharOf(s[..SpaceAtStart(s)]);
  }

  lemma FoundAtEnd(s: Str) returns (c: Rune)
    requires SpaceAtEnd(s) > 0
    ensures SpaceChar(c) && Utf8(c) == s[|s| - SpaceAtEnd(s)..]
  {
    hide Utf8, SpaceChar;
    c := CharOf(s[|s| - SpaceAtEnd(s)..]);
  }

  /** Every space passes the byte test for its length, and no test for a shorter one. */
  lemma Recognised(c: Rune)
    requires SpaceChar(c)
    ensures var e := Utf8(c);
            && (|e| == 1 ==> IsSpace1(e[0]))
            && (|e| == 2 ==> IsSpace2(e[0], e[1]))
            && (|e| == 3 ==> IsSpace3(e[0], e[1], e[2]))
            && (|e| > 1 ==> e[0] >= 0xC2 && 0x80 <= e[1] < 0xC0)
            && (|e| > 2 ==> 0x80 <= e[2] < 0xC0 && !IsSpace2(e[1], e[2]))
  {
  }

  lemma SpaceAtStartIs(s: Str, c: Rune)
    requires SpaceChar(c) && Utf8(c) <= s
    ensures SpaceAtStart(s) == |Utf8(c)|
  {
    hide Utf8, SpaceChar;
    Recognised(c);
    assert forall i :: 0 <= i < |Utf8(c)| ==> s[i] == Utf8(c)[i];
  }

  lemma SpaceAtEndIs(s: Str, c: Rune)
    requires SpaceChar(c) && Ends(s, Utf8(c))
    ensures SpaceAtEnd(s) == |Utf8(c)|
  {
    hide Utf8, SpaceChar;
    Recognised(c);
    var k := |s| - |Utf8(c)|;
    assert forall i :: 0 <= i < |Utf8(c)| ==> s[k + i] == s[k..][i] == Utf8(c)[i];
  }

  /** The byte tests find a space exactly where there is one. */
  lemma TestsExact(s: Str)
    ensures SpaceAtStart(s) > 0 <==> StartsWithSpace(s)
    ensures SpaceAtEnd(s) > 0 <==> EndsWithSpace(s)
  {
    hide Utf8, SpaceChar, SpaceAtStart, SpaceAtEnd;
    var (m, n) := (SpaceAtStart(s), SpaceAtEnd(s));
    if m > 0 {
      var c := FoundAtStart(s);
      assert Utf8(c) <= s;
    }
    if n > 0 {
      var c := FoundAtEnd(s);
      assert Ends(s, Utf8(c));
    }
    if StartsWithSpace(s) {
      var c: Rune :| SpaceChar(c) && Utf8(c) <= s;
      SpaceAtStartIs(s, c);
    }
    if EndsWithSpace(s) {
      var c: Rune :| SpaceChar(c) && Ends(s, Utf8(c));
      SpaceAtEndIs(s, c);
    }
  }

  // ----- What trimming removes -----

  lemma {:induction false} TextAppend(cs: seq<Rune>, ds: seq<Rune>)
    ensures Text(cs + ds) == Text(cs) + Text(ds)
    decreases |cs|
  {
    hide Utf8;
    if cs == [] {
      assert cs + ds == ds;
    } else {
      TextAppend(cs[1..], ds);
      assert (cs + ds)[1..] == cs[1..] + ds;
    }
  }

  lemma TextOne(c: Rune)
    ensures Text([c]) == Utf8(c)
  {
    hide Utf8;
    assert [c][1..] == [];
  }

  lemma {:induction false} LeftPart(s: Str) returns (cs: seq<Rune>)
    ensures AllSpaces(cs) && s == Text(cs) + TrimLeft(s)
    decreases |s|
  {
    hide Utf8, SpaceChar, SpaceAtStart;
    var n := SpaceAtStart(s);
    if n == 0 {
      cs := [];
    } else {
      var c := FoundAtStart(s);
      var rest := LeftPart(s[n..]);
      cs := [c] + rest;
    }
  }

  lemma {:induction false} RightPart(s: Str) returns (cs: seq<Rune>)
    ensures AllSpaces(cs) && s == TrimRight(s) + Text(cs)
    decreases |s|
  {
    hide Utf8, SpaceChar, SpaceAtEnd, Text;
    var n := SpaceAtEnd(s);
    if n == 0 {
      cs := [];
      NoText();
    } else {
      var c := FoundAtEnd(s);
      var rest := RightPart(s[..|s| - n]);
      cs := rest + [c];
      TextAppend(rest, [c]);
      TextOne(c);
    }
  }

  lemma NoText()
    ensures Text([]) == []
  {
  }

  // ----- What trimming keeps -----

  lemma {:induction false} LeftOfSpaces(cs: seq<Rune>, s: Str)
    requires AllSpaces(cs)
    ensures TrimLeft(Text(cs) + s) == TrimLeft(s)
    decreases |cs|
  {
    hide Utf8, SpaceChar, SpaceAtStart;
    if cs == [] {
      assert Text(cs) + s == s;
    } else {
      var t := Text(cs) + s;
      SpaceAtStartIs(t, cs[0]);
      assert t[|Utf8(cs[0])|..] == Text(cs[1..]) + s;
      LeftOfSpaces(cs[1..], s);
    }
  }

  lemma {:induction false} RightOfSpaces(s: Str, cs: seq<Rune>)
    requires AllSpaces(cs)
    ensures TrimRight(s + Text(cs)) == TrimRight(s)
    decreases |cs|
  {
    hide Utf8, SpaceChar, SpaceAtEnd, Text;
    if cs == [] {
      NoText();
      assert s + [] == s;
    } else {
      var n := |cs| - 1;
      var last, t := Utf8(cs[n]), s + Text(cs);
      assert cs == cs[..n] + [cs[n]];
      TextAppend(cs[..n], [cs[n]]);
      TextOne(cs[n]);
      assert t == s + Text(cs[..n]) + last;
      SpaceAtEndIs(t, cs[n]);
      assert t[..|t| - |last|] == s + Text(cs[..n]);
      RightOfSpaces(s, cs[..n]);
    }
  }

  /** Spaces behind a text cannot complete a space at its start: no space begins with a byte that
      continues one. */
  lemma NoNewSpace(t: Str, cs: seq<Rune>)
    requires t != [] && SpaceAtStart(t) == 0 && AllSpaces(cs)
    ensures SpaceAtStart(t + Text(cs)) == 0
  {
    hide Utf8, SpaceChar;
    if cs != [] {
      Recognised(cs[0]);
      var s := t + Text(cs);
      assert s[|t|] == Utf8(cs[0])[0];
      assert forall i :: 0 <= i < |t| ==> s[i] == t[i];
    } else {
      assert t + Text(cs) == t;
    }
  }

  lemma TrimLeftNothing(s: Str)
    requires SpaceAtStart(s) == 0
    ensures TrimLeft(s) == s
  {
  }

  lemma TrimRightNothing(s: Str)
    requires SpaceAtEnd(s) == 0
    ensures TrimRight(s) == s
  {
  }

  /** t is s without the spaces around it. */
  ghost predicate Trimmed(s: Str, t: Str) {
    && (exists a, b :: AllSpaces(a) && AllSpaces(b) && s == Text(a) + t + Text(b))
    && !StartsWithSpace(t) && !EndsWithSpace(t)
  }

  /** Trimming takes nothing but spaces from the two ends, and all of them; there is one way to do so. */
  lemma TrimExact(s: Str, t: Str)
    ensures TrimSpace(s) == t <==> Trimmed(s, t)
  {
    hide SpaceAtStart, SpaceAtEnd, StartsWithSpace, EndsWithSpace, TrimLeft, TrimRight, Text, SpaceChar;
    TestsExact(t);
    if TrimSpace(s) == t {
      var a := LeftPart(s);
      var b := RightPart(TrimLeft(s));
      assert s == Text(a) + t + Text(b);
      TrimSpaceIdempotent(s);
    }
    if Trimmed(s, t) {
      var a, b :| AllSpaces(a) && AllSpaces(b) && s == Text(a) + t + Text(b);
      assert s == Text(a) + (t + Text(b));
      LeftOfSpaces(a, t + Text(b));
      OnlySpacesOff(t, b);
    }
  }

  lemma OnlySpacesOff(t: Str, cs: seq<Rune>)
    requires AllSpaces(cs) && SpaceAtStart(t) == 0 && SpaceAtEnd(t) == 0
    ensures TrimSpace(t + Text(cs)) == t
  {
    hide SpaceAtStart, SpaceAtEnd, TrimLeft, TrimRight, Text, SpaceChar;
    if t == [] {
      assert t + Text(cs) == Text(cs) + [];
      LeftOfSpaces(cs, []);
      TrimLeftNothing([]);
    } else {
      NoNewSpace(t, cs);
      TrimLeftNothing(t + Text(cs));
      RightOfSpaces(t, cs);
    }
    TrimRightNothing(t);
  }
}
