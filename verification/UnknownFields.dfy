/** Fields a message does not know (section "Unknown Fields" of the Protocol Buffers language guide):
    a decoder skips them, groups with everything inside included. */
module UnknownFields {
  import opened GoBase
  import opened Varint
  import opened Wire
  import Canonical

  /** A field of any wire type, as its bytes: a tag, a number or a length may be longer than needed. */
  datatype Unknown =
    | UVarint(tag: Str, raw: Str)
    | UFixed64(tag: Str, raw: Str)
    | ULen(tag: Str, length: Str, payload: Str)
    | UGroup(tag: Str, inner: seq<Unknown>, end: Str)
    | UFixed32(tag: Str, raw: Str)

  function WireType(u: Unknown): nat {
    match u
    case UVarint(_, _) => 0
    case UFixed64(_, _) => 1
    case ULen(_, _, _) => 2
    case UGroup(_, _, _) => 3
    case UFixed32(_, _) => 5
  }

  /** One varint and nothing else, with the wire type in its lowest three bits. */
  predicate TagOk(tag: Str, wireType: nat) {
    Read(tag).Ok? && Read(tag).value.1 == |tag| && Read(tag).value.0 % 8 == wireType
  }

  /** The end of a group may carry any field number: the decoder counts only the depth. */
  ghost predicate WellFormed(u: Unknown)
    decreases u
  {
    && TagOk(u.tag, WireType(u))
    && match u
       case UVarint(_, raw) => Terminated(raw, MAX_BYTES) == Ok(|raw|)
       case UFixed64(_, raw) => |raw| == 8
       case ULen(_, length, payload) => |payload| < TWO_63 && Read(length) == Ok((|payload|, |length|))
       case UGroup(_, inner, end) => TagOk(end, 4) && forall i :: 0 <= i < |inner| ==> WellFormed(inner[i])
       case UFixed32(_, raw) => |raw| == 4
  }

  ghost predicate AllWellFormed(us: seq<Unknown>) {
    forall i :: 0 <= i < |us| ==> WellFormed(us[i])
  }

  function EncodeUnknown(u: Unknown): Str
    decreases u, 0
  {
    match u
    case UVarint(tag, raw) => tag + raw
    case UFixed64(tag, raw) => tag + raw
    case ULen(tag, length, payload) => tag + length + payload
    case UGroup(tag, inner, end) => tag + EncodeAll(inner) + end
    case UFixed32(tag, raw) => tag + raw
  }

  function EncodeAll(us: seq<Unknown>): Str
    decreases us, 1
  {
    if us == [] then [] else EncodeUnknown(us[0]) + EncodeAll(us[1..])
  }

  ghost predicate At(s: Str, i: nat, e: Str) {
    i + |e| <= |s| && s[i..i + |e|] == e
  }

  lemma AtParts(s: Str, i: nat, a: Str, b: Str)
    ensures At(s, i, a + b) <==> At(s, i, a) && At(s, i + |a|, b)
  {
    if At(s, i, a + b) {
      assert s[i..i + |a|] == (a + b)[..|a|];
      assert s[i + |a|..i + |a| + |b|] == (a + b)[|a|..];
    }
    if At(s, i, a) && At(s, i + |a|, b) {
      assert s[i..i + |a + b|] == s[i..i + |a|] + s[i + |a|..i + |a| + |b|];
    }
  }

  lemma ReadAt(s: Str, i: nat, raw: Str)
    requires At(s, i, raw) && Read(raw).Ok?
    ensures Read(s[i..]) == Read(raw)
  {
    hide Read;
    ReadPrefix(raw, s[i + |raw|..]);
    assert s[i..] == raw + s[i + |raw|..];
  }

  lemma TerminatedAt(s: Str, i: nat, raw: Str)
    requires At(s, i, raw) && Terminated(raw, MAX_BYTES) == Ok(|raw|)
    ensures Terminated(s[i..], MAX_BYTES) == Ok(|raw|)
  {
    hide Terminated;
    TerminatedPrefix(raw, s[i + |raw|..], MAX_BYTES);
    assert s[i..] == raw + s[i + |raw|..];
  }

  // ----- What is well formed is skipped -----

  /** Skipping from i is done at j, or goes on there at the depth given. */
  ghost predicate Skipped(s: Str, i: nat, depth: nat, j: nat, after: nat) {
    SkipFrom(s, i, depth) == if after == 0 then Ok(j) else SkipFrom(s, j, after)
  }

  /** Reading a tag, and what comes after it. */
  lemma SkipTag(s: Str, i: nat, tag: Str, wireType: nat, depth: nat)
    requires At(s, i, tag) && TagOk(tag, wireType)
    ensures SkipFrom(s, i, depth) ==
              match SkipBody(s, i + |tag|, wireType, depth)
              case Err(e) => Err(e)
              case Ok((k, d)) =>
                if k >= TWO_63 then Err(InvalidLength) else if d == 0 then Ok(k) else SkipFrom(s, k, d)
  {
    hide Read, SkipBody;
    ReadAt(s, i, tag);
  }

  lemma SkipVarint(s: Str, i: nat, tag: Str, raw: Str, depth: nat)
    requires At(s, i, tag + raw) && TagOk(tag, 0) && |s| < TWO_63
    requires Terminated(raw, MAX_BYTES) == Ok(|raw|)
    ensures Skipped(s, i, depth, i + |tag + raw|, depth)
  {
    hide Terminated, SkipFrom, TagOk;
    AtParts(s, i, tag, raw);
    SkipTag(s, i, tag, 0, depth);
    TerminatedAt(s, i + |tag|, raw);
  }

  lemma SkipFixed(s: Str, i: nat, tag: Str, wireType: nat, raw: Str, depth: nat)
    requires At(s, i, tag + raw) && TagOk(tag, wireType) && |s| < TWO_63
    requires (wireType == 1 && |raw| == 8) || (wireType == 5 && |raw| == 4)
    ensures Skipped(s, i, depth, i + |tag + raw|, depth)
  {
    hide SkipFrom, TagOk;
    AtParts(s, i, tag, raw);
    SkipTag(s, i, tag, wireType, depth);
  }

  lemma SkipLen(s: Str, i: nat, tag: Str, length: Str, payload: Str, depth: nat)
    requires At(s, i, tag + length + payload) && TagOk(tag, 2) && |s| < TWO_63
    requires |payload| < TWO_63 && Read(length) == Ok((|payload|, |length|))
    ensures Skipped(s, i, depth, i + |tag + length + payload|, depth)
  {
    hide SkipFrom, Read, TagOk;
    AtParts(s, i, tag + length, payload);
    AtParts(s, i, tag, length);
    SkipTag(s, i, tag, 2, depth);
    ReadAt(s, i + |tag|, length);
  }

  lemma SkipGroup(s: Str, i: nat, tag: Str, body: Str, end: Str, depth: nat)
    requires At(s, i, tag) && TagOk(tag, 3) && |s| < TWO_63
    requires At(s, i + |tag + body|, end) && TagOk(end, 4)
    requires Skipped(s, i + |tag|, depth + 1, i + |tag| + |body|, depth + 1)
    ensures Skipped(s, i, depth, i + |tag + body + end|, depth)
  {
    hide SkipFrom, TagOk;
    SkipTag(s, i, tag, 3, depth);
    SkipTag(s, i + |tag + body|, end, 4, depth + 1);
  }

  /** Skipping consumes exactly the field, at any depth of open groups. */
  lemma {:induction false} SkipUnknown(s: Str, i: nat, u: Unknown, depth: nat)
    requires At(s, i, EncodeUnknown(u)) && WellFormed(u) && |s| < TWO_63
    ensures Skipped(s, i, depth, i + |EncodeUnknown(u)|, depth)
    decreases u, 0
  {
    hide At, Skipped, Terminated, TagOk, SkipFrom;
    match u
    case UVarint(tag, raw) => SkipVarint(s, i, tag, raw, depth);
    case UFixed64(tag, raw) => SkipFixed(s, i, tag, 1, raw, depth);
    case ULen(tag, length, payload) => SkipLen(s, i, tag, length, payload, depth);
    case UFixed32(tag, raw) => SkipFixed(s, i, tag, 5, raw, depth);
    case UGroup(tag, inner, end) =>
      var body := EncodeAll(inner);
      AtParts(s, i, tag + body, end);
      AtParts(s, i, tag, body);
      SkipAll(s, i + |tag|, inner, depth + 1);
      SkipGroup(s, i, tag, body, end, depth);
  }

  lemma {:induction false} SkipAll(s: Str, i: nat, us: seq<Unknown>, depth: nat)
    requires At(s, i, EncodeAll(us)) && AllWellFormed(us) && |s| < TWO_63 && depth > 0
    ensures Skipped(s, i, depth, i + |EncodeAll(us)|, depth)
    decreases us, 1
  {
    hide At, SkipFrom, EncodeUnknown, WellFormed;
    if us != [] {
      var first, rest := EncodeUnknown(us[0]), EncodeAll(us[1..]);
      AtParts(s, i, first, rest);
      SkipUnknown(s, i, us[0], depth);
      SkipAll(s, i + |first|, us[1..], depth);
    }
  }

  // ----- What is skipped is well formed -----

  /** Skipping from i ends in the buffer. */
  ghost predicate SkipEnds(s: Str, i: nat, depth: nat) {
    |s| < TWO_63 && SkipFrom(s, i, depth).Ok? && SkipFrom(s, i, depth).value <= |s|
  }

  lemma OwnBytes(s: Str, i: nat)
    requires i <= |s| && Read(s[i..]).Ok?
    ensures var (v, n) := Read(s[i..]).value;
            i + n <= |s| && At(s, i, s[i..i + n]) && Read(s[i..i + n]) == Ok((v, n))
  {
    hide Read;
    ReadCut(s[i..]);
    var n := Read(s[i..]).value.1;
    assert s[i..][..n] == s[i..i + n];
  }

  lemma {:induction false} TerminatedCut(s: Str, left: nat)
    requires Terminated(s, left).Ok?
    ensures var n := Terminated(s, left).value; Terminated(s[..n], left) == Ok(n)
  {
    if s[0] >= 128 {
      TerminatedCut(s[1..], left - 1);
      var n := Terminated(s, left).value;
      assert s[..n][1..] == s[1..][..n - 1];
    }
  }

  /** A varint is read from its own bytes alone. */
  lemma ReadCut(s: Str)
    requires Read(s).Ok?
    ensures var (v, n) := Read(s).value; Read(s[..n]) == Ok((v, n))
  {
    TerminatedCut(s, MAX_BYTES);
    var n := Read(s).value.1;
    assert s[..n][..n] == s[..n];
  }

  /** The tag at i, and where its field goes on. */
  lemma TakeTag(s: Str, i: nat, depth: nat) returns (tag: Str, wireType: nat)
    requires SkipEnds(s, i, depth)
    ensures At(s, i, tag) && TagOk(tag, wireType) && tag != []
    ensures SkipBody(s, i + |tag|, wireType, depth).Ok?
    ensures var (k, d) := SkipBody(s, i + |tag|, wireType, depth).value;
            Skipped(s, i, depth, k, d) && k <= |s| && (d > 0 ==> SkipEnds(s, k, d))
  {
    hide Read, SkipBody;
    OwnBytes(s, i);
    var (v, n) := Read(s[i..]).value;
    tag, wireType := s[i..i + n], v % 8;
  }

  /** A field that is no group. */
  lemma TakePlain(s: Str, i: nat, tag: Str, wireType: nat, depth: nat) returns (u: Unknown)
    requires |s| < TWO_63 && At(s, i, tag) && TagOk(tag, wireType) && wireType !in {3, 4}
    requires SkipBody(s, i + |tag|, wireType, depth).Ok?
    requires SkipBody(s, i + |tag|, wireType, depth).value.0 <= |s|
    ensures WellFormed(u) && u.tag == tag && At(s, i, EncodeUnknown(u))
    ensures SkipBody(s, i + |tag|, wireType, depth) == Ok((i + |EncodeUnknown(u)|, depth))
  {
    hide Read, Terminated, TagOk;
    var j, k := i + |tag|, SkipBody(s, i + |tag|, wireType, depth).value.0;
    match wireType {
      case 0 =>
        TerminatedCut(s[j..], MAX_BYTES);
        assert s[j..][..k - j] == s[j..k];
        u := UVarint(tag, s[j..k]);
      case 1 => u := UFixed64(tag, s[j..k]);
      case 2 =>
        OwnBytes(s, j);
        var (v, n) := Read(s[j..]).value;
        u := ULen(tag, s[j..j + n], s[j + n..k]);
        assert s[i..k] == EncodeUnknown(u);
      case _ => u := UFixed32(tag, s[j..k]);
    }
    assert s[i..k] == EncodeUnknown(u);
  }

  /** A group's tag, the fields inside and the end make one field. */
  lemma TakeGroup(s: Str, i: nat, tag: Str, inner: seq<Unknown>, end: Str) returns (u: Unknown)
    requires At(s, i, tag) && TagOk(tag, 3) && AllWellFormed(inner) && TagOk(end, 4)
    requires At(s, i + |tag|, EncodeAll(inner) + end)
    ensures WellFormed(u) && u.tag == tag && At(s, i, EncodeUnknown(u))
    ensures |EncodeUnknown(u)| == |tag| + |EncodeAll(inner) + end|
  {
    hide At, TagOk, EncodeAll;
    u := UGroup(tag, inner, end);
    AtParts(s, i, tag, EncodeAll(inner) + end);
    assert tag + EncodeAll(inner) + end == tag + (EncodeAll(inner) + end);
  }

  /** One field, of any wire type but the end of a group. */
  lemma {:induction false} TakeField(s: Str, i: nat, tag: Str, wireType: nat, depth: nat) returns (u: Unknown)
    requires SkipEnds(s, i, depth) && At(s, i, tag) && TagOk(tag, wireType) && tag != [] && wireType != 4
    requires SkipBody(s, i + |tag|, wireType, depth).Ok?
    requires var (k, d) := SkipBody(s, i + |tag|, wireType, depth).value;
             Skipped(s, i, depth, k, d) && k <= |s| && (d > 0 ==> SkipEnds(s, k, d))
    ensures WellFormed(u) && u.tag == tag && At(s, i, EncodeUnknown(u))
    ensures Skipped(s, i, depth, i + |EncodeUnknown(u)|, depth)
    decreases |s| - i, 0
  {
    hide SkipFrom, EncodeUnknown, EncodeAll, WellFormed, AllWellFormed, TagOk;
    if wireType == 3 {
      var inner, end := TakeRest(s, i + |tag|, depth + 1);
      u := TakeGroup(s, i, tag, inner, end);
    } else {
      u := TakePlain(s, i, tag, wireType, depth);
    }
  }

  /** The fields up to the end of the innermost open group, and that end. */
  lemma {:induction false} TakeRest(s: Str, i: nat, depth: nat) returns (us: seq<Unknown>, end: Str)
    requires SkipEnds(s, i, depth) && depth > 0
    ensures AllWellFormed(us) && TagOk(end, 4)
    ensures At(s, i, EncodeAll(us) + end)
    ensures Skipped(s, i, depth, i + |EncodeAll(us) + end|, depth - 1)
    decreases |s| - i, 1
  {
    hide SkipFrom, EncodeUnknown, WellFormed, TagOk;
    var tag, wireType := TakeTag(s, i, depth);
    if wireType == 4 {
      us, end := [], tag;
      assert EncodeAll([]) + tag == tag;
    } else {
      var u := TakeField(s, i, tag, wireType, depth);
      FieldNotEmpty(u);
      var more;
      var k := i + |EncodeUnknown(u)|;
      more, end := TakeRest(s, k, depth);
      us := [u] + more;
      AtParts(s, i, EncodeUnknown(u), EncodeAll(more) + end);
      assert EncodeAll(us) + end == EncodeUnknown(u) + (EncodeAll(more) + end);
    }
  }

  lemma FieldNotEmpty(u: Unknown)
    requires WellFormed(u)
    ensures EncodeUnknown(u) != []
  {
    hide Read;
  }

  /** Some well-formed field stands at the start. */
  ghost predicate StartsWithField(s: Str, len: nat) {
    exists u :: WellFormed(u) && At(s, 0, EncodeUnknown(u)) && |EncodeUnknown(u)| == len
  }

  /** Skipping finds its end in the buffer exactly when a well-formed field stands there, and then
      takes that field and nothing more. */
  lemma SkipIff(s: Str, len: nat)
    requires |s| < TWO_63
    ensures SkipFrom(s, 0, 0) == Ok(len) && len <= |s| <==> StartsWithField(s, len)
  {
    hide SkipFrom, EncodeUnknown, WellFormed, TagOk, SkipBody;
    if SkipFrom(s, 0, 0) == Ok(len) && len <= |s| {
      var tag, wireType := TakeTag(s, 0, 0);
      EndNeedsGroup(s, |tag|);
      var u := TakeField(s, 0, tag, wireType, 0);
    }
    if StartsWithField(s, len) {
      var u :| WellFormed(u) && At(s, 0, EncodeUnknown(u)) && |EncodeUnknown(u)| == len;
      SkipUnknown(s, 0, u, 0);
    }
  }

  lemma EndNeedsGroup(s: Str, i: nat)
    requires i <= |s|
    ensures SkipBody(s, i, 4, 0).Err?
  {
  }

  // ----- At the top level of a message -----

  function FieldOf(u: Unknown): int {
    match Read(u.tag)
    case Ok((v, _)) => Int32(v / 8)
    case Err(_) => 0
  }

  ghost predicate UnknownTo(schema: Schema, u: Unknown) {
    WellFormed(u) && FieldOf(u) > 0 && FieldOf(u) !in schema
  }

  lemma FirstTag(u: Unknown, t: Str)
    requires WellFormed(u)
    ensures Read(EncodeUnknown(u) + t) == Read(u.tag) && TagOk(u.tag, WireType(u))
  {
    hide Read, Terminated, EncodeAll;
    var rest := EncodeUnknown(u)[|u.tag|..];
    assert EncodeUnknown(u) == u.tag + rest;
    ReadPrefix(u.tag, rest + t);
    assert EncodeUnknown(u) + t == u.tag + (rest + t);
  }

  lemma FieldUnknown(schema: Schema, u: Unknown, t: Str, off: nat)
    requires UnknownTo(schema, u) && off + |EncodeUnknown(u) + t| < TWO_63
    ensures EncodeUnknown(u) != []
    ensures Field(schema, EncodeUnknown(u) + t, off) == Ok(([], |EncodeUnknown(u)|))
  {
    hide Read, EncodeUnknown, Int32, SkipFrom, Body, WellFormed;
    var s := EncodeUnknown(u) + t;
    FieldNotEmpty(u);
    FirstTag(u, t);
    assert At(s, 0, EncodeUnknown(u));
    SkipUnknown(s, 0, u, 0);
  }

  /** What a message accepts under a field number it does not know: exactly the well-formed fields
      with a positive number. */
  lemma UnknownIff(schema: Schema, s: Str, off: nat)
    requires off + |s| < TWO_63 && (Read(s).Ok? ==> Int32(Read(s).value.0 / 8) !in schema)
    ensures Field(schema, s, off).Ok? <==>
              exists u :: UnknownTo(schema, u) && At(s, 0, EncodeUnknown(u))
  {
    hide Read, EncodeUnknown, Int32, SkipFrom, Body, WellFormed;
    if Field(schema, s, off).Ok? {
      var len := SkipFrom(s, 0, 0).value;
      SkipIff(s, len);
      var u :| WellFormed(u) && At(s, 0, EncodeUnknown(u)) && |EncodeUnknown(u)| == len;
      FirstTag(u, s[len..]);
      assert s == EncodeUnknown(u) + s[len..];
      assert UnknownTo(schema, u);
    }
    if u :| UnknownTo(schema, u) && At(s, 0, EncodeUnknown(u)) {
      var t := s[|EncodeUnknown(u)|..];
      assert s == EncodeUnknown(u) + t;
      FieldUnknown(schema, u, t, off);
    }
  }

  ghost predicate AllUnknownTo(schema: Schema, us: seq<Unknown>) {
    forall i :: 0 <= i < |us| ==> UnknownTo(schema, us[i])
  }

  /** Unknown fields leave no records. */
  lemma {:induction false} ParseUnknown(schema: Schema, us: seq<Unknown>, off: nat)
    requires AllUnknownTo(schema, us) && off + |EncodeAll(us)| < TWO_63
    ensures Parse(schema, EncodeAll(us), off) == Parsed([], None)
  {
    hide Parse, Field, EncodeUnknown, TotalBytes, UnknownTo;
    if us == [] {
      Canonical.ParseEmpty(schema, off);
    } else {
      var first, rest := EncodeUnknown(us[0]), EncodeAll(us[1..]);
      FieldUnknown(schema, us[0], rest, off);
      ParseStep(schema, first + rest, off);
      assert (first + rest)[|first|..] == rest;
      ParseUnknown(schema, us[1..], off + |first|);
    }
  }

  /** Unknown fields between two parts of a message change nothing of what is parsed. */
  lemma ParseSpliced(schema: Schema, a: Str, us: seq<Unknown>, b: Str)
    requires Parse(schema, a, 0).failure == None && AllUnknownTo(schema, us)
    requires |a + EncodeAll(us) + b| < TWO_63
    ensures var (p, q) := (Parse(schema, a + EncodeAll(us) + b, 0), Parse(schema, a + b, 0));
            p.recs == q.recs && (p.failure == None <==> q.failure == None)
  {
    hide Parse, EncodeAll, TotalBytes, AllUnknownTo;
    var u := EncodeAll(us);
    ParseUnknown(schema, us, |a|);
    ParseAppend(schema, a, b, 0);
    ParseAppend(schema, a, u + b, 0);
    ParseAppend(schema, u, b, |a|);
    ParseOffset(schema, b, |a|, |a| + |u|);
    assert a + u + b == a + (u + b);
    assert forall r: seq<Record> :: [] + r == r;
  }
}
