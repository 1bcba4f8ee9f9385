/** The record layer of the generated message code (types/term_query.pb.go, types/doc.pb.go,
    service/index.pb.go): tags, lengths, packed lists, and skipping what a message does not know.
    All messages share it; they differ in which fields they know. */
module Wire {
  import opened GoBase
  import opened Bits
  import opened Varint

  /** What a message accepts for a field: a number, a length-delimited payload, or a list of
      numbers, packed or not. */
  datatype Kind = VarintKind | LenKind | PackedKind

  type Schema = map<int, Kind>

  datatype Record =
    | VarintRec(field: int, v: uint64)
    | LenRec(field: int, payload: Str)
    | PackedRec(field: int, vs: seq<uint64>)

  /** Conversion of a uint64 to int32: the lowest 32 bits, read as two's complement. */
  function Int32(x: nat): int {
    var low := LowBits(x, 32);
    if low >= 0x8000_0000 then low - 0x1_0000_0000 else low
  }

  // ----- Skipping -----

  /** What follows a tag: where it ends and the group depth then. It may end past the buffer. */
  function SkipBody(s: Str, i: nat, wireType: nat, depth: nat): (r: Result<(nat, nat), WireError>)
    requires i <= |s|
    ensures r.Ok? ==> r.value.0 >= i
  {
    match wireType
    case 0 => (match Terminated(s[i..], MAX_BYTES) case Ok(n) => Ok((i + n, depth)) case Err(e) => Err(e))
    case 1 => Ok((i + 8, depth))
    case 2 =>
      (match Read(s[i..])
       case Ok((v, n)) => if ToInt(v) < 0 then Err(InvalidLength) else Ok((i + n + v, depth))
       case Err(e) => Err(e))
    case 3 => Ok((i, depth + 1))
    case 4 => if depth == 0 then Err(UnexpectedEndOfGroup) else Ok((i, depth - 1))
    case 5 => Ok((i + 4, depth))
    case _ => Err(IllegalWireType)
  }

  /** Where the field that starts at i, or the groups it leaves open, ends. A signed 64-bit index
      that overflows is an error. */
  function SkipFrom(s: Str, i: nat, depth: nat): (r: Result<nat, WireError>)
    ensures r.Ok? ==> i < r.value < TWO_63
    decreases |s| - i
  {
    if i >= |s| then Err(UnexpectedEOF)
    else
      match Read(s[i..])
      case Err(e) => Err(e)
      case Ok((wire, n)) =>
        match SkipBody(s, i + n, wire % 8, depth)
        case Err(e) => Err(e)
        case Ok((j, d)) =>
          if j >= TWO_63 then Err(InvalidLength)
          else if d == 0 then Ok(j)
          else SkipFrom(s, j, d)
  }

  // ----- One field -----

  /** A length and how many bytes it takes, if that many bytes follow. The index of its end, counted
      from the start of the buffer, is a signed 64-bit number. */
  function Length(s: Str, off: nat): (r: Result<(nat, nat), WireError>)
    ensures r.Ok? ==> 0 < r.value.1 && r.value.0 + r.value.1 <= |s|
  {
    match Read(s)
    case Err(e) => Err(e)
    case Ok((v, n)) =>
      if ToInt(v) < 0 || off + n + v >= TWO_63 then Err(InvalidLength)
      else if n + v > |s| then Err(UnexpectedEOF)
      else Ok((v, n))
  }

  /** Numbers, as long as fewer than todo bytes are used up. The last one may end past todo: the
      loop checks each byte against the end of the buffer, not of the list. */
  function Numbers(s: Str, todo: nat): (r: Result<(seq<uint64>, nat), WireError>)
    ensures r.Ok? ==> todo <= r.value.1 && (todo <= |s| ==> r.value.1 <= |s|)
    decreases todo
  {
    if todo == 0 then Ok(([], 0))
    else
      match Read(s)
      case Err(e) => Err(e)
      case Ok((v, n)) =>
        if n >= todo then Ok(([v], n))
        else
          match Numbers(s[n..], todo - n)
          case Err(e) => Err(e)
          case Ok((vs, m)) => Ok(([v] + vs, n + m))
  }

  function Body(kind: Kind, field: int, wireType: nat, s: Str, off: nat): (r: Result<(Record, nat), WireError>)
    ensures r.Ok? ==> 0 < r.value.1 <= |s| && PayloadSize(r.value.0) < r.value.1
  {
    if kind.VarintKind? || (kind.PackedKind? && wireType == 0) then
      if wireType != 0 then Err(WrongWireType)
      else match Read(s)
        case Err(e) => Err(e)
        case Ok((v, n)) => Ok((VarintRec(field, v), n))
    else if wireType != 2 then Err(WrongWireType)
    else
      match Length(s, off)
      case Err(e) => Err(e)
      case Ok((len, n)) =>
        if kind.LenKind? then Ok((LenRec(field, s[n..n + len]), n + len))
        else
          match Numbers(s[n..], len)
          case Err(e) => Err(e)
          case Ok((vs, m)) => Ok((PackedRec(field, vs), n + m))
  }

  function PayloadSize(r: Record): nat {
    if r.LenRec? then |r.payload| else 0
  }

  /** The field at the start of s, which lies off bytes into the buffer: its record, none for a
      field the message does not know, and its length. */
  function Field(schema: Schema, s: Str, off: nat): (r: Result<(seq<Record>, nat), WireError>)
    ensures r.Ok? ==> 0 < r.value.1 <= |s| && TotalBytes(r.value.0) <= r.value.1
  {
    match Read(s)
    case Err(e) => Err(e)
    case Ok((wire, n)) =>
      var field, wireType := Int32(wire / 8), wire % 8;
      if wireType == 4 then Err(EndGroup)
      else if field <= 0 then Err(IllegalTag)
      else if field in schema then
        match Body(schema[field], field, wireType, s[n..], off + n)
        case Err(e) => Err(e)
        case Ok((rec, m)) => assert TotalBytes([rec]) == 1 + PayloadSize(rec); Ok(([rec], n + m))
      else
        match SkipFrom(s, 0, 0)
        case Err(e) => Err(e)
        case Ok(m) =>
          if off + m >= TWO_63 then Err(InvalidLength)
          else if m > |s| then Err(UnexpectedEOF)
          else Ok(([], m))
  }

  function TotalBytes(recs: seq<Record>): nat {
    if recs == [] then 0 else 1 + PayloadSize(recs[0]) + TotalBytes(recs[1..])
  }

  // ----- A whole message -----

  /** The records of a message in order, up to its end or the first error. */
  datatype Parsed = Parsed(recs: seq<Record>, failure: Option<WireError>)

  function Parse(schema: Schema, s: Str, off: nat): (p: Parsed)
    ensures TotalBytes(p.recs) <= |s|
    decreases |s|
  {
    if s == [] then Parsed([], None)
    else
      match Field(schema, s, off)
      case Err(e) => Parsed([], Some(e))
      case Ok((recs, n)) =>
        var rest := Parse(schema, s[n..], off + n);
        TotalBytesAppend(recs, rest.recs);
        Parsed(recs + rest.recs, rest.failure)
  }

  lemma {:induction false} TotalBytesAppend(a: seq<Record>, b: seq<Record>)
    ensures TotalBytes(a + b) == TotalBytes(a) + TotalBytes(b)
  {
    if a == [] {
      assert a + b == b;
    } else {
      TotalBytesAppend(a[1..], b);
      assert (a + b)[1..] == a[1..] + b;
    }
  }

  // ----- What was read stays read when more bytes follow -----

  lemma ReadPrefixAt(a: Str, b: Str, i: nat)
    requires i <= |a| && Read(a[i..]).Ok?
    ensures Read((a + b)[i..]) == Read(a[i..])
  {
    ReadPrefix(a[i..], b);
    assert (a + b)[i..] == a[i..] + b;
  }

  lemma SkipBodyPrefix(a: Str, b: Str, i: nat, wireType: nat, depth: nat)
    requires i <= |a| && SkipBody(a, i, wireType, depth).Ok?
    ensures SkipBody(a + b, i, wireType, depth) == SkipBody(a, i, wireType, depth)
  {
    assert (a + b)[i..] == a[i..] + b;
    match wireType
    case 0 => TerminatedPrefix(a[i..], b, MAX_BYTES);
    case 2 => ReadPrefix(a[i..], b);
    case _ =>
  }

  lemma {:induction false} SkipPrefix(a: Str, b: Str, i: nat, depth: nat)
    requires SkipFrom(a, i, depth).Ok?
    ensures SkipFrom(a + b, i, depth) == SkipFrom(a, i, depth)
    decreases |a| - i
  {
    hide Read, SkipBody;
    ReadPrefixAt(a, b, i);
    var (wire, n) := Read(a[i..]).value;
    SkipBodyPrefix(a, b, i + n, wire % 8, depth);
    var (j, d) := SkipBody(a, i + n, wire % 8, depth).value;
    if d != 0 { SkipPrefix(a, b, j, d); }
  }

  lemma {:induction false} NumbersPrefix(a: Str, b: Str, todo: nat)
    requires Numbers(a, todo).Ok?
    ensures Numbers(a + b, todo) == Numbers(a, todo)
    decreases todo
  {
    hide Read;
    if todo > 0 {
      ReadPrefix(a, b);
      var n := Read(a).value.1;
      if n < todo {
        NumbersPrefix(a[n..], b, todo - n);
        assert (a + b)[n..] == a[n..] + b;
      }
    }
  }

  lemma BodyPrefix(kind: Kind, field: int, wireType: nat, a: Str, b: Str, off: nat)
    requires Body(kind, field, wireType, a, off).Ok?
    ensures Body(kind, field, wireType, a + b, off) == Body(kind, field, wireType, a, off)
  {
    hide Read, Numbers;
    if Read(a).Ok? { ReadPrefix(a, b); }
    if !kind.VarintKind? && wireType == 2 {
      var (len, n) := Length(a, off).value;
      assert Length(a + b, off) == Ok((len, n));
      assert (a + b)[n..] == a[n..] + b;
      if kind.LenKind? {
        assert (a + b)[n..n + len] == a[n..n + len];
      } else {
        NumbersPrefix(a[n..], b, len);
      }
    }
  }

  lemma FieldPrefix(schema: Schema, a: Str, b: Str, off: nat)
    requires Field(schema, a, off).Ok?
    ensures Field(schema, a + b, off) == Field(schema, a, off)
  {
    hide Read, Body, SkipFrom, Int32, TotalBytes;
    ReadPrefix(a, b);
    var (wire, n) := Read(a).value;
    var field := Int32(wire / 8);
    if field in schema {
      BodyPrefix(schema[field], field, wire % 8, a[n..], b, off + n);
      assert (a + b)[n..] == a[n..] + b;
    } else {
      SkipPrefix(a, b, 0, 0);
    }
  }

  lemma ParseStep(schema: Schema, s: Str, off: nat)
    requires s != [] && Field(schema, s, off).Ok?
    ensures var (recs, n) := Field(schema, s, off).value;
            var rest := Parse(schema, s[n..], off + n);
            Parse(schema, s, off) == Parsed(recs + rest.recs, rest.failure)
  {
    hide Field, TotalBytes;
  }

  lemma ParsedFirst(schema: Schema, a: Str, off: nat)
    requires a != [] && Parse(schema, a, off).failure == None
    ensures Field(schema, a, off).Ok?
    ensures var (recs, n) := Field(schema, a, off).value;
            0 < n <= |a| && Parse(schema, a[n..], off + n).failure == None
  {
    hide Field, TotalBytes;
  }

  ghost predicate Appends(schema: Schema, a: Str, b: Str, off: nat) {
    var (p, q) := (Parse(schema, a, off), Parse(schema, b, off + |a|));
    Parse(schema, a + b, off) == Parsed(p.recs + q.recs, q.failure)
  }

  lemma AppendsNothing(schema: Schema, b: Str, off: nat)
    ensures Appends(schema, [], b, off)
  {
    hide Field, TotalBytes;
    assert [] + b == b;
    assert Parse(schema, [], off) == Parsed([], None);
  }

  lemma AppendsStep(schema: Schema, a: Str, b: Str, off: nat, recs: seq<Record>, n: nat)
    requires a != [] && Field(schema, a, off) == Ok((recs, n)) && 0 < n <= |a|
    requires Appends(schema, a[n..], b, off + n)
    ensures Appends(schema, a, b, off)
  {
    hide Parse, Field, TotalBytes;
    FieldPrefix(schema, a, b, off);
    ParseStep(schema, a, off);
    ParseStep(schema, a + b, off);
    assert (a + b)[n..] == a[n..] + b;
    var p, q := Parse(schema, a[n..], off + n), Parse(schema, b, off + |a|);
    assert recs + (p.recs + q.recs) == (recs + p.recs) + q.recs;
  }

  /** A message that was read to its end, followed by more bytes: first its records, then those of
      the rest. */
  lemma {:induction false} ParseAppend(schema: Schema, a: Str, b: Str, off: nat)
    requires Parse(schema, a, off).failure == None
    ensures Appends(schema, a, b, off)
    decreases |a|
  {
    hide *;
    if a == [] {
      AppendsNothing(schema, b, off);
    } else {
      ParsedFirst(schema, a, off);
      var (recs, n) := Field(schema, a, off).value;
      ParseAppend(schema, a[n..], b, off + n);
      AppendsStep(schema, a, b, off, recs, n);
    }
  }

  // ----- Where a message lies in its buffer matters only for the kind of error -----

  lemma BodyOffset(kind: Kind, field: int, wireType: nat, s: Str, off: nat, off': nat)
    requires off + |s| < TWO_63 && off' + |s| < TWO_63
    ensures Body(kind, field, wireType, s, off).Ok? <==> Body(kind, field, wireType, s, off').Ok?
    ensures Body(kind, field, wireType, s, off).Ok? ==>
              Body(kind, field, wireType, s, off) == Body(kind, field, wireType, s, off')
  {
    hide Read, Numbers;
    assert Length(s, off).Ok? <==> Length(s, off').Ok?;
  }

  lemma FieldOffset(schema: Schema, s: Str, off: nat, off': nat)
    requires off + |s| < TWO_63 && off' + |s| < TWO_63
    ensures Field(schema, s, off).Ok? <==> Field(schema, s, off').Ok?
    ensures Field(schema, s, off).Ok? ==> Field(schema, s, off) == Field(schema, s, off')
  {
    hide Read, Body, SkipFrom, Int32, TotalBytes;
    if Read(s).Ok? {
      var (wire, n) := Read(s).value;
      var field := Int32(wire / 8);
      if field in schema {
        BodyOffset(schema[field], field, wire % 8, s[n..], off + n, off' + n);
      }
    }
  }

  lemma {:induction false} ParseOffset(schema: Schema, s: Str, off: nat, off': nat)
    requires off + |s| < TWO_63 && off' + |s| < TWO_63
    ensures Parse(schema, s, off).recs == Parse(schema, s, off').recs
    ensures Parse(schema, s, off).failure == None <==> Parse(schema, s, off').failure == None
    decreases |s|
  {
    hide Field, TotalBytes;
    if s != [] {
      FieldOffset(schema, s, off, off');
      if Field(schema, s, off).Ok? {
        ParseStep(schema, s, off);
        ParseStep(schema, s, off');
        hide Parse;
        var n := Field(schema, s, off).value.1;
        ParseOffset(schema, s[n..], off + n, off' + n);
      }
    }
  }

  // ----- Where a packed list ends -----

  lemma {:induction false} TerminatedBytes(s: Str, left: nat)
    requires Terminated(s, left).Ok?
    ensures var n := Terminated(s, left).value;
            s[n - 1] < 128 && forall j :: 0 <= j < n - 1 ==> s[j] >= 128
  {
    if s[0] >= 128 {
      TerminatedBytes(s[1..], left - 1);
      var n := Terminated(s, left).value;
      forall j | 0 <= j < n - 1 ensures s[j] >= 128 {
        assert j > 0 ==> s[j] == s[1..][j - 1];
      }
    }
  }

  /** A packed list ends where its length says exactly when its last byte ends a number; otherwise
      the decoder finishes that number with bytes from behind the list. */
  lemma {:induction false} NumbersWithin(s: Str, todo: nat)
    requires todo <= |s| && Numbers(s, todo).Ok?
    ensures Numbers(s, todo).value.1 == todo <==> todo == 0 || s[todo - 1] < 128
    decreases todo
  {
    if todo > 0 {
      TerminatedBytes(s, MAX_BYTES);
      var n := Read(s).value.1;
      if n < todo {
        NumbersWithin(s[n..], todo - n);
        assert s[n..][todo - n - 1] == s[todo - 1];
      }
    }
  }
}
