/** Printing queries (TermQuery.ToString in types/term_query.go, Keyword.ToString in types/doc.go):
    when the output is balanced, and when it determines what a query finds. */
module QueryPrinter {
  import opened GoBase
  import opened Types
  import IndexState
  import ReverseIndex

  const OPEN: Byte := '(' as int
  const CLOSE: Byte := ')' as int
  const AND: Byte := '&' as int
  const OR: Byte := '|' as int

  // ----- What is printed -----

  function Print(q: TermQuery): Str
    decreases q, 0
  {
    match q.keyword
    case Some(kw) => KeyOf(kw)
    case None => if |q.must| > 0 then PrintNode(q.must, AND) else if |q.should| > 0 then PrintNode(q.should, OR) else []
  }

  /** The last byte, which should be an operator, is replaced by the closing parenthesis. */
  function PrintNode(qs: seq<TermQuery>, op: Byte): Str
    requires |qs| > 0
    decreases qs, 2
  {
    if |qs| == 1 then Print(qs[0])
    else
      var s := [OPEN] + PrintAll(qs, op);
      s[..|s| - 1] + [CLOSE]
  }

  function PrintAll(qs: seq<TermQuery>, op: Byte): Str
    decreases qs, 1
  {
    if qs == [] then []
    else
      var s := Print(qs[0]);
      (if |s| > 0 then s + [op] else []) + PrintAll(qs[1..], op)
  }

  method ToString(q: TermQuery) returns (s: Str)
    ensures s == Print(q)
    decreases q, 0
  {
    if q.keyword.Some? {
      s := KeyOf(q.keyword.value);
    } else if |q.must| > 0 {
      s := NodeToString(q.must, AND);
    } else if |q.should| > 0 {
      s := NodeToString(q.should, OR);
    } else {
      s := [];
    }
  }

  method NodeToString(qs: seq<TermQuery>, op: Byte) returns (s: Str)
    requires |qs| > 0
    ensures s == PrintNode(qs, op)
    decreases qs, 1
  {
    hide Print;
    if |qs| == 1 {
      s := ToString(qs[0]);
      return;
    }
    var sb := [OPEN];
    assert qs[0..] == qs;
    for j := 0 to |qs|
      invariant sb + PrintAll(qs[j..], op) == [OPEN] + PrintAll(qs, op) && |sb| > 0
    {
      assert qs[j..][1..] == qs[j + 1..];
      var e := ToString(qs[j]);
      if |e| > 0 {
        sb := sb + e + [op];
      }
    }
    assert sb == [OPEN] + PrintAll(qs, op);
    s := sb[..|sb| - 1] + [CLOSE];
  }

  // ----- Balance -----

  function Turn(b: Byte): int { if b == '(' as int then 1 else if b == ')' as int then -1 else 0 }

  function Depth(s: Str): int {
    if s == [] then 0 else Depth(s[..|s| - 1]) + Turn(s[|s| - 1])
  }

  /** No prefix closes more than it opens. */
  ghost predicate NeverBelow(s: Str) {
    forall i :: 0 <= i <= |s| ==> Depth(s[..i]) >= 0
  }

  ghost predicate Balanced(s: Str) {
    NeverBelow(s) && Depth(s) == 0
  }

  lemma {:induction false} DepthAppend(a: Str, b: Str)
    ensures Depth(a + b) == Depth(a) + Depth(b)
    decreases |b|
  {
    if b == [] {
      assert a + b == a;
    } else {
      DepthAppend(a, b[..|b| - 1]);
      assert (a + b)[..|a + b| - 1] == a + b[..|b| - 1];
    }
  }

  lemma NeverBelowAppend(a: Str, b: Str)
    requires NeverBelow(a) && Depth(a) >= 0 && NeverBelow(b)
    ensures NeverBelow(a + b)
  {
    hide Depth;
    forall i | 0 <= i <= |a + b| ensures Depth((a + b)[..i]) >= 0 {
      if i <= |a| {
        assert (a + b)[..i] == a[..i];
      } else {
        assert (a + b)[..i] == a + b[..i - |a|];
        DepthAppend(a, b[..i - |a|]);
      }
    }
  }

  predicate NoParentheses(s: Str) {
    '(' as int !in s && ')' as int !in s
  }

  lemma {:induction false} FlatIsBalanced(s: Str)
    requires NoParentheses(s)
    ensures Balanced(s)
    decreases |s|
  {
    if s == [] {
    } else {
      var before := s[..|s| - 1];
      FlatIsBalanced(before);
      assert s[|s| - 1] in s;
      forall i | 0 <= i <= |s| ensures Depth(s[..i]) >= 0 {
        if i < |s| { assert s[..i] == before[..i]; } else { assert s[..i] == s; }
      }
    }
  }

  /** The queries that print nothing. */
  predicate Blank(q: TermQuery)
    decreases q
  {
    match q.keyword
    case Some(kw) => |kw.word| == 0
    case None =>
      if |q.must| > 0 then |q.must| == 1 && Blank(q.must[0])
      else |q.should| > 0 ==> |q.should| == 1 && Blank(q.should[0])
  }

  predicate AllBlank(qs: seq<TermQuery>) {
    forall i :: 0 <= i < |qs| ==> Blank(qs[i])
  }

  /** How many printed nodes have several children, all of which print nothing. */
  function Hollow(q: TermQuery): nat
    decreases q, 0
  {
    match q.keyword
    case Some(_) => 0
    case None => if |q.must| > 0 then HollowNode(q.must) else if |q.should| > 0 then HollowNode(q.should) else 0
  }

  function HollowNode(qs: seq<TermQuery>): nat
    requires |qs| > 0
    decreases qs, 2
  {
    if |qs| == 1 then Hollow(qs[0]) else HollowAll(qs) + if AllBlank(qs) then 1 else 0
  }

  function HollowAll(qs: seq<TermQuery>): nat
    decreases qs, 1
  {
    if qs == [] then 0 else Hollow(qs[0]) + HollowAll(qs[1..])
  }

  /** Every keyword that can be printed satisfies the condition. */
  ghost predicate Keys(q: TermQuery, ok: Str -> bool)
    decreases q
  {
    match q.keyword
    case Some(kw) => ok(KeyOf(kw))
    case None =>
      if |q.must| > 0 then forall i :: 0 <= i < |q.must| ==> Keys(q.must[i], ok)
      else forall i :: 0 <= i < |q.should| ==> Keys(q.should[i], ok)
  }

  ghost predicate AllKeys(qs: seq<TermQuery>, ok: Str -> bool) {
    forall i :: 0 <= i < |qs| ==> Keys(qs[i], ok)
  }

  lemma {:induction false} BlankPrintsNothing(q: TermQuery)
    ensures Print(q) == [] <==> Blank(q)
    decreases q
  {
    if q.keyword == None {
      if |q.must| == 1 {
        BlankPrintsNothing(q.must[0]);
      } else if |q.must| == 0 && |q.should| == 1 {
        BlankPrintsNothing(q.should[0]);
      }
    }
  }

  lemma {:induction false} AllBlankPrintsNothing(qs: seq<TermQuery>, op: Byte)
    ensures PrintAll(qs, op) == [] <==> AllBlank(qs)
    ensures PrintAll(qs, op) != [] ==> PrintAll(qs, op)[|PrintAll(qs, op)| - 1] == op
    decreases |qs|
  {
    hide Print, Blank;
    if qs != [] {
      BlankPrintsNothing(qs[0]);
      AllBlankPrintsNothing(qs[1..], op);
      assert AllBlank(qs) <==> Blank(qs[0]) && AllBlank(qs[1..]);
    }
  }

  /** What every printed text satisfies: it closes once too often for every hollow node, and never
      otherwise. */
  ghost predicate Counted(s: Str, hollow: nat) {
    Depth(s) + hollow == 0 && (hollow == 0 ==> NeverBelow(s))
  }

  lemma CountedAppend(a: Str, b: Str, m: nat, n: nat)
    requires Counted(a, m) && Counted(b, n)
    ensures Counted(a + b, m + n)
  {
    hide Depth, NeverBelow;
    DepthAppend(a, b);
    if m + n == 0 { NeverBelowAppend(a, b); }
  }

  lemma CountedFlat(s: Str)
    requires NoParentheses(s)
    ensures Counted(s, 0)
  {
    hide Depth, NeverBelow;
    FlatIsBalanced(s);
  }

  lemma {:induction false} PrintCounted(q: TermQuery)
    requires Keys(q, NoParentheses)
    ensures Counted(Print(q), Hollow(q))
    decreases q, 0
  {
    hide Counted, PrintNode, HollowNode;
    if q.keyword.Some? {
      CountedFlat(Print(q));
    } else if |q.must| > 0 {
      NodeCounted(q.must, AND);
    } else if |q.should| > 0 {
      NodeCounted(q.should, OR);
    } else {
      CountedFlat([]);
    }
  }

  lemma {:induction false} NodeCounted(qs: seq<TermQuery>, op: Byte)
    requires |qs| > 0 && AllKeys(qs, NoParentheses) && op in {AND, OR}
    ensures Counted(PrintNode(qs, op), HollowNode(qs))
    decreases qs, 2
  {
    hide Counted, Print, Hollow, PrintAll, HollowAll, Keys, AllBlank;
    if |qs| == 1 {
      PrintCounted(qs[0]);
    } else {
      AllCounted(qs, op);
      AllBlankPrintsNothing(qs, op);
      var body := PrintAll(qs, op);
      if body == [] {
        HollowPrintsClose(qs, op);
      } else {
        var inner := body[..|body| - 1];
        assert body == inner + [op];
        assert ([OPEN] + body)[..|[OPEN] + body| - 1] == [OPEN] + inner;
        Enclosed(inner, op, HollowAll(qs));
      }
    }
  }

  /** A hollow node prints a lone closing parenthesis. */
  lemma HollowPrintsClose(qs: seq<TermQuery>, op: Byte)
    requires |qs| > 1 && PrintAll(qs, op) == [] && AllBlank(qs)
    ensures HollowAll(qs) == 0
    ensures PrintNode(qs, op) == [CLOSE] && Counted([CLOSE], 1)
  {
    hide PrintAll, AllBlank;
    AllBlankHollow(qs);
    SingleDepths(op);
    assert [OPEN] + [] == [OPEN] && [OPEN][..0] + [CLOSE] == [CLOSE];
    assert [CLOSE][..0] == [];
  }

  lemma {:induction false} BlankNotHollow(q: TermQuery)
    requires Blank(q)
    ensures Hollow(q) == 0
    decreases q
  {
    if q.keyword == None {
      if |q.must| > 0 {
        BlankNotHollow(q.must[0]);
      } else if |q.should| > 0 {
        BlankNotHollow(q.should[0]);
      }
    }
  }

  lemma {:induction false} AllBlankHollow(qs: seq<TermQuery>)
    requires AllBlank(qs)
    ensures HollowAll(qs) == 0
    decreases |qs|
  {
    hide Hollow, Blank;
    if qs != [] {
      BlankNotHollow(qs[0]);
      AllBlankHollow(qs[1..]);
    }
  }

  lemma Enclosed(inner: Str, op: Byte, hollow: nat)
    requires Counted(inner + [op], hollow) && op in {AND, OR}
    ensures Counted([OPEN] + inner + [CLOSE], hollow)
  {
    hide NeverBelow;
    DepthAppend(inner, [op]);
    DepthAppend([OPEN], inner);
    DepthAppend([OPEN] + inner, [CLOSE]);
    SingleDepths(op);
    if hollow == 0 { EnclosedNeverBelow(inner, op); }
  }

  lemma SingleDepths(op: Byte)
    ensures Depth([OPEN]) == 1 && Depth([CLOSE]) == -1
    ensures op in {AND, OR} ==> Depth([op]) == 0
  {
    assert [OPEN][..0] == [] && [CLOSE][..0] == [] && [op][..0] == [];
  }

  lemma EnclosedNeverBelow(inner: Str, op: Byte)
    requires NeverBelow(inner + [op]) && Depth(inner) == 0
    ensures NeverBelow([OPEN] + inner + [CLOSE])
  {
    hide Depth;
    var s := [OPEN] + inner + [CLOSE];
    SingleDepths(op);
    forall i | 0 <= i <= |s| ensures Depth(s[..i]) >= 0 {
      if i == 0 {
        assert s[..0] == [];
        NoDepth();
      } else if i <= |inner| + 1 {
        assert s[..i] == [OPEN] + (inner + [op])[..i - 1];
        DepthAppend([OPEN], (inner + [op])[..i - 1]);
      } else {
        assert s[..i] == s;
        DepthAppend([OPEN] + inner, [CLOSE]);
        DepthAppend([OPEN], inner);
      }
    }
  }

  lemma NoDepth()
    ensures Depth([]) == 0
  {
  }

  lemma {:induction false} AllCounted(qs: seq<TermQuery>, op: Byte)
    requires AllKeys(qs, NoParentheses) && op in {AND, OR}
    ensures Counted(PrintAll(qs, op), HollowAll(qs))
    decreases qs, 1
  {
    hide Counted, Print, Hollow, Keys;
    if qs == [] {
      CountedFlat([]);
    } else {
      PrintCounted(qs[0]);
      AllCounted(qs[1..], op);
      var s, rest := Print(qs[0]), PrintAll(qs[1..], op);
      CountedFlat([op]);
      CountedAppend(s, [op], Hollow(qs[0]), 0);
      if |s| > 0 {
        CountedAppend(s + [op], rest, Hollow(qs[0]), HollowAll(qs[1..]));
      } else {
        CountedAppend(s, rest, Hollow(qs[0]), HollowAll(qs[1..]));
        assert [] + rest == rest;
      }
    }
  }

  /** For keywords without parentheses, the output is balanced exactly when no printed node has
      several children that all print nothing. */
  lemma BalancedIff(q: TermQuery)
    requires Keys(q, NoParentheses)
    ensures Balanced(Print(q)) <==> Hollow(q) == 0
  {
    hide Print, Hollow, Depth, NeverBelow, Keys;
    PrintCounted(q);
  }

  // ----- What the output determines -----

  /** What a text in parentheses with & or | between its parts says. A query printed is one, up to nodes
      with one child. */
  datatype Shape =
    | Leaf(key: Str)
    | Node(op: Byte, children: seq<Shape>)

  /** Every printed subtree prints something, and keywords avoid the printer's own bytes. */
  ghost predicate Plain(q: TermQuery)
    decreases q
  {
    match q.keyword
    case Some(kw) => PlainKey(KeyOf(kw))
    case None =>
      if |q.must| > 0 then forall i :: 0 <= i < |q.must| ==> Plain(q.must[i])
      else |q.should| > 0 && forall i :: 0 <= i < |q.should| ==> Plain(q.should[i])
  }

  ghost predicate AllPlain(qs: seq<TermQuery>) {
    forall i :: 0 <= i < |qs| ==> Plain(qs[i])
  }

  ghost predicate PlainKey(key: Str) {
    |key| > 0 && forall i :: 0 <= i < |key| ==> !Special(key[i])
  }

  predicate Special(b: Byte) { b == '(' as int || b == ')' as int || b == '&' as int || b == '|' as int }

  function Collapse(q: TermQuery): Shape
    decreases q, 0
  {
    match q.keyword
    case Some(kw) => Leaf(KeyOf(kw))
    case None =>
      if |q.must| > 0 then CollapseNode(q.must, AND)
      else if |q.should| > 0 then CollapseNode(q.should, OR)
      else Node(OR, [])
  }

  function CollapseNode(qs: seq<TermQuery>, op: Byte): Shape
    requires |qs| > 0
    decreases qs, 2
  {
    if |qs| == 1 then Collapse(qs[0]) else Node(op, CollapseAll(qs))
  }

  function CollapseAll(qs: seq<TermQuery>): (r: seq<Shape>)
    ensures |r| == |qs|
    ensures forall i :: 0 <= i < |qs| ==> r[i] == Collapse(qs[i])
    decreases qs, 1
  {
    if qs == [] then [] else [Collapse(qs[0])] + CollapseAll(qs[1..])
  }

  ghost predicate GoodShape(a: Shape)
    decreases a
  {
    match a
    case Leaf(key) => PlainKey(key)
    case Node(op, children) =>
      (op == '&' as int || op == '|' as int) && |children| > 1 &&
      forall i :: 0 <= i < |children| ==> GoodShape(children[i])
  }

  ghost predicate GoodShapes(cs: seq<Shape>) {
    forall i :: 0 <= i < |cs| ==> GoodShape(cs[i])
  }

  function Show(a: Shape): Str
    decreases a, 0
  {
    match a
    case Leaf(key) => key
    case Node(op, children) => ['(' as int] + ShowAll(children, op)
  }

  /** The children with the operator between them, and the closing parenthesis. */
  function ShowAll(cs: seq<Shape>, op: Byte): Str
    decreases cs, 1
  {
    if cs == [] then [')' as int]
    else if |cs| == 1 then Show(cs[0]) + [')' as int]
    else Show(cs[0]) + [op] + ShowAll(cs[1..], op)
  }

  lemma {:induction false} PrintShows(q: TermQuery)
    requires Plain(q)
    ensures GoodShape(Collapse(q)) && Print(q) == Show(Collapse(q)) && |Print(q)| > 0
    decreases q, 0
  {
    hide PrintNode, CollapseNode, KeyOf, Show;
    if q.keyword.Some? {
      ShowLeaf(Print(q));
    } else if |q.must| > 0 {
      NodeShows(q.must, AND);
    } else {
      NodeShows(q.should, OR);
    }
  }

  lemma ShowLeaf(key: Str)
    ensures Show(Leaf(key)) == key
  {
  }

  lemma {:induction false} NodeShows(qs: seq<TermQuery>, op: Byte)
    requires |qs| > 0 && AllPlain(qs) && op in {AND, OR}
    ensures GoodShape(CollapseNode(qs, op))
    ensures PrintNode(qs, op) == Show(CollapseNode(qs, op)) && |PrintNode(qs, op)| > 0
    decreases qs, 2
  {
    hide Print, PrintAll, Collapse, ShowAll, Plain;
    if |qs| == 1 {
      PrintShows(qs[0]);
    } else {
      AllShow(qs, op);
      var body := PrintAll(qs, op);
      assert ([OPEN] + body)[..|[OPEN] + body| - 1] == [OPEN] + body[..|body| - 1];
      assert [OPEN] + body[..|body| - 1] + [CLOSE] == [OPEN] + (body[..|body| - 1] + [CLOSE]);
      assert GoodShape(CollapseNode(qs, op));
    }
  }

  lemma {:induction false} AllShow(qs: seq<TermQuery>, op: Byte)
    requires |qs| > 0 && AllPlain(qs)
    ensures GoodShapes(CollapseAll(qs))
    ensures |PrintAll(qs, op)| > 0
    ensures ShowAll(CollapseAll(qs), op) == PrintAll(qs, op)[..|PrintAll(qs, op)| - 1] + [CLOSE]
    decreases qs, 1
  {
    hide Print, Collapse, GoodShape, Plain, Show;
    PrintShows(qs[0]);
    var first, rest := Print(qs[0]), PrintAll(qs[1..], op);
    if |qs| == 1 {
      NothingPrinted(qs[1..], op);
      assert (first + [op] + [])[..|first|] == first;
      assert CollapseAll(qs) == [Collapse(qs[0])];
    } else {
      AllShow(qs[1..], op);
      assert CollapseAll(qs)[1..] == CollapseAll(qs[1..]);
      var all := first + [op] + rest;
      assert all[..|all| - 1] == first + [op] + rest[..|rest| - 1];
      assert first + [op] + (rest[..|rest| - 1] + [CLOSE]) == first + [op] + rest[..|rest| - 1] + [CLOSE];
      forall i | 0 <= i < |qs| ensures GoodShape(CollapseAll(qs)[i]) {
        if i > 0 { assert CollapseAll(qs)[i] == CollapseAll(qs[1..])[i - 1]; }
      }
    }
  }

  lemma NothingPrinted(qs: seq<TermQuery>, op: Byte)
    requires qs == []
    ensures PrintAll(qs, op) == []
  {
  }

  /** What may follow a printed subtree: nothing, an operator or a closing parenthesis. */
  predicate Ends(x: Str) {
    |x| > 0 ==> Special(x[0]) && x[0] != OPEN
  }

  lemma KeyUnique(a: Str, b: Str, x: Str, y: Str)
    requires PlainKey(a) && PlainKey(b) && Ends(x) && Ends(y) && a + x == b + y
    ensures a == b && x == y
  {
    hide Special;
    var s := a + x;
    assert forall i :: 0 <= i < |a| ==> s[i] == a[i];
    assert forall i :: 0 <= i < |b| ==> s[i] == b[i];
    assert |a| < |s| ==> s[|a|] == x[0];
    assert |b| < |s| ==> s[|b|] == y[0];
    assert |a| == |b|;
    assert a == s[..|a|] == b;
    assert x == s[|a|..] == y;
  }

  /** A printed subtree is recovered from its output, whatever follows. */
  lemma {:induction false} ShowUnique(a: Shape, b: Shape, x: Str, y: Str)
    requires GoodShape(a) && GoodShape(b) && Ends(x) && Ends(y) && Show(a) + x == Show(b) + y
    ensures a == b && x == y
    decreases a, 0
  {
    hide ShowAll, PlainKey;
    StartsOf(a, x);
    StartsOf(b, y);
    match (a, b)
    case (Leaf(k), Leaf(l)) => KeyUnique(k, l, x, y);
    case (Node(op, cs), Node(op', ds)) =>
      assert (Show(a) + x)[1..] == ShowAll(cs, op) + x && (Show(b) + y)[1..] == ShowAll(ds, op') + y;
      ShowAllUnique(cs, op, ds, op', x, y);
    case _ =>
  }

  lemma StartsOf(a: Shape, x: Str)
    requires GoodShape(a)
    ensures |Show(a)| > 0 && (Show(a) + x)[0] == Show(a)[0]
    ensures Show(a)[0] == OPEN <==> a.Node?
    ensures Special(Show(a)[0]) ==> a.Node?
  {
    hide ShowAll;
  }

  lemma {:induction false} ShowAllUnique(cs: seq<Shape>, op: Byte, ds: seq<Shape>, op': Byte, x: Str, y: Str)
    requires |cs| > 0 && |ds| > 0 && GoodShapes(cs) && GoodShapes(ds) && op in {AND, OR} && op' in {AND, OR}
    requires Ends(x) && Ends(y) && ShowAll(cs, op) + x == ShowAll(ds, op') + y
    ensures cs == ds && x == y && (|cs| > 1 ==> op == op')
    decreases cs, 1
  {
    hide Show, GoodShape, ShowAll, AfterFirst, Ends;
    FirstSplit(cs, op, x);
    FirstSplit(ds, op', y);
    ShowUnique(cs[0], ds[0], AfterFirst(cs, op) + x, AfterFirst(ds, op') + y);
    RestUnique(cs, op, ds, op', x, y);
    assert cs == [cs[0]] + cs[1..] && ds == [ds[0]] + ds[1..];
    if |cs| > 1 {
      ShowAllUnique(cs[1..], op, ds[1..], op', x, y);
    }
  }

  lemma RestUnique(cs: seq<Shape>, op: Byte, ds: seq<Shape>, op': Byte, x: Str, y: Str)
    requires |cs| > 0 && |ds| > 0 && op in {AND, OR} && op' in {AND, OR}
    requires AfterFirst(cs, op) + x == AfterFirst(ds, op') + y
    ensures |cs| == 1 <==> |ds| == 1
    ensures |cs| == 1 ==> x == y
    ensures |cs| > 1 && |ds| > 1 ==> op == op' && ShowAll(cs[1..], op) + x == ShowAll(ds[1..], op') + y
  {
    hide ShowAll, AfterFirst;
    AfterFirstParts(cs, op, x);
    AfterFirstParts(ds, op', y);
  }

  lemma AfterFirstParts(cs: seq<Shape>, op: Byte, x: Str)
    requires |cs| > 0
    ensures var u := AfterFirst(cs, op) + x;
            && |u| > 0 && u[0] == (if |cs| == 1 then CLOSE else op)
            && u[1..] == if |cs| == 1 then x else ShowAll(cs[1..], op) + x
  {
    hide ShowAll;
    if |cs| == 1 {
      assert ([CLOSE] + x)[1..] == x;
    } else {
      var rest := ShowAll(cs[1..], op);
      assert ([op] + rest + x)[1..] == rest + x;
    }
  }

  function AfterFirst(cs: seq<Shape>, op: Byte): Str
    requires |cs| > 0
  {
    if |cs| == 1 then [CLOSE] else [op] + ShowAll(cs[1..], op)
  }

  lemma FirstSplit(cs: seq<Shape>, op: Byte, x: Str)
    requires |cs| > 0 && op in {AND, OR}
    ensures ShowAll(cs, op) + x == Show(cs[0]) + (AfterFirst(cs, op) + x)
    ensures Ends(AfterFirst(cs, op) + x)
  {
    hide Show;
  }

  /** Equal output means equal trees up to nodes with one child. */
  lemma PrintUnambiguous(q: TermQuery, q': TermQuery)
    requires Plain(q) && Plain(q') && Print(q) == Print(q')
    ensures Collapse(q) == Collapse(q')
  {
    hide Print, Show, Collapse, Plain, GoodShape;
    PrintShows(q);
    PrintShows(q');
    ShowUnique(Collapse(q), Collapse(q'), [], []);
  }

  // ----- What the output says -----

  /** The formula read off a text: & between parts means all of them, | means some. */
  ghost predicate ShapeMatches(d: Document, a: Shape)
    decreases a
  {
    match a
    case Leaf(key) => HasPostingKey(d, key)
    case Node(op, children) =>
      if op == '&' as int then forall j :: 0 <= j < |children| ==> ShapeMatches(d, children[j])
      else exists j :: 0 <= j < |children| && ShapeMatches(d, children[j])
  }

  lemma {:induction false} MatchesShape(d: Document, q: TermQuery)
    ensures Matches(d, q) <==> ShapeMatches(d, Collapse(q))
    decreases q
  {
    hide HasPostingKey, KeyOf;
    if q.keyword == None {
      forall j | 0 <= j < |q.must| ensures Matches(d, q.must[j]) <==> ShapeMatches(d, Collapse(q.must[j])) {
        MatchesShape(d, q.must[j]);
      }
      forall j | 0 <= j < |q.should| ensures Matches(d, q.should[j]) <==> ShapeMatches(d, Collapse(q.should[j])) {
        MatchesShape(d, q.should[j]);
      }
    }
  }

  /** The output of a plain query can be read as a formula in one way, and read so it says which documents
      the query matches. */
  lemma PrintSays(q: TermQuery)
    requires Plain(q)
    ensures exists a :: GoodShape(a) && Show(a) == Print(q)
    ensures forall a, d :: GoodShape(a) && Show(a) == Print(q) ==> (ShapeMatches(d, a) <==> Matches(d, q))
  {
    hide Print, Show, Collapse, Plain, GoodShape, Matches, ShapeMatches;
    PrintShows(q);
    forall a, d | GoodShape(a) && Show(a) == Print(q) ensures ShapeMatches(d, a) <==> Matches(d, q) {
      ShowUnique(a, Collapse(q), [], []);
      MatchesShape(d, q);
    }
  }

  /** For two parts: (a&b) if both are needed, (a|b) if one is enough. */
  lemma PrintPair(a: TermQuery, b: TermQuery)
    requires Print(a) != [] && Print(b) != []
    ensures Print(TermQuery(None, [a, b], [])) == ['(' as int] + Print(a) + ['&' as int] + Print(b) + [')' as int]
    ensures Print(TermQuery(None, [], [a, b])) == ['(' as int] + Print(a) + ['|' as int] + Print(b) + [')' as int]
  {
    PairNode(a, b, AND);
    PairNode(a, b, OR);
  }

  lemma PairNode(a: TermQuery, b: TermQuery, op: Byte)
    requires Print(a) != [] && Print(b) != []
    ensures PrintNode([a, b], op) == [OPEN] + Print(a) + [op] + Print(b) + [CLOSE]
  {
    hide Print;
    assert [a, b][1..] == [b] && [b][1..] == [];
    assert PrintAll([b], op) == Print(b) + [op] + PrintAll([], op) == Print(b) + [op];
    assert PrintAll([a, b], op) == Print(a) + [op] + (Print(b) + [op]);
    var s := [OPEN] + PrintAll([a, b], op);
    assert s[..|s| - 1] == [OPEN] + Print(a) + [op] + Print(b);
  }

  /** Queries that print the same have the same answers, in every index and under all flags. */
  lemma SameOutputSameAnswer(q: TermQuery, q': TermQuery, forward: IndexState.Store, f: ReverseIndex.Flags,
                             answer: seq<Document>)
    requires Plain(q) && Plain(q') && Print(q) == Print(q')
    ensures IndexState.IsAnswer(answer, forward, q, f) <==> IndexState.IsAnswer(answer, forward, q', f)
  {
    hide Print, Collapse, Plain, Matches, ShapeMatches;
    PrintUnambiguous(q, q');
    forall d ensures Matches(d, q) <==> Matches(d, q') {
      MatchesShape(d, q);
      MatchesShape(d, q');
    }
  }
}
