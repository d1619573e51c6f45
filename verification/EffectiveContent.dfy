// The text a container node stands for: the nested definition, and the flattened,
// key-ordered query that answers it for many nodes at once.
module EffectiveContent {
  import opened Text
  import opened Decimal

  const SEPARATOR: string := "\n\n"
  const MAX_DEPTH: nat := 40

  /** int4 positions, serial ids, and timestamps written as the twenty digits of
      YYYYMMDDHHMMSS and microseconds. */
  type Position = p: int | -0x8000_0000 <= p < 0x8000_0000
  type Id = i: nat | i < 0x8000_0000
  type Stamp = t: nat | t < 100000000000000000000

  /** A document as both sides read it. `summary` is the stored effective content. Children
      are listed in document order, which their columns make unique: see InDocumentOrder. */
  datatype Node = Node(
    id: Id,
    position: Option<Position>,
    created: Stamp,
    content: Option<string>,
    summary: Option<string>,
    children: seq<Node>)

  // ----- sibling order ------------------------------------------------------------------------

  /** position ASC NULLS LAST, created_at ASC, id ASC */
  predicate Before(a: Node, b: Node) {
    if a.position != b.position then
      a.position.Some? && (b.position.None? || a.position.value < b.position.value)
    else if a.created != b.created then a.created < b.created
    else a.id < b.id
  }

  function Coalesce(position: Option<Position>): Position {
    if position.Some? then position.value else 0
  }

  /** The text key of one level: whether there is a position, the position moved clear of
      the negatives, the timestamp, and the id, each in a fixed width. */
  function Key(n: Node): string
  {
    (if n.position.None? then "1" else "0") + PositionKey(n)
  }

  function PositionKey(n: Node): string
  {
    LeftPad(Spell(Coalesce(n.position) + 0x8000_0000), 20) + ("|" + StampKey(n))
  }

  function StampKey(n: Node): string {
    Fixed(n.created, 20) + ("|" + LeftPad(Spell(n.id), 12))
  }

  lemma Widths()
    ensures Pow10(12) == 1000000000000 && Pow10(20) == 100000000000000000000
  {
    assert Pow10(4) == 10000;
    assert Pow10(8) == 10000 * Pow10(4);
    assert Pow10(12) == 10000 * Pow10(8);
    assert Pow10(16) == 10000 * Pow10(12);
    assert Pow10(20) == 10000 * Pow10(16);
  }

  lemma StampKeyOrder(a: Node, b: Node)
    ensures Less("|" + StampKey(a), "|" + StampKey(b))
       <==> a.created < b.created || (a.created == b.created && a.id < b.id)
    ensures StampKey(a) == StampKey(b) <==> a.created == b.created && a.id == b.id
  {
    Widths();
    LeftPadIsFixed(a.id, 12);
    LeftPadIsFixed(b.id, 12);
    var ia, ib := Fixed(a.id, 12), Fixed(b.id, 12);
    FixedOrder(a.id, b.id, 12);
    FixedOrder(a.created, b.created, 20);
    AfterBar(ia, ib);
    FieldSplit(Fixed(a.created, 20), "|" + ia, Fixed(b.created, 20), "|" + ib);
    AfterBar(StampKey(a), StampKey(b));
  }

  lemma PositionKeyOrder(a: Node, b: Node)
    ensures var pa, pb := Coalesce(a.position), Coalesce(b.position);
            && (Less(PositionKey(a), PositionKey(b))
                <==> pa < pb || (pa == pb && Less("|" + StampKey(a), "|" + StampKey(b))))
            && (PositionKey(a) == PositionKey(b) <==> pa == pb && StampKey(a) == StampKey(b))
  {
    Widths();
    var pa, pb := Coalesce(a.position) + 0x8000_0000, Coalesce(b.position) + 0x8000_0000;
    LeftPadIsFixed(pa, 20);
    LeftPadIsFixed(pb, 20);
    FixedOrder(pa, pb, 20);
    AfterBar(StampKey(a), StampKey(b));
    FieldSplit(Fixed(pa, 20), "|" + StampKey(a), Fixed(pb, 20), "|" + StampKey(b));
  }

  /** The padded key compares exactly as the ordering contract does, and equal keys are
      equal in every column of it. */
  lemma {:induction false} KeyOrder(a: Node, b: Node)
    ensures Less(Key(a), Key(b)) <==> Before(a, b)
    ensures Key(a) == Key(b) ==> a.position == b.position && a.created == b.created && a.id == b.id
  {
    var na, nb := if a.position.None? then "1" else "0", if b.position.None? then "1" else "0";
    StampKeyOrder(a, b);
    PositionKeyOrder(a, b);
    FieldSplit(na, PositionKey(a), nb, PositionKey(b));
    assert Less("0", "1") && !Less("1", "0") && !Less("0", "0") && !Less("1", "1");
  }

  lemma AfterBar(a: string, b: string)
    ensures Less("|" + a, "|" + b) <==> Less(a, b)
    ensures "|" + a == "|" + b <==> a == b
  {
    FieldSplit("|", a, "|", b);
    LessIrreflexive("|");
  }

  lemma FieldSplit(a: string, b: string, c: string, d: string)
    requires |a| == |c|
    ensures Less(a + b, c + d) <==> Less(a, c) || (a == c && Less(b, d))
    ensures a + b == c + d <==> a == c && b == d
  {
    LessByField(a, b, c, d);
    assert (a + b)[..|a|] == a && (c + d)[..|c|] == c;
    assert (a + b)[|a|..] == b && (c + d)[|c|..] == d;
  }

  /** Siblings stand in the order of the contract, at every level. */
  predicate InDocumentOrder(n: Node) {
    && (forall i :: 0 <= i < |n.children| ==> InDocumentOrder(n.children[i]))
    && (forall i, j :: 0 <= i < j < |n.children| ==> Before(n.children[i], n.children[j]))
  }

  // ----- the nested definition ------------------------------------------------------------------

  predicate Holds(text: Option<string>) {
    text.Some? && text.value != ""
  }

  /** A node's own content when it has any; its stored summary when it has one; otherwise its
      children's effective texts that are not blank, joined in order. */
  function EffectiveText(n: Node): string
    decreases n, 1
  {
    if Holds(n.content) then n.content.value
    else if Holds(n.summary) then n.summary.value
    else JoinWith(SEPARATOR, NonBlank(EffectiveTexts(n.children)))
  }

  function EffectiveTexts(ns: seq<Node>): seq<string>
    decreases ns, 0
  {
    if ns == [] then [] else [EffectiveText(ns[0])] + EffectiveTexts(ns[1..])
  }

  /** [part for part in parts if part.strip()] */
  function NonBlank(parts: seq<string>): seq<string> {
    if parts == [] then []
    else (if Blank(parts[0]) then [] else [parts[0]]) + NonBlank(parts[1..])
  }

  /** What a node stands for, telling no text apart from empty text. */
  function StandsFor(n: Node): Option<string> {
    if Blank(EffectiveText(n)) then None else Some(EffectiveText(n))
  }

  // ----- the recursive query ----------------------------------------------------------------------

  /** A row of the walk: a node, its depth under the root asked about, and its sort key. */
  datatype Row = Row(node: Node, depth: nat, ord: seq<string>)

  /** The node carries text, and the walk does not go past it. */
  predicate Bears(n: Node) {
    n.content.Some? || n.summary.Some?
  }

  /** coalesce(content, summary_text) */
  function Body(n: Node): string
    requires Bears(n)
  {
    if n.content.Some? then n.content.value else n.summary.value
  }

  function ChildRows(ns: seq<Node>, depth: nat, ord: seq<string>): seq<Row> {
    if ns == [] then [] else [Row(ns[0], depth, ord + [Key(ns[0])])] + ChildRows(ns[1..], depth, ord)
  }

  /** The recursive term for one row. */
  function Successors(r: Row): seq<Row> {
    if Bears(r.node) || r.depth >= MAX_DEPTH then [] else ChildRows(r.node.children, r.depth + 1, r.ord)
  }

  function NextLevel(level: seq<Row>): seq<Row> {
    if level == [] then [] else Successors(level[0]) + NextLevel(level[1..])
  }

  /** Every row the recursion produces from a level on. The depth test stops it after
      MAX_DEPTH steps from the root, whatever the rows. */
  function WalkRows(level: seq<Row>, steps: nat): seq<Row>
    decreases steps
  {
    if steps == 0 then level else level + WalkRows(NextLevel(level), steps - 1)
  }

  function IfBearing(r: Row): seq<Row> {
    if Bears(r.node) then [r] else []
  }

  function Bearing(rows: seq<Row>): seq<Row> {
    if rows == [] then [] else IfBearing(rows[0]) + Bearing(rows[1..])
  }

  /** Arrays of keys, compared element by element, a shorter prefix first. */
  predicate OrdLess(a: seq<string>, b: seq<string>) {
    b != [] && (a == [] || Less(a[0], b[0]) || (a[0] == b[0] && OrdLess(a[1..], b[1..])))
  }

  /** What ORDER BY ord promises of an answer. */
  predicate Sorted(rows: seq<Row>) {
    forall i, j :: 0 <= i < j < |rows| ==> !OrdLess(rows[j].ord, rows[i].ord)
  }

  /** An answer to the query for one root: its text-bearing rows, in any order the sort key
      allows. */
  ghost predicate Answers(rows: seq<Row>, root: Node) {
    && multiset(rows) == multiset(Bearing(WalkRows([Row(root, 0, [])], MAX_DEPTH)))
    && Sorted(rows)
  }

  // ----- the answer is the frontier in document order -----------------------------------------------

  /** The text-bearing nodes nearest the root, in document order. */
  function Frontier(n: Node, depth: nat, ord: seq<string>): seq<Row>
    decreases n, 1
  {
    if Bears(n) then [Row(n, depth, ord)]
    else if depth >= MAX_DEPTH then []
    else FrontierAll(n.children, depth + 1, ord)
  }

  function FrontierAll(ns: seq<Node>, depth: nat, ord: seq<string>): seq<Row>
    decreases ns, 0
  {
    if ns == [] then []
    else Frontier(ns[0], depth, ord + [Key(ns[0])]) + FrontierAll(ns[1..], depth, ord)
  }

  function FrontierOfRow(r: Row): seq<Row> {
    Frontier(r.node, r.depth, r.ord)
  }

  function FrontierOfRows(rows: seq<Row>): seq<Row> {
    if rows == [] then [] else FrontierOfRow(rows[0]) + FrontierOfRows(rows[1..])
  }

  lemma {:induction false} BearingAppend(a: seq<Row>, b: seq<Row>)
    ensures Bearing(a + b) == Bearing(a) + Bearing(b)
  {
    if a == [] {
      assert a + b == b;
    } else {
      BearingAppend(a[1..], b);
      assert (a + b)[1..] == a[1..] + b && (a + b)[0] == a[0];
      Associate(IfBearing(a[0]), Bearing(a[1..]), Bearing(b));
    }
  }

  lemma {:induction false} FrontierOfRowsAppend(a: seq<Row>, b: seq<Row>)
    ensures FrontierOfRows(a + b) == FrontierOfRows(a) + FrontierOfRows(b)
  {
    if a == [] {
      assert a + b == b;
    } else {
      FrontierOfRowsAppend(a[1..], b);
      assert (a + b)[1..] == a[1..] + b && (a + b)[0] == a[0];
      Associate(FrontierOfRow(a[0]), FrontierOfRows(a[1..]), FrontierOfRows(b));
    }
  }

  lemma {:induction false} FrontierOfChildren(ns: seq<Node>, depth: nat, ord: seq<string>)
    ensures FrontierOfRows(ChildRows(ns, depth, ord)) == FrontierAll(ns, depth, ord)
  {
    if ns != [] {
      FrontierOfChildren(ns[1..], depth, ord);
      var rest := ChildRows(ns[1..], depth, ord);
      assert ([Row(ns[0], depth, ord + [Key(ns[0])])] + rest)[1..] == rest;
    }
  }

  lemma RowSplit(r: Row)
    ensures FrontierOfRow(r) == IfBearing(r) + FrontierOfRows(Successors(r))
  {
    var rest := FrontierOfRows(Successors(r));
    if Bears(r.node) {
      assert rest == [] && FrontierOfRow(r) == [r];
    } else {
      FrontierOfChildren(r.node.children, r.depth + 1, r.ord);
      assert [] + rest == rest;
    }
  }

  /** One level deeper, what the rows bore and what their successors lead to are together
      what the rows led to. */
  lemma {:induction false} LevelSplit(level: seq<Row>)
    ensures multiset(Bearing(level)) + multiset(FrontierOfRows(NextLevel(level))) == multiset(FrontierOfRows(level))
  {
    if level != [] {
      var r, rest := level[0], level[1..];
      LevelSplit(rest);
      FrontierOfRowsAppend(Successors(r), NextLevel(rest));
      RowSplit(r);
      assert Bearing(level) == IfBearing(r) + Bearing(rest);
      assert FrontierOfRows(level) == FrontierOfRow(r) + FrontierOfRows(rest);
    }
  }

  predicate AtDepth(level: seq<Row>, depth: nat) {
    forall i :: 0 <= i < |level| ==> level[i].depth == depth
  }

  lemma {:induction false} ChildRowsDepth(ns: seq<Node>, depth: nat, ord: seq<string>)
    ensures AtDepth(ChildRows(ns, depth, ord), depth)
  {
    if ns != [] { ChildRowsDepth(ns[1..], depth, ord); }
  }

  lemma SuccessorsDepth(r: Row)
    ensures AtDepth(Successors(r), r.depth + 1)
    ensures r.depth >= MAX_DEPTH ==> Successors(r) == []
  {
    ChildRowsDepth(r.node.children, r.depth + 1, r.ord);
  }

  lemma {:induction false} NextLevelDepth(level: seq<Row>, depth: nat)
    requires AtDepth(level, depth)
    ensures AtDepth(NextLevel(level), depth + 1)
    ensures depth >= MAX_DEPTH ==> NextLevel(level) == []
  {
    if level != [] {
      SuccessorsDepth(level[0]);
      NextLevelDepth(level[1..], depth);
    }
  }

  ghost predicate SameRows(a: seq<Row>, b: seq<Row>) {
    multiset(a) == multiset(b)
  }

  lemma LevelJoins(level: seq<Row>, rest: seq<Row>)
    requires SameRows(Bearing(rest), FrontierOfRows(NextLevel(level)))
    ensures SameRows(Bearing(level + rest), FrontierOfRows(level))
  {
    LevelSplit(level);
    BearingAppend(level, rest);
  }

  lemma LastLevel(level: seq<Row>, steps: nat)
    requires AtDepth(level, MAX_DEPTH) && steps == 0
    ensures SameRows(Bearing(WalkRows(level, steps)), FrontierOfRows(level))
  {
    NextLevelDepth(level, MAX_DEPTH);
    LevelJoins(level, []);
    assert level + [] == level;
  }

  lemma EarlierLevel(level: seq<Row>, steps: nat)
    requires steps > 0
    requires SameRows(Bearing(WalkRows(NextLevel(level), steps - 1)), FrontierOfRows(NextLevel(level)))
    ensures SameRows(Bearing(WalkRows(level, steps)), FrontierOfRows(level))
  {
    LevelJoins(level, WalkRows(NextLevel(level), steps - 1));
  }

  /** Level by level or depth first, the same rows come out. */
  lemma {:induction false} WalkIsFrontier(level: seq<Row>, steps: nat, depth: nat)
    requires depth + steps == MAX_DEPTH && AtDepth(level, depth)
    ensures SameRows(Bearing(WalkRows(level, steps)), FrontierOfRows(level))
    decreases steps
  {
    if steps == 0 {
      LastLevel(level, steps);
    } else {
      NextLevelDepth(level, depth);
      WalkIsFrontier(NextLevel(level), steps - 1, depth + 1);
      EarlierLevel(level, steps);
    }
  }

  lemma {:induction false} OrdPrefix(p: seq<string>, a: seq<string>, b: seq<string>)
    ensures OrdLess(p + a, p + b) <==> OrdLess(a, b)
  {
    if p == [] {
      assert p + a == a && p + b == b;
    } else {
      OrdPrefix(p[1..], a, b);
      LessIrreflexive(p[0]);
      assert (p + a)[1..] == p[1..] + a && (p + b)[1..] == p[1..] + b;
    }
  }

  predicate Below(r: Row, ord: seq<string>) {
    ord <= r.ord
  }

  /** The row lies under one of these siblings. */
  predicate UnderSome(r: Row, ns: seq<Node>, ord: seq<string>) {
    ns != [] && (Below(r, ord + [Key(ns[0])]) || UnderSome(r, ns[1..], ord))
  }

  lemma {:induction false} UnderWhich(r: Row, ns: seq<Node>, ord: seq<string>) returns (k: nat)
    requires UnderSome(r, ns, ord)
    ensures k < |ns| && Below(r, ord + [Key(ns[k])])
  {
    if Below(r, ord + [Key(ns[0])]) {
      k := 0;
    } else {
      k := UnderWhich(r, ns[1..], ord);
      k := k + 1;
    }
  }

  lemma {:induction false} FrontierBelow(n: Node, depth: nat, ord: seq<string>)
    ensures forall r :: r in Frontier(n, depth, ord) ==> Below(r, ord)
    decreases n, 1
  {
    if !Bears(n) && depth < MAX_DEPTH { FrontierAllBelow(n.children, depth + 1, ord); }
  }

  lemma {:induction false} FrontierAllBelow(ns: seq<Node>, depth: nat, ord: seq<string>)
    ensures forall r :: r in FrontierAll(ns, depth, ord) ==>
              Below(r, ord) && UnderSome(r, ns, ord)
    decreases ns, 0
  {
    if ns != [] {
      var key := Key(ns[0]);
      FrontierBelow(ns[0], depth, ord + [key]);
      FrontierAllBelow(ns[1..], depth, ord);
      forall r | r in FrontierAll(ns, depth, ord)
        ensures Below(r, ord) && UnderSome(r, ns, ord)
      {
        if r in Frontier(ns[0], depth, ord + [key]) {
          assert Below(r, ord + [Key(ns[0])]);
        } else {
          assert UnderSome(r, ns[1..], ord);
        }
      }
    }
  }

  predicate StrictlySorted(rows: seq<Row>) {
    forall i, j :: 0 <= i < j < |rows| ==> OrdLess(rows[i].ord, rows[j].ord)
  }

  lemma KeysApart(r: Row, q: Row, ord: seq<string>, a: string, b: string)
    requires Below(r, ord + [a]) && Below(q, ord + [b]) && Less(a, b)
    ensures OrdLess(r.ord, q.ord)
  {
    var x, y := r.ord[|ord|..], q.ord[|ord|..];
    assert r.ord == ord + x && q.ord == ord + y;
    assert x[0] == (ord + [a])[|ord|] && y[0] == (ord + [b])[|ord|];
    OrdPrefix(ord, x, y);
  }

  /** The frontier in document order is strictly ascending in the sort key. */
  lemma {:induction false} FrontierSorted(n: Node, depth: nat, ord: seq<string>)
    requires InDocumentOrder(n)
    ensures StrictlySorted(Frontier(n, depth, ord))
    decreases n, 1
  {
    if !Bears(n) && depth < MAX_DEPTH { FrontierAllSorted(n.children, depth + 1, ord); }
  }

  lemma {:induction false} FrontierAllSorted(ns: seq<Node>, depth: nat, ord: seq<string>)
    requires forall i :: 0 <= i < |ns| ==> InDocumentOrder(ns[i])
    requires forall i, j :: 0 <= i < j < |ns| ==> Before(ns[i], ns[j])
    ensures StrictlySorted(FrontierAll(ns, depth, ord))
    decreases ns, 0
  {
    if ns != [] {
      var key := Key(ns[0]);
      var first, rest := Frontier(ns[0], depth, ord + [key]), FrontierAll(ns[1..], depth, ord);
      FrontierSorted(ns[0], depth, ord + [key]);
      FrontierAllSorted(ns[1..], depth, ord);
      FrontierBelow(ns[0], depth, ord + [key]);
      FrontierAllBelow(ns[1..], depth, ord);
      forall r, q | r in first && q in rest ensures OrdLess(r.ord, q.ord) {
        var k := UnderWhich(q, ns[1..], ord);
        KeyOrder(ns[0], ns[1..][k]);
        KeysApart(r, q, ord, key, Key(ns[1..][k]));
      }
      StrictAppend(first, rest);
    }
  }

  lemma StrictAppend(a: seq<Row>, b: seq<Row>)
    requires StrictlySorted(a) && StrictlySorted(b)
    requires forall r, q :: r in a && q in b ==> OrdLess(r.ord, q.ord)
    ensures StrictlySorted(a + b)
  {
    var c := a + b;
    forall i, j | 0 <= i < j < |c| ensures OrdLess(c[i].ord, c[j].ord) {
      if i < |a| <= j { assert c[i] in a && c[j] in b; }
    }
  }

  lemma SameFirst(rows: seq<Row>, strict: seq<Row>)
    requires rows != [] && strict != []
    requires Sorted(rows) && StrictlySorted(strict) && multiset(rows) == multiset(strict)
    ensures rows[0] == strict[0]
  {
    assert rows[0] in multiset(rows) && strict[0] in multiset(strict);
    var m :| 0 <= m < |strict| && strict[m] == rows[0];
    var k :| 0 <= k < |rows| && rows[k] == strict[0];
    assert m == 0 || OrdLess(strict[0].ord, strict[m].ord);
    assert k == 0 || !OrdLess(rows[k].ord, rows[0].ord);
  }

  lemma {:induction false} WithoutFirst(rows: seq<Row>)
    requires rows != []
    ensures multiset(rows[1..]) == multiset(rows) - multiset([rows[0]])
  {
    assert rows == [rows[0]] + rows[1..];
  }

  /** Only one order of a strictly ascending list respects the sort key. */
  lemma {:induction false} OnlyOrder(rows: seq<Row>, strict: seq<Row>)
    requires Sorted(rows) && StrictlySorted(strict) && multiset(rows) == multiset(strict)
    ensures rows == strict
    decreases |rows|
  {
    assert |multiset(rows)| == |rows| && |multiset(strict)| == |strict|;
    if rows != [] {
      SameFirst(rows, strict);
      assert rows == [rows[0]] + rows[1..] && strict == [strict[0]] + strict[1..];
      WithoutFirst(rows);
      WithoutFirst(strict);
      OnlyOrder(rows[1..], strict[1..]);
    }
  }

  /** Whatever answer the database gives, it is the frontier in document order. */
  lemma AnswerIsFrontier(rows: seq<Row>, root: Node)
    requires InDocumentOrder(root) && Answers(rows, root)
    ensures rows == Frontier(root, 0, [])
  {
    var start := [Row(root, 0, [])];
    WalkIsFrontier(start, MAX_DEPTH, 0);
    assert FrontierOfRows(start) == Frontier(root, 0, []) + FrontierOfRows(start[1..]);
    FrontierSorted(root, 0, []);
    OnlyOrder(rows, Frontier(root, 0, []));
  }

  // ----- what the two sides say ------------------------------------------------------------------------

  /** The texts a node's effective text is made of, the blank ones left out. */
  function Parts(n: Node): seq<string>
    decreases n, 1
  {
    if Holds(n.content) then NonBlank([n.content.value])
    else if Holds(n.summary) then NonBlank([n.summary.value])
    else PartsOf(n.children)
  }

  function PartsOf(ns: seq<Node>): seq<string>
    decreases ns, 0
  {
    if ns == [] then [] else Parts(ns[0]) + PartsOf(ns[1..])
  }

  lemma {:induction false} JoinAppend(a: seq<string>, b: seq<string>)
    requires a != [] && b != []
    ensures JoinWith(SEPARATOR, a + b) == JoinWith(SEPARATOR, a) + SEPARATOR + JoinWith(SEPARATOR, b)
  {
    if |a| == 1 {
      assert (a + b)[1..] == b;
    } else {
      JoinAppend(a[1..], b);
      assert (a + b)[1..] == a[1..] + b;
      var x, y, z := a[0] + SEPARATOR, JoinWith(SEPARATOR, a[1..]), SEPARATOR + JoinWith(SEPARATOR, b);
      assert x + (y + z) == (x + y) + z;
    }
  }

  predicate NoneBlank(parts: seq<string>) {
    forall i :: 0 <= i < |parts| ==> !Blank(parts[i])
  }

  lemma BlankConcat(a: string, b: string)
    ensures Blank(a + b) ==> Blank(a) && Blank(b)
  {
    assert forall i :: 0 <= i < |a| ==> (a + b)[i] == a[i];
    assert forall i :: 0 <= i < |b| ==> (a + b)[|a| + i] == b[i];
  }

  lemma JoinNotBlank(parts: seq<string>)
    requires parts != [] && NoneBlank(parts)
    ensures !Blank(JoinWith(SEPARATOR, parts))
  {
    if |parts| > 1 {
      var rest := JoinWith(SEPARATOR, parts[1..]);
      BlankConcat(parts[0] + SEPARATOR, rest);
      BlankConcat(parts[0], SEPARATOR);
    }
  }

  lemma NonBlankOne(s: string)
    ensures NonBlank([s]) == if Blank(s) then [] else [s]
    ensures JoinWith(SEPARATOR, [s]) == s
  {
    assert [s][1..] == [];
  }

  /** Joining nested joins with one separator is joining the parts: a node's effective text
      is blank exactly when it has no parts, and is their join otherwise. */
  lemma {:induction false} TextIsParts(n: Node)
    ensures NoneBlank(Parts(n))
    ensures Blank(EffectiveText(n)) <==> Parts(n) == []
    ensures Parts(n) != [] ==> EffectiveText(n) == JoinWith(SEPARATOR, Parts(n))
    decreases n, 1
  {
    if Holds(n.content) {
      NonBlankOne(n.content.value);
    } else if Holds(n.summary) {
      NonBlankOne(n.summary.value);
      assert EffectiveText(n) == n.summary.value;
    } else {
      TextsAreParts(n.children);
      if PartsOf(n.children) != [] { JoinNotBlank(PartsOf(n.children)); }
    }
  }

  lemma {:induction false} TextsAreParts(ns: seq<Node>)
    ensures NoneBlank(PartsOf(ns))
    ensures JoinWith(SEPARATOR, NonBlank(EffectiveTexts(ns))) == JoinWith(SEPARATOR, PartsOf(ns))
    ensures NonBlank(EffectiveTexts(ns)) == [] <==> PartsOf(ns) == []
    decreases ns, 0
  {
    if ns != [] {
      TextIsParts(ns[0]);
      TextsAreParts(ns[1..]);
      var first, rest := EffectiveText(ns[0]), NonBlank(EffectiveTexts(ns[1..]));
      assert EffectiveTexts(ns)[1..] == EffectiveTexts(ns[1..]);
      var a, b := Parts(ns[0]), PartsOf(ns[1..]);
      if Blank(first) {
        assert NonBlank(EffectiveTexts(ns)) == rest && a + b == b;
      } else {
        assert NonBlank(EffectiveTexts(ns)) == [first] + rest;
        assert [first] + [] == [first] && a + [] == a;
        if rest != [] {
          JoinAppend([first], rest);
          JoinAppend(a, b);
        }
      }
    }
  }

  /** The texts the query's answer is made of, the blank ones left out. */
  function Projected(n: Node, depth: nat): seq<string>
    decreases n, 1
  {
    if Bears(n) then NonBlank([Body(n)])
    else if depth >= MAX_DEPTH then []
    else ProjectedAll(n.children, depth + 1)
  }

  function ProjectedAll(ns: seq<Node>, depth: nat): seq<string>
    decreases ns, 0
  {
    if ns == [] then [] else Projected(ns[0], depth) + ProjectedAll(ns[1..], depth)
  }

  /** Some text column at or below the node, with no text set above it, is not blank. */
  predicate Carries(n: Node)
    decreases n, 1
  {
    if Holds(n.content) then !Blank(n.content.value)
    else if Holds(n.summary) then !Blank(n.summary.value)
    else CarriesAny(n.children)
  }

  predicate CarriesAny(ns: seq<Node>)
    decreases ns, 0
  {
    ns != [] && (Carries(ns[0]) || CarriesAny(ns[1..]))
  }

  lemma {:induction false} CarriesParts(n: Node)
    ensures Carries(n) <==> Parts(n) != []
    decreases n, 1
  {
    if Holds(n.content) {
      NonBlankOne(n.content.value);
    } else if Holds(n.summary) {
      NonBlankOne(n.summary.value);
    } else {
      CarriesPartsOf(n.children);
    }
  }

  lemma {:induction false} CarriesPartsOf(ns: seq<Node>)
    ensures CarriesAny(ns) <==> PartsOf(ns) != []
    decreases ns, 0
  {
    if ns != [] {
      CarriesParts(ns[0]);
      CarriesPartsOf(ns[1..]);
    }
  }

  /** The rows at which the query stops without a text to give: a text column that is set
      but empty, or a container at the depth bound. Nothing is lost when no text that counts
      lies at or below such a node. */
  predicate Lossless(n: Node, depth: nat)
    decreases n, 1
  {
    if Bears(n) then Body(n) != "" || !Carries(n)
    else if depth >= MAX_DEPTH then !Carries(n)
    else LosslessAll(n.children, depth + 1)
  }

  predicate LosslessAll(ns: seq<Node>, depth: nat)
    decreases ns, 0
  {
    ns == [] || (Lossless(ns[0], depth) && LosslessAll(ns[1..], depth))
  }

  /** Characters a list of parts takes up, a separator counted for each. */
  function Size(parts: seq<string>): nat {
    if parts == [] then 0 else |parts[0]| + |SEPARATOR| + Size(parts[1..])
  }

  lemma {:induction false} SizeAppend(a: seq<string>, b: seq<string>)
    ensures Size(a + b) == Size(a) + Size(b)
  {
    if a == [] {
      assert a + b == b;
    } else {
      SizeAppend(a[1..], b);
      assert (a + b)[1..] == a[1..] + b;
    }
  }

  lemma {:induction false} SizeOfJoin(parts: seq<string>)
    requires parts != []
    ensures |JoinWith(SEPARATOR, parts)| + |SEPARATOR| == Size(parts)
  {
    if |parts| > 1 { SizeOfJoin(parts[1..]); }
  }

  /** The query gives the parts when it is lossless, and takes up less room when not. */
  lemma {:induction false} ProjectedParts(n: Node, depth: nat)
    ensures Lossless(n, depth) ==> Projected(n, depth) == Parts(n)
    ensures !Lossless(n, depth) ==> Size(Projected(n, depth)) < Size(Parts(n))
    decreases n, 1
  {
    TextIsParts(n);
    CarriesParts(n);
    if Bears(n) {
      assert NonBlank([""]) == [];
    } else if depth < MAX_DEPTH {
      ProjectedPartsOf(n.children, depth + 1);
    }
  }

  lemma {:induction false} ProjectedPartsOf(ns: seq<Node>, depth: nat)
    ensures LosslessAll(ns, depth) ==> ProjectedAll(ns, depth) == PartsOf(ns)
    ensures !LosslessAll(ns, depth) ==> Size(ProjectedAll(ns, depth)) < Size(PartsOf(ns))
    decreases ns, 0
  {
    if ns != [] {
      ProjectedParts(ns[0], depth);
      ProjectedPartsOf(ns[1..], depth);
      SizeAppend(Projected(ns[0], depth), ProjectedAll(ns[1..], depth));
      SizeAppend(Parts(ns[0]), PartsOf(ns[1..]));
    }
  }

  /** What the query says a node stands for: nothing, or the join of its texts. */
  function Projection(n: Node): Option<string> {
    var parts := Projected(n, 0);
    if parts == [] then None else Some(JoinWith(SEPARATOR, parts))
  }

  /** The fast path agrees with the definition exactly when it is lossless. */
  lemma ProjectionAgreesExactly(n: Node)
    ensures Projection(n) == StandsFor(n) <==> Lossless(n, 0)
  {
    ProjectedParts(n, 0);
    TextIsParts(n);
    var parts, projected := Parts(n), Projected(n, 0);
    if parts != [] { SizeOfJoin(parts); }
    if projected != [] { SizeOfJoin(projected); }
  }

  function Height(n: Node): nat
    decreases n, 1
  {
    if n.children == [] then 0 else 1 + HeightAll(n.children)
  }

  function HeightAll(ns: seq<Node>): nat
    decreases ns, 0
  {
    if ns == [] then 0
    else
      var first, rest := Height(ns[0]), HeightAll(ns[1..]);
      if first > rest then first else rest
  }

  /** No text column is set to the empty string. */
  predicate NoEmptyText(n: Node)
    decreases n, 1
  {
    n.content != Some("") && n.summary != Some("") && NoEmptyTexts(n.children)
  }

  predicate NoEmptyTexts(ns: seq<Node>)
    decreases ns, 0
  {
    ns == [] || (NoEmptyText(ns[0]) && NoEmptyTexts(ns[1..]))
  }

  lemma {:induction false} ShallowIsLossless(n: Node, depth: nat)
    requires NoEmptyText(n) && depth + Height(n) <= MAX_DEPTH
    ensures Lossless(n, depth)
    decreases n, 1
  {
    if !Bears(n) && depth < MAX_DEPTH && n.children != [] {
      ShallowAreLossless(n.children, depth + 1);
    }
  }

  lemma {:induction false} ShallowAreLossless(ns: seq<Node>, depth: nat)
    requires NoEmptyTexts(ns) && depth + HeightAll(ns) <= MAX_DEPTH
    ensures LosslessAll(ns, depth)
    decreases ns, 0
  {
    if ns != [] {
      ShallowIsLossless(ns[0], depth);
      ShallowAreLossless(ns[1..], depth);
    }
  }

  /** On every tree of height at most 40 with no text column set to the empty string, the
      query and the definition say the same. */
  lemma ProjectionAgrees(n: Node)
    requires NoEmptyText(n) && Height(n) <= MAX_DEPTH
    ensures Projection(n) == StandsFor(n)
  {
    ShallowIsLossless(n, 0);
    ProjectionAgreesExactly(n);
  }

  /** A container whose content is the empty string rather than NULL hides its children from
      the query and not from the definition. */
  lemma EmptyContentDisagrees()
    ensures var leaf := Node(2, None, 0, Some("text"), None, []);
            var parent := Node(1, None, 0, Some(""), None, [leaf]);
            StandsFor(parent) == Some("text") && Projection(parent) == None
  {
    var leaf := Node(2, None, 0, Some("text"), None, []);
    var parent := Node(1, None, 0, Some(""), None, [leaf]);
    assert EffectiveText(leaf) == "text";
    assert !Blank("text") by { assert !IsSpace("text"[0]); }
    assert EffectiveTexts([leaf]) == ["text"];
    assert NonBlank(["text"]) == ["text"];
    assert EffectiveText(parent) == "text";
    assert NonBlank([""]) == [];
  }

  // ----- folding the answer for a page of roots ---------------------------------------------------------

  /** A row of the answer, tagged with the root it was found under. */
  datatype Tagged = Tagged(root: nat, row: Row)

  predicate AllBear(rows: seq<Tagged>) {
    forall i :: 0 <= i < |rows| ==> Bears(rows[i].row.node)
  }

  function RowsFor(rows: seq<Tagged>, root: nat): seq<Row> {
    if rows == [] then []
    else (if rows[0].root == root then [rows[0].row] else []) + RowsFor(rows[1..], root)
  }

  lemma {:induction false} RowsForSnoc(rows: seq<Tagged>, last: Tagged, root: nat)
    ensures RowsFor(rows + [last], root) == RowsFor(rows, root) + if last.root == root then [last.row] else []
  {
    if rows == [] {
      assert rows + [last] == [last] && [last][1..] == [];
    } else {
      RowsForSnoc(rows[1..], last, root);
      assert (rows + [last])[1..] == rows[1..] + [last];
    }
  }

  function RowText(r: Row): seq<string> {
    if Bears(r.node) && !Blank(Body(r.node)) then [Body(r.node)] else []
  }

  /** Bodies of the rows that are not blank. */
  function Texts(rows: seq<Row>): seq<string> {
    if rows == [] then [] else RowText(rows[0]) + Texts(rows[1..])
  }

  lemma {:induction false} TextsAppend(a: seq<Row>, b: seq<Row>)
    ensures Texts(a + b) == Texts(a) + Texts(b)
  {
    if a == [] {
      assert a + b == b;
    } else {
      TextsAppend(a[1..], b);
      assert (a + b)[1..] == a[1..] + b && (a + b)[0] == a[0];
      Associate(RowText(a[0]), Texts(a[1..]), Texts(b));
    }
  }

  lemma TextsForSnoc(rows: seq<Tagged>, last: Tagged, root: nat)
    ensures Texts(RowsFor(rows + [last], root))
         == Texts(RowsFor(rows, root)) + if last.root == root then RowText(last.row) else []
  {
    RowsForSnoc(rows, last, root);
    TextsAppend(RowsFor(rows, root), if last.root == root then [last.row] else []);
    assert [last.row][1..] == [];
    assert Texts([last.row]) == RowText(last.row) + Texts([]);
  }

  lemma {:induction false} FrontierTexts(n: Node, depth: nat, ord: seq<string>)
    ensures Texts(Frontier(n, depth, ord)) == Projected(n, depth)
    decreases n, 1
  {
    if Bears(n) {
      assert Frontier(n, depth, ord)[1..] == [];
      NonBlankOne(Body(n));
    } else if depth < MAX_DEPTH {
      FrontierAllTexts(n.children, depth + 1, ord);
    }
  }

  lemma {:induction false} FrontierAllTexts(ns: seq<Node>, depth: nat, ord: seq<string>)
    ensures Texts(FrontierAll(ns, depth, ord)) == ProjectedAll(ns, depth)
    decreases ns, 0
  {
    if ns != [] {
      var key := Key(ns[0]);
      FrontierTexts(ns[0], depth, ord + [key]);
      FrontierAllTexts(ns[1..], depth, ord);
      TextsAppend(Frontier(ns[0], depth, ord + [key]), FrontierAll(ns[1..], depth, ord));
    }
  }

  lemma OneMoreRow(rows: seq<Tagged>, k: nat)
    requires AllBear(rows) && k < |rows|
    ensures var root, body := rows[k].root, Body(rows[k].row.node);
            forall other :: Texts(RowsFor(rows[..k + 1], other)) ==
              if root == other && !Blank(body) then Texts(RowsFor(rows[..k], other)) + [body]
              else Texts(RowsFor(rows[..k], other))
  {
    assert rows[..k + 1] == rows[..k] + [rows[k]];
    forall other {
      TextsForSnoc(rows[..k], rows[k], other);
    }
  }

  /** What has been gathered is the texts of each root's rows. */
  ghost predicate Gathered(parts: map<nat, seq<string>>, rows: seq<Tagged>)
    requires AllBear(rows)
  {
    forall root :: GatheredFor(parts, rows, root)
  }

  ghost predicate GatheredFor(parts: map<nat, seq<string>>, rows: seq<Tagged>, root: nat)
    requires AllBear(rows)
  {
    if root in parts then parts[root] != [] && Texts(RowsFor(rows, root)) == parts[root]
    else Texts(RowsFor(rows, root)) == []
  }

  lemma GatherOne(parts: map<nat, seq<string>>, rows: seq<Tagged>, k: nat)
    requires AllBear(rows) && k < |rows| && Gathered(parts, rows[..k])
    ensures var root, body := rows[k].root, Body(rows[k].row.node);
            Gathered(if Blank(body) then parts else parts[root := (if root in parts then parts[root] else []) + [body]],
                     rows[..k + 1])
  {
    var root, body := rows[k].root, Body(rows[k].row.node);
    var more := if Blank(body) then parts else parts[root := (if root in parts then parts[root] else []) + [body]];
    var longer := rows[..k + 1];
    OneMoreRow(rows, k);
    forall other ensures GatheredFor(more, longer, other) {
      assert GatheredFor(parts, rows[..k], other);
    }
  }

  lemma GatheredMeans(parts: map<nat, seq<string>>, rows: seq<Tagged>)
    requires AllBear(rows) && Gathered(parts, rows)
    ensures forall root :: root in parts <==> Texts(RowsFor(rows, root)) != []
    ensures forall root :: root in parts ==> parts[root] == Texts(RowsFor(rows, root))
  {
    assert forall root :: root in parts ==> GatheredFor(parts, rows, root);
    forall root ensures root in parts <==> Texts(RowsFor(rows, root)) != [] {
      assert GatheredFor(parts, rows, root);
    }
  }

  /** A root is in the mapping exactly when some row of it has text that is not blank, and
      stands for those texts joined in the order of the rows. */
  method ProjectEffectiveContent(rows: seq<Tagged>) returns (text: map<nat, string>)
    requires AllBear(rows)
    ensures forall root :: root in text <==> Texts(RowsFor(rows, root)) != []
    ensures forall root :: root in text ==> text[root] == JoinWith(SEPARATOR, Texts(RowsFor(rows, root)))
  {
    var parts: map<nat, seq<string>> := map[];
    for k := 0 to |rows|
      invariant Gathered(parts, rows[..k])
    {
      var root, body := rows[k].root, Body(rows[k].row.node);
      GatherOne(parts, rows, k);
      if !Blank(body) {
        parts := parts[root := (if root in parts then parts[root] else []) + [body]];
      }
    }
    assert rows[..|rows|] == rows;
    GatheredMeans(parts, rows);
    text := map root | root in parts :: JoinWith(SEPARATOR, parts[root]);
  }

  /** For every root of a page whose rows are an answer to the query, the mapping says what
      the projection says, and so what the definition says wherever nothing is lost. */
  lemma PageAgrees(rows: seq<Tagged>, text: map<nat, string>, id: nat, root: Node)
    requires InDocumentOrder(root) && Answers(RowsFor(rows, id), root)
    requires id in text <==> Texts(RowsFor(rows, id)) != []
    requires id in text ==> text[id] == JoinWith(SEPARATOR, Texts(RowsFor(rows, id)))
    ensures (if id in text then Some(text[id]) else None) == Projection(root)
    ensures Lossless(root, 0) ==> (if id in text then Some(text[id]) else None) == StandsFor(root)
  {
    AnswerIsFrontier(RowsFor(rows, id), root);
    FrontierTexts(root, 0, []);
    ProjectionAgreesExactly(root);
  }

  function NodeIds(rows: seq<Row>): set<nat> {
    set r | r in rows :: r.node.id
  }

  predicate AnySummary(rows: seq<Row>) {
    exists i :: 0 <= i < |rows| && rows[i].node.summary.Some?
  }

  /** Which nodes each root's text is made of, and whether any of them carries a summary. */
  method FrontierMembers(rows: seq<Tagged>) returns (members: map<nat, (set<nat>, bool)>)
    ensures forall root :: MembersAre(members, rows, root)
  {
    members := map[];
    for k := 0 to |rows|
      invariant forall root :: MembersAre(members, rows[..k], root)
    {
      var root, node := rows[k].root, rows[k].row.node;
      assert rows[..k + 1] == rows[..k] + [rows[k]];
      assert MembersAre(members, rows[..k], root);
      MembersSnoc(RowsFor(rows[..k], root), rows[k].row);
      var found, summarised := {}, false;
      if root in members {
        found, summarised := members[root].0, members[root].1;
      }
      ghost var before, longer := members, rows[..k + 1];
      RowsForSnoc(rows[..k], rows[k], root);
      members := members[root := (found + {node.id}, summarised || node.summary.Some?)];
      assert MembersAre(members, longer, root);
      forall other ensures MembersAre(members, longer, other) {
        assert MembersAre(before, rows[..k], other);
        RowsForSnoc(rows[..k], rows[k], other);
        assert RowsFor(rows[..k], other) + [] == RowsFor(rows[..k], other);
      }
    }
    assert rows[..|rows|] == rows;
  }

  /** What the mapping says of one root: nothing when it has no rows, else the ids of their
      nodes and whether one of them has a summary. */
  predicate MembersAre(members: map<nat, (set<nat>, bool)>, rows: seq<Tagged>, root: nat) {
    var own := RowsFor(rows, root);
    && (root in members <==> own != [])
    && (root in members ==> members[root] == (NodeIds(own), AnySummary(own)))
  }

  lemma MembersSnoc(rows: seq<Row>, last: Row)
    ensures NodeIds(rows + [last]) == NodeIds(rows) + {last.node.id}
    ensures AnySummary(rows + [last]) <==> AnySummary(rows) || last.node.summary.Some?
    ensures NodeIds([]) == {} && !AnySummary([])
  {
    var all := rows + [last];
    assert all[|rows|] == last;
    assert forall r :: r in all <==> r in rows || r == last;
    if AnySummary(rows) {
      var i :| 0 <= i < |rows| && rows[i].node.summary.Some?;
      assert all[i] == rows[i];
    }
  }
}
