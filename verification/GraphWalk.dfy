// The bounded breadth-first walk of the link graph, and what it measures about its bounds.
module GraphWalk {
  import opened Text

  datatype Direction = Outgoing | Incoming | Both

  datatype Link = Link(id: nat, source: nat, target: nat, kind: string)

  /** A link read in the direction the walk crosses it. */
  datatype Hop = Hop(link: nat, from: nat, to: nat, kind: string, sense: Direction)

  /** The graph as one caller may walk it: the link table, the sense in which links are
      followed, the link types allowed (None allows all), and the documents the caller can
      read. */
  datatype View = View(links: seq<Link>, direction: Direction, kinds: Option<set<string>>, readable: set<nat>)

  /** An absent or empty list of link types filters nothing. */
  function TypeFilter(linkTypes: Option<seq<string>>): Option<set<string>> {
    if linkTypes.None? || linkTypes.value == [] then None else Some(set k | k in linkTypes.value)
  }

  predicate Allowed(g: View, kind: string) {
    g.kinds.None? || kind in g.kinds.value
  }

  predicate FollowsOut(g: View) {
    g.direction != Incoming
  }

  predicate FollowsIn(g: View) {
    g.direction != Outgoing
  }

  /** The walk may cross this hop: it is one of the links, read in a sense that is followed,
      of a type that is allowed. */
  predicate Crosses(g: View, h: Hop) {
    && Allowed(g, h.kind)
    && (|| (FollowsOut(g) && h.sense.Outgoing? && Link(h.link, h.from, h.to, h.kind) in g.links)
        || (FollowsIn(g) && h.sense.Incoming? && Link(h.link, h.to, h.from, h.kind) in g.links))
  }

  // ----- distance ------------------------------------------------------------------------

  function HopOut(l: Link): Hop {
    Hop(l.id, l.source, l.target, l.kind, Outgoing)
  }

  function HopIn(l: Link): Hop {
    Hop(l.id, l.target, l.source, l.kind, Incoming)
  }

  /** Readable documents one hop from any of the given ones. */
  function Next(g: View, from: set<nat>): set<nat> {
    (set l | l in g.links && FollowsOut(g) && Allowed(g, l.kind) && l.source in from && l.target in g.readable :: l.target)
    + (set l | l in g.links && FollowsIn(g) && Allowed(g, l.kind) && l.target in from && l.source in g.readable :: l.source)
  }

  lemma NextIs(g: View, from: set<nat>)
    ensures forall v :: v in Next(g, from) <==> v in g.readable && exists h :: Crosses(g, h) && h.from in from && h.to == v
  {
    assert forall l :: l in g.links && FollowsOut(g) && Allowed(g, l.kind) ==> Crosses(g, HopOut(l));
    assert forall l :: l in g.links && FollowsIn(g) && Allowed(g, l.kind) ==> Crosses(g, HopIn(l));
  }

  /** Documents within n hops of the root, every one but the root readable. */
  function Within(g: View, root: nat, n: nat): set<nat> {
    if n == 0 then {root} else Within(g, root, n - 1) + Next(g, Within(g, root, n - 1))
  }

  lemma {:induction false} WithinGrows(g: View, root: nat, m: nat, n: nat)
    requires m <= n
    ensures Within(g, root, m) <= Within(g, root, n)
    decreases n
  {
    if m < n { WithinGrows(g, root, m, n - 1); }
  }

  /** Once a hop finds nothing new, no further hop does. */
  lemma {:induction false} WithinStable(g: View, root: nat, m: nat, n: nat)
    requires m <= n && Next(g, Within(g, root, m)) <= Within(g, root, m)
    ensures Within(g, root, n) == Within(g, root, m)
    decreases n
  {
    if m < n { WithinStable(g, root, m, n - 1); }
  }

  /** A path of documents from the root, each readable and one hop from the one before. */
  ghost predicate Path(g: View, root: nat, path: seq<nat>) {
    && path != [] && path[0] == root
    && forall i :: 0 <= i < |path| - 1 ==> LinkedAt(g, path, i)
  }

  ghost predicate LinkedAt(g: View, path: seq<nat>, i: nat)
    requires i + 1 < |path|
  {
    Linked(g, path[i], path[i + 1])
  }

  ghost predicate Linked(g: View, a: nat, b: nat) {
    b in g.readable && exists h :: Crosses(g, h) && h.from == a && h.to == b
  }

  /** The link may be followed from `a` to `b`: along it unless only incoming links are
      asked for, against it unless only outgoing ones are. */
  ghost predicate Leads(g: View, l: Link, a: nat, b: nat) {
    && (g.kinds.None? || l.kind in g.kinds.value)
    && ((l.source == a && l.target == b && g.direction != Incoming)
        || (l.source == b && l.target == a && g.direction != Outgoing))
  }

  lemma LinkedIs(g: View, a: nat, b: nat)
    ensures Linked(g, a, b) <==> b in g.readable && exists l :: l in g.links && Leads(g, l, a, b)
  {
    forall l | l in g.links && Leads(g, l, a, b) ensures exists h :: Crosses(g, h) && h.from == a && h.to == b {
      var h := if l.source == a && l.target == b && g.direction != Incoming then HopOut(l) else HopIn(l);
      assert Crosses(g, h) && h.from == a && h.to == b;
    }
    forall h | Crosses(g, h) && h.from == a && h.to == b ensures exists l :: l in g.links && Leads(g, l, a, b) {
      var l := if h.sense.Outgoing? then Link(h.link, h.from, h.to, h.kind) else Link(h.link, h.to, h.from, h.kind);
      assert l in g.links && Leads(g, l, a, b);
    }
  }

  lemma {:induction false} PathBounds(g: View, root: nat, path: seq<nat>)
    requires Path(g, root, path)
    ensures path[|path| - 1] in Within(g, root, |path| - 1)
    decreases |path|
  {
    if |path| > 1 {
      var shorter := path[..|path| - 1];
      forall i | 0 <= i < |shorter| - 1 ensures LinkedAt(g, shorter, i) {
        assert LinkedAt(g, path, i);
      }
      PathBounds(g, root, shorter);
      assert LinkedAt(g, path, |path| - 2);
      NextIs(g, Within(g, root, |path| - 2));
    }
  }

  lemma PathSnoc(g: View, root: nat, path: seq<nat>, v: nat)
    requires Path(g, root, path) && Linked(g, path[|path| - 1], v)
    ensures Path(g, root, path + [v])
  {
    var longer := path + [v];
    forall i | 0 <= i < |longer| - 1 ensures LinkedAt(g, longer, i) {
      if i < |path| - 1 { assert LinkedAt(g, path, i); }
    }
  }

  lemma LinkedFrom(g: View, from: set<nat>, v: nat) returns (u: nat)
    requires v in Next(g, from)
    ensures u in from && Linked(g, u, v)
  {
    NextIs(g, from);
    var h :| Crosses(g, h) && h.from in from && h.to == v;
    u := h.from;
  }

  lemma {:induction false} ShortPath(g: View, root: nat, v: nat, n: nat) returns (path: seq<nat>)
    requires v in Within(g, root, n)
    ensures Path(g, root, path) && path[|path| - 1] == v && |path| <= n + 1
    decreases n
  {
    if n == 0 {
      path := [root];
    } else if v in Within(g, root, n - 1) {
      path := ShortPath(g, root, v, n - 1);
    } else {
      var u := LinkedFrom(g, Within(g, root, n - 1), v);
      var shorter := ShortPath(g, root, u, n - 1);
      path := shorter + [v];
      PathSnoc(g, root, shorter, v);
    }
  }

  /** Being within n hops is having a path of at most n hops, so the least such n is the
      shortest hop count. */
  lemma WithinIsPath(g: View, root: nat, v: nat, n: nat)
    ensures v in Within(g, root, n)
       <==> exists path :: Path(g, root, path) && path[|path| - 1] == v && |path| <= n + 1
  {
    if v in Within(g, root, n) {
      var path := ShortPath(g, root, v, n);
    }
    forall path | Path(g, root, path) && path[|path| - 1] == v && |path| <= n + 1
      ensures v in Within(g, root, n)
    {
      PathBounds(g, root, path);
      WithinGrows(g, root, |path| - 1, n);
    }
  }

  // ----- the walk --------------------------------------------------------------------------

  datatype Neighbor = Neighbor(id: nat, depth: nat, parent: nat, via: Hop)

  datatype Walk = Walk(nodes: seq<Neighbor>, truncated: bool, depthExhausted: bool)

  function Ids(nodes: seq<Neighbor>): set<nat> {
    set n | n in nodes :: n.id
  }

  /** A node is at its shortest hop count, by a hop the walk may cross, from the root or from
      a node before it that is one hop nearer. */
  ghost predicate Found(g: View, root: nat, nodes: seq<Neighbor>, i: nat)
    requires i < |nodes|
  {
    var n := nodes[i];
    && n.depth > 0
    && n.id in Within(g, root, n.depth) && n.id !in Within(g, root, n.depth - 1)
    && Crosses(g, n.via) && n.via.from == n.parent && n.via.to == n.id
    && (|| (n.depth == 1 && n.parent == root)
        || exists j :: 0 <= j < i && nodes[j].id == n.parent && nodes[j].depth == n.depth - 1)
  }

  ghost predicate AllFound(g: View, root: nat, nodes: seq<Neighbor>) {
    && (forall i {:trigger Found(g, root, nodes, i)} :: 0 <= i < |nodes| ==> Found(g, root, nodes, i))
    && NearestFirst(nodes)
  }

  /** Distinct documents, in order of their hop counts. */
  predicate NearestFirst(nodes: seq<Neighbor>) {
    && (forall i, j :: 0 <= i < j < |nodes| ==> nodes[i].id != nodes[j].id)
    && (forall i, j :: 0 <= i < j < |nodes| ==> nodes[i].depth <= nodes[j].depth)
  }

  lemma NearestSnoc(nodes: seq<Neighbor>, n: Neighbor)
    requires NearestFirst(nodes) && UpTo(nodes, n.depth) && n.id !in Ids(nodes)
    ensures NearestFirst(nodes + [n])
  {
    assert forall i :: 0 <= i < |nodes| ==> nodes[i] in nodes && (nodes + [n])[i] == nodes[i];
  }

  lemma {:induction false} IdsCount(nodes: seq<Neighbor>)
    requires forall i, j :: 0 <= i < j < |nodes| ==> nodes[i].id != nodes[j].id
    ensures |Ids(nodes)| == |nodes|
  {
    if nodes == [] {
      assert Ids(nodes) == {};
    } else {
      var k := |nodes| - 1;
      var rest := nodes[..k];
      IdsCount(rest);
      assert nodes == rest + [nodes[k]];
      assert nodes[k].id !in Ids(rest);
      assert Ids(nodes) == Ids(rest) + {nodes[k].id};
    }
  }

  lemma IdsSnoc(nodes: seq<Neighbor>, n: Neighbor)
    ensures Ids(nodes + [n]) == Ids(nodes) + {n.id}
  {
    assert forall m :: m in nodes + [n] <==> m in nodes || m == n;
    assert n in nodes + [n];
  }

  /** One batched query per direction, in whatever order the database returns the rows. */
  method FetchHops(g: View, frontier: seq<nat>) returns (hops: seq<Hop>)
    ensures forall h :: h in hops <==> Crosses(g, h) && h.from in frontier
  {
    hops := [];
    if FollowsOut(g) {
      for k := 0 to |g.links|
        invariant forall h :: h in hops <==>
          exists i :: 0 <= i < k && h == HopOut(g.links[i]) && Allowed(g, h.kind) && h.from in frontier
      {
        var l := g.links[k];
        if l.source in frontier && Allowed(g, l.kind) {
          hops := hops + [HopOut(l)];
        }
      }
    }
    ghost var outs := hops;
    assert forall h :: h in outs <==>
      && FollowsOut(g) && h.sense.Outgoing? && Link(h.link, h.from, h.to, h.kind) in g.links
      && Allowed(g, h.kind) && h.from in frontier;
    if FollowsIn(g) {
      for k := 0 to |g.links|
        invariant forall h :: h in hops <==>
          || h in outs
          || exists i :: 0 <= i < k && h == HopIn(g.links[i]) && Allowed(g, h.kind) && h.from in frontier
      {
        var l := g.links[k];
        if l.target in frontier && Allowed(g, l.kind) {
          hops := hops + [HopIn(l)];
        }
      }
    }
  }

  /** The frontier of a walk at this depth: the documents at exactly that many hops. */
  ghost predicate Layer(g: View, root: nat, ids: set<nat>, depth: nat) {
    ids == if depth == 0 then {root} else Within(g, root, depth) - Within(g, root, depth - 1)
  }

  /** Where a frontier document stands among the nodes found so far. */
  ghost predicate Stands(nodes: seq<Neighbor>, root: nat, id: nat, depth: nat) {
    (depth == 0 && id == root) || exists j :: 0 <= j < |nodes| && nodes[j].id == id && nodes[j].depth == depth
  }

  function Members(ids: seq<nat>): set<nat> {
    set i | i in ids
  }

  /** A walk that has found everything within `depth` hops. */
  ghost predicate Complete(g: View, root: nat, visited: set<nat>, nodes: seq<Neighbor>, frontier: seq<nat>, depth: nat) {
    && AllFound(g, root, nodes) && UpTo(nodes, depth)
    && visited == Within(g, root, depth) && Ids(nodes) == visited - {root}
    && Layer(g, root, Members(frontier), depth)
    && forall f :: f in frontier ==> Stands(nodes, root, f, depth)
  }

  predicate UpTo(nodes: seq<Neighbor>, depth: nat) {
    forall i :: 0 <= i < |nodes| ==> nodes[i].depth <= depth
  }

  /** A node stays justified when more nodes come after it. */
  lemma FoundAmong(g: View, root: nat, nodes: seq<Neighbor>, more: seq<Neighbor>, i: nat)
    requires nodes <= more && i < |nodes| && Found(g, root, nodes, i)
    ensures Found(g, root, more, i)
  {
    assert more[i] == nodes[i];
    if !(nodes[i].depth == 1 && nodes[i].parent == root) {
      var j :| 0 <= j < i && nodes[j].id == nodes[i].parent && nodes[j].depth == nodes[i].depth - 1;
      assert more[j] == nodes[j];
    }
  }

  lemma FoundLast(g: View, root: nat, nodes: seq<Neighbor>, n: Neighbor, depth: nat)
    requires n.depth == depth + 1
    requires n.id in Within(g, root, depth + 1) && n.id !in Within(g, root, depth)
    requires Crosses(g, n.via) && n.via.from == n.parent && n.via.to == n.id
    requires Stands(nodes, root, n.parent, depth)
    ensures Found(g, root, nodes + [n], |nodes|)
  {
    var more := nodes + [n];
    assert more[|nodes|] == n;
    if !(n.depth == 1 && n.parent == root) {
      var j :| 0 <= j < |nodes| && nodes[j].id == n.parent && nodes[j].depth == depth;
      assert more[j] == nodes[j];
    }
  }

  /** Adding a node one hop from the frontier keeps every node justified. */
  lemma FoundSnoc(g: View, root: nat, nodes: seq<Neighbor>, n: Neighbor, depth: nat)
    requires n.depth == depth + 1
    requires AllFound(g, root, nodes) && UpTo(nodes, depth + 1) && n.id !in Ids(nodes)
    requires n.id in Within(g, root, depth + 1) && n.id !in Within(g, root, depth)
    requires Crosses(g, n.via) && n.via.from == n.parent && n.via.to == n.id
    requires Stands(nodes, root, n.parent, depth)
    ensures AllFound(g, root, nodes + [n])
  {
    var more := nodes + [n];
    forall i | 0 <= i < |more| ensures Found(g, root, more, i) {
      if i < |nodes| {
        assert Found(g, root, nodes, i);
        FoundAmong(g, root, nodes, more, i);
      } else {
        FoundLast(g, root, nodes, n, depth);
      }
    }
    NearestSnoc(nodes, n);
  }

  /** Whatever lies one hop further lies one hop from the frontier. */
  lemma FromFrontier(g: View, root: nat, frontier: set<nat>, depth: nat, v: nat) returns (h: Hop)
    requires Layer(g, root, frontier, depth)
    requires v in Within(g, root, depth + 1) && v !in Within(g, root, depth)
    ensures Crosses(g, h) && h.from in frontier && h.to == v && v in g.readable
  {
    NextIs(g, Within(g, root, depth));
    h :| Crosses(g, h) && h.from in Within(g, root, depth) && h.to == v;
    if depth > 0 && h.from in Within(g, root, depth - 1) {
      NextIs(g, Within(g, root, depth - 1));
    }
  }

  /** Part of the way across the hops out of a frontier at this depth: the nodes found, and
      the documents seen. */
  ghost predicate Crossing(g: View, root: nat, nodes: seq<Neighbor>, depth: nat,
                           visited': set<nat>, nodes': seq<Neighbor>, next: seq<nat>) {
    && AllFound(g, root, nodes') && UpTo(nodes', depth + 1)
    && nodes <= nodes' && (forall i :: |nodes| <= i < |nodes'| ==> nodes'[i].depth == depth + 1)
    && Seen(g, root, depth, visited', nodes', next)
    && forall f :: f in next ==> Stands(nodes', root, f, depth + 1)
  }

  ghost predicate Seen(g: View, root: nat, depth: nat, visited': set<nat>, nodes': seq<Neighbor>, next: seq<nat>) {
    && Within(g, root, depth) <= visited' <= Within(g, root, depth + 1)
    && Ids(nodes') == visited' - {root}
    && Members(next) == visited' - Within(g, root, depth)
  }

  lemma CrossingStarts(g: View, root: nat, visited: set<nat>, nodes: seq<Neighbor>, frontier: seq<nat>, depth: nat)
    requires Complete(g, root, visited, nodes, frontier, depth)
    ensures Crossing(g, root, nodes, depth, visited, nodes, [])
  {
  }

  lemma OneHopFurther(g: View, root: nat, depth: nat, h: Hop)
    requires Crosses(g, h) && h.from in Within(g, root, depth) && h.to in g.readable
    ensures h.to in Within(g, root, depth + 1)
  {
    NextIs(g, Within(g, root, depth));
  }

  lemma StandsSnoc(nodes: seq<Neighbor>, root: nat, next: seq<nat>, depth: nat, n: Neighbor)
    requires n.depth == depth && forall f :: f in next ==> Stands(nodes, root, f, depth)
    ensures forall f :: f in next + [n.id] ==> Stands(nodes + [n], root, f, depth)
  {
    var more := nodes + [n];
    assert more[|nodes|] == n;
    forall f | f in next + [n.id] ensures Stands(more, root, f, depth) {
      if f in next { StandsAmong(nodes, more, root, f, depth); }
    }
  }

  lemma SeenOne(g: View, root: nat, depth: nat, visited': set<nat>, nodes': seq<Neighbor>, next: seq<nat>, n: Neighbor)
    requires Seen(g, root, depth, visited', nodes', next)
    requires n.id in Within(g, root, depth + 1) && n.id !in visited' && root in visited'
    ensures Seen(g, root, depth, visited' + {n.id}, nodes' + [n], next + [n.id])
  {
    IdsSnoc(nodes', n);
    assert Members(next + [n.id]) == Members(next) + {n.id};
  }

  lemma {:induction false} CrossingOne(g: View, root: nat, nodes: seq<Neighbor>, depth: nat,
                    visited': set<nat>, nodes': seq<Neighbor>, next: seq<nat>, h: Hop)
    requires Crossing(g, root, nodes, depth, visited', nodes', next)
    requires Crosses(g, h) && h.from in Within(g, root, depth) && Stands(nodes, root, h.from, depth)
    requires h.to in g.readable && h.to !in visited' && root in visited'
    ensures Crossing(g, root, nodes, depth, visited' + {h.to},
                     nodes' + [Neighbor(h.to, depth + 1, h.from, h)], next + [h.to])
  {
    var n := Neighbor(h.to, depth + 1, h.from, h);
    OneHopFurther(g, root, depth, h);
    StandsAmong(nodes, nodes', root, h.from, depth);
    assert n.id !in Within(g, root, depth) && n.id !in Ids(nodes');
    FoundSnoc(g, root, nodes', n, depth);
    SeenOne(g, root, depth, visited', nodes', next, n);
    StandsSnoc(nodes', root, next, depth + 1, n);
  }

  /** When every hop has been crossed, the next layer is whole. */
  lemma CrossingEnds(g: View, root: nat, visited: set<nat>, nodes: seq<Neighbor>, frontier: seq<nat>, depth: nat,
                     hops: seq<Hop>, visited': set<nat>, nodes': seq<Neighbor>, next: seq<nat>)
    requires Complete(g, root, visited, nodes, frontier, depth)
    requires forall h :: h in hops <==> Crosses(g, h) && h.from in frontier
    requires Crossing(g, root, nodes, depth, visited', nodes', next)
    requires forall i :: 0 <= i < |hops| ==> hops[i].to in visited' || hops[i].to !in g.readable
    ensures Complete(g, root, visited', nodes', next, depth + 1)
  {
    forall v | v in Within(g, root, depth + 1) ensures v in visited' {
      if v !in Within(g, root, depth) {
        var h := FromFrontier(g, root, Members(frontier), depth, v);
        assert h in hops;
      }
    }
  }

  /** One hop of the walk: cross every hop out of the frontier, stopping when `cap` nodes
      have been found. */
  method Expand(g: View, root: nat, visited: set<nat>, nodes: seq<Neighbor>, frontier: seq<nat>, depth: nat, cap: nat)
    returns (visited': set<nat>, nodes': seq<Neighbor>, next: seq<nat>)
    requires Complete(g, root, visited, nodes, frontier, depth) && |nodes| < cap && root in visited
    ensures Crossing(g, root, nodes, depth, visited', nodes', next) && |nodes'| <= cap
    ensures |nodes'| < cap ==> Complete(g, root, visited', nodes', next, depth + 1)
  {
    var hops := FetchHops(g, frontier);
    var candidates := set h | h in hops && h.to !in visited :: h.to;
    var readable := candidates * g.readable;
    visited', nodes', next := visited, nodes, [];
    CrossingStarts(g, root, visited, nodes, frontier, depth);
    for k := 0 to |hops|
      invariant Crossing(g, root, nodes, depth, visited', nodes', next) && |nodes'| < cap
      invariant visited <= visited'
      invariant forall i :: 0 <= i < k ==> hops[i].to in visited' || hops[i].to !in g.readable
    {
      var h := hops[k];
      assert h in hops;
      if h.to !in visited' && h.to in readable {
        assert h.from in Members(frontier);
        CrossingOne(g, root, nodes, depth, visited', nodes', next, h);
        visited' := visited' + {h.to};
        nodes' := nodes' + [Neighbor(h.to, depth + 1, h.from, h)];
        next := next + [h.to];
        if |nodes'| >= cap { return; }
      }
    }
    CrossingEnds(g, root, visited, nodes, frontier, depth, hops, visited', nodes', next);
  }

  lemma StandsAmong(nodes: seq<Neighbor>, more: seq<Neighbor>, root: nat, id: nat, depth: nat)
    requires nodes <= more && Stands(nodes, root, id, depth)
    ensures Stands(more, root, id, depth)
  {
    if !(depth == 0 && id == root) {
      var j :| 0 <= j < |nodes| && nodes[j].id == id && nodes[j].depth == depth;
      assert more[j] == nodes[j];
    }
  }

  // ----- the bounds, overshot by one and measured --------------------------------------------

  /** [n for n in nodes if n.depth <= depth] */
  function Shallow(nodes: seq<Neighbor>, depth: nat): seq<Neighbor> {
    if nodes == [] then []
    else
      var init, last := nodes[..|nodes| - 1], nodes[|nodes| - 1];
      if last.depth <= depth then Shallow(init, depth) + [last] else Shallow(init, depth)
  }

  lemma {:induction false} ShallowAll(nodes: seq<Neighbor>, depth: nat)
    requires UpTo(nodes, depth)
    ensures Shallow(nodes, depth) == nodes
  {
    if nodes != [] { ShallowAll(nodes[..|nodes| - 1], depth); }
  }

  lemma {:induction false} ShallowPrefix(nodes: seq<Neighbor>, k: nat, depth: nat)
    requires k <= |nodes| && UpTo(nodes[..k], depth)
    requires forall i :: k <= i < |nodes| ==> nodes[i].depth > depth
    ensures Shallow(nodes, depth) == nodes[..k]
    decreases |nodes|
  {
    if k == |nodes| {
      assert nodes[..k] == nodes;
      ShallowAll(nodes, depth);
    } else {
      var init := nodes[..|nodes| - 1];
      assert init[..k] == nodes[..k];
      ShallowPrefix(init, k, depth);
    }
  }

  lemma PrefixFound(g: View, root: nat, nodes: seq<Neighbor>, k: nat)
    requires AllFound(g, root, nodes) && k <= |nodes|
    ensures AllFound(g, root, nodes[..k])
  {
    forall i | 0 <= i < k ensures Found(g, root, nodes[..k], i) {
      assert Found(g, root, nodes, i);
      if !(nodes[i].depth == 1 && nodes[i].parent == root) {
        var j :| 0 <= j < i && nodes[j].id == nodes[i].parent && nodes[j].depth == nodes[i].depth - 1;
        assert nodes[..k][j] == nodes[j];
      }
    }
  }

  function Cut(nodes: seq<Neighbor>, limit: nat): seq<Neighbor> {
    if |nodes| <= limit then nodes else nodes[..limit]
  }

  /** Documents other than the root within reach of the walk. */
  function Reach(g: View, root: nat, maxDepth: nat): set<nat> {
    Within(g, root, maxDepth) - {root}
  }

  /** What a walk answers: as many distinct nodes as are in reach up to the limit, each at its
      shortest hop count with a justified parent, nearest first; `truncated` exactly when more
      than the limit are in reach; and, when it was measured on a walk that was not truncated,
      `depthExhausted` exactly when one hop more would have found something. */
  ghost predicate Exact(g: View, root: nat, maxDepth: nat, limit: nat, measureDepth: bool, w: Walk) {
    var reach := Reach(g, root, maxDepth);
    && AllFound(g, root, w.nodes) && UpTo(w.nodes, maxDepth) && Ids(w.nodes) <= reach
    && |w.nodes| == (if |reach| < limit then |reach| else limit)
    && (w.truncated <==> |reach| > limit)
    && (!w.truncated ==> Ids(w.nodes) == reach)
    && (measureDepth && !w.truncated ==> (w.depthExhausted <==> Reach(g, root, maxDepth + 1) != reach))
    && (!measureDepth ==> !w.depthExhausted)
  }

  /** A walk that has taken `depth` hops: `before` is what the hops but the last found, and
      the last may have stopped at the cap. */
  ghost predicate Walked(g: View, root: nat, before: seq<Neighbor>, nodes: seq<Neighbor>, depth: nat) {
    && AllFound(g, root, nodes) && before <= nodes
    && (depth == 0 ==> nodes == [])
    && (depth > 0 ==> UpTo(before, depth - 1) && Ids(before) == Reach(g, root, depth - 1))
    && (forall i :: |before| <= i < |nodes| ==> nodes[i].depth == depth)
    && Ids(nodes) <= Reach(g, root, depth)
  }

  lemma SubsetCount(a: set<nat>, b: set<nat>)
    requires a <= b
    ensures |a| <= |b| && (|a| == |b| ==> a == b)
  {
    assert b == a + (b - a);
  }

  function Answer(nodes: seq<Neighbor>, maxDepth: nat, limit: nat): Walk {
    var withinDepth := Shallow(nodes, maxDepth);
    Walk(Cut(withinDepth, limit), |withinDepth| > limit, |withinDepth| < |nodes|)
  }

  lemma WalkedUpTo(g: View, root: nat, before: seq<Neighbor>, nodes: seq<Neighbor>, depth: nat)
    requires Walked(g, root, before, nodes, depth)
    ensures UpTo(nodes, depth)
  {
    forall i | 0 <= i < |nodes| ensures nodes[i].depth <= depth {
      if i < |before| { assert before[i] == nodes[i]; }
    }
  }

  /** The cap fired inside the depth bound: there is one node more than the limit. */
  lemma CutByNodes(g: View, root: nat, maxDepth: nat, limit: nat, measureDepth: bool,
                   before: seq<Neighbor>, nodes: seq<Neighbor>, depth: nat)
    requires Walked(g, root, before, nodes, depth) && depth <= maxDepth && |nodes| == limit + 1
    ensures Exact(g, root, maxDepth, limit, measureDepth, Answer(nodes, maxDepth, limit))
  {
    WalkedUpTo(g, root, before, nodes, depth);
    IdsCount(nodes);
    ShallowAll(nodes, maxDepth);
    WithinGrows(g, root, depth, maxDepth);
    SubsetCount(Ids(nodes), Reach(g, root, maxDepth));
    PrefixFound(g, root, nodes, limit);
    assert Ids(nodes[..limit]) <= Ids(nodes);
  }

  /** The walk ran dry, or came to its last hop, inside both bounds. */
  lemma RanDry(g: View, root: nat, maxDepth: nat, limit: nat, measureDepth: bool,
               before: seq<Neighbor>, nodes: seq<Neighbor>, depth: nat)
    requires Walked(g, root, before, nodes, depth) && depth <= maxDepth && |nodes| <= limit
    requires Ids(nodes) == Reach(g, root, maxDepth)
    requires measureDepth ==> Reach(g, root, maxDepth + 1) == Reach(g, root, maxDepth)
    ensures Exact(g, root, maxDepth, limit, measureDepth, Answer(nodes, maxDepth, limit))
  {
    WalkedUpTo(g, root, before, nodes, depth);
    IdsCount(nodes);
    ShallowAll(nodes, maxDepth);
  }

  /** The extra hop was taken: what it found is discarded, and says whether it found
      anything. */
  lemma Overshot(g: View, root: nat, maxDepth: nat, limit: nat,
                 before: seq<Neighbor>, nodes: seq<Neighbor>)
    requires Walked(g, root, before, nodes, maxDepth + 1) && |before| <= limit
    requires |nodes| <= limit ==> Ids(nodes) == Reach(g, root, maxDepth + 1)
    ensures Exact(g, root, maxDepth, limit, true, Answer(nodes, maxDepth, limit))
  {
    assert nodes[..|before|] == before;
    ShallowPrefix(nodes, |before|, maxDepth);
    PrefixFound(g, root, nodes, |before|);
    IdsCount(before);
    assert Answer(nodes, maxDepth, limit) == Walk(before, false, |before| < |nodes|);
    OvershotFinds(g, root, maxDepth, limit, before, nodes);
  }

  /** Nodes past the bound were found exactly when there are some. */
  lemma OvershotFinds(g: View, root: nat, maxDepth: nat, limit: nat,
                      before: seq<Neighbor>, nodes: seq<Neighbor>)
    requires Walked(g, root, before, nodes, maxDepth + 1) && |before| <= limit
    requires |nodes| <= limit ==> Ids(nodes) == Reach(g, root, maxDepth + 1)
    ensures |before| < |nodes| <==> Reach(g, root, maxDepth + 1) != Reach(g, root, maxDepth)
  {
    if |before| == |nodes| {
      assert nodes == before;
    } else {
      var k := |before|;
      assert Found(g, root, nodes, k);
      assert nodes[k] in nodes && nodes[k].id in Ids(nodes);
      assert nodes[k].id in Reach(g, root, maxDepth + 1) && nodes[k].id !in Reach(g, root, maxDepth);
    }
  }

  lemma LastHop(g: View, root: nat, visited: set<nat>, nodes: seq<Neighbor>, frontier: seq<nat>, depth: nat,
                visited': set<nat>, nodes': seq<Neighbor>, next: seq<nat>)
    requires Complete(g, root, visited, nodes, frontier, depth)
    requires Crossing(g, root, nodes, depth, visited', nodes', next)
    ensures Walked(g, root, nodes, nodes', depth + 1)
  {
  }

  lemma NoDifference(a: set<nat>, b: set<nat>)
    requires a - b == {}
    ensures a <= b
  {
    assert a == (a - b) + a * b;
  }

  /** A hop that found nothing new. */
  lemma NothingNew(g: View, root: nat, n: nat)
    requires Within(g, root, n + 1) - Within(g, root, n) == {}
    ensures Next(g, Within(g, root, n)) <= Within(g, root, n)
  {
    NoDifference(Within(g, root, n + 1), Within(g, root, n));
  }

  /** An empty frontier means no further hop finds anything. */
  lemma {:induction false} DryFrontier(g: View, root: nat, frontier: seq<nat>, depth: nat, later: nat)
    requires Layer(g, root, Members(frontier), depth) && frontier == [] && depth <= later
    ensures Reach(g, root, later) == Reach(g, root, depth)
  {
    assert Members(frontier) == {};
    if depth > 0 {
      var n: nat := depth - 1;
      NothingNew(g, root, n);
      WithinStable(g, root, n, depth);
      WithinStable(g, root, n, later);
    }
  }

  method WalkNeighbors(g: View, root: nat, maxDepth: nat, limit: nat, measureDepth: bool) returns (w: Walk)
    ensures Exact(g, root, maxDepth, limit, measureDepth, w)
  {
    var visited: set<nat> := {root};
    var nodes: seq<Neighbor> := [];
    var frontier: seq<nat> := [root];
    var depth: nat := 0;
    var nodeCap := limit + 1;
    var depthCap := if measureDepth then maxDepth + 1 else maxDepth;
    ghost var before: seq<Neighbor> := [];
    while frontier != [] && depth < depthCap && |nodes| < nodeCap
      invariant depth <= depthCap && |nodes| <= nodeCap && root in visited
      invariant Walked(g, root, before, nodes, depth) && |before| <= limit
      invariant |nodes| < nodeCap ==> Complete(g, root, visited, nodes, frontier, depth)
      decreases depthCap - depth
    {
      var visited', nodes', next := Expand(g, root, visited, nodes, frontier, depth, nodeCap);
      LastHop(g, root, visited, nodes, frontier, depth, visited', nodes', next);
      WithinGrows(g, root, 0, depth);
      before := nodes;
      visited, nodes, frontier := visited', nodes', next;
      depth := depth + 1;
    }
    w := Answer(nodes, maxDepth, limit);
    WalkEnds(g, root, maxDepth, limit, measureDepth, before, visited, nodes, frontier, depth);
  }

  /** However the walk stopped, what it found answers the question. */
  lemma WalkEnds(g: View, root: nat, maxDepth: nat, limit: nat, measureDepth: bool,
                 before: seq<Neighbor>, visited: set<nat>, nodes: seq<Neighbor>, frontier: seq<nat>, depth: nat)
    requires depth <= if measureDepth then maxDepth + 1 else maxDepth
    requires |nodes| <= limit + 1 && |before| <= limit && Walked(g, root, before, nodes, depth)
    requires |nodes| <= limit ==> Complete(g, root, visited, nodes, frontier, depth)
    requires frontier == [] || |nodes| == limit + 1 || depth == if measureDepth then maxDepth + 1 else maxDepth
    ensures Exact(g, root, maxDepth, limit, measureDepth, Answer(nodes, maxDepth, limit))
  {
    if depth > maxDepth {
      Overshot(g, root, maxDepth, limit, before, nodes);
    } else if |nodes| > limit {
      CutByNodes(g, root, maxDepth, limit, measureDepth, before, nodes, depth);
    } else {
      if frontier == [] {
        DryFrontier(g, root, frontier, depth, maxDepth);
        DryFrontier(g, root, frontier, depth, maxDepth + 1);
      }
      RanDry(g, root, maxDepth, limit, measureDepth, before, nodes, depth);
    }
  }
}
