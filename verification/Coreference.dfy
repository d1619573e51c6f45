// Whole-set reads built on the bounded walk: neighbours that may not be cut, and the
// cluster of entities that denote one thing.
module Coreference {
  import opened Text
  import opened GraphWalk

  const SAME_AS: string := "same_as"
  const RBAC_COREF: string := "rbac_coref"

  /** Which bound cut a walk. */
  datatype WalkCut = NodeCap | DepthCap

  /** No hop leads from the set to a readable document outside it. */
  ghost predicate Closed(g: View, ids: set<nat>) {
    Next(g, ids) <= ids
  }

  lemma ClosedWhenExhausted(g: View, root: nat, n: nat)
    ensures Closed(g, Within(g, root, n)) <==> Reach(g, root, n + 1) == Reach(g, root, n)
  {
    WithinGrows(g, root, 0, n);
    WithinGrows(g, root, n, n + 1);
    var s := Within(g, root, n);
    assert Within(g, root, n + 1) == s + Next(g, s);
    assert Within(g, root, n + 1) == Reach(g, root, n + 1) + {root};
    assert s == Reach(g, root, n) + {root};
  }

  /** With truncation refused, a list is returned exactly when nothing was cut, and then no
      hop leads out of it. */
  method ComputeNeighbors(g: View, root: nat, maxDepth: nat, limit: nat, raiseOnTruncation: bool)
    returns (r: Result<seq<Neighbor>, WalkCut>)
    ensures !raiseOnTruncation ==> r.Ok?
    ensures r.Ok? ==> exists w :: Exact(g, root, maxDepth, limit, raiseOnTruncation, w) && w.nodes == r.value
    ensures raiseOnTruncation ==>
              (r.Ok? <==> |Reach(g, root, maxDepth)| <= limit && Closed(g, Within(g, root, maxDepth)))
    ensures raiseOnTruncation && r.Ok? ==> Ids(r.value) == Reach(g, root, maxDepth)
    ensures r == Err(NodeCap) <==> raiseOnTruncation && |Reach(g, root, maxDepth)| > limit
    ensures r == Err(DepthCap) <==>
              raiseOnTruncation && |Reach(g, root, maxDepth)| <= limit && !Closed(g, Within(g, root, maxDepth))
  {
    var w := WalkNeighbors(g, root, maxDepth, limit, raiseOnTruncation);
    ClosedWhenExhausted(g, root, maxDepth);
    if raiseOnTruncation {
      if w.truncated { return Err(NodeCap); }
      if w.depthExhausted { return Err(DepthCap); }
    }
    r := Ok(w.nodes);
  }

  /** The links that assert coreference, followed in both senses. */
  function CorefView(links: seq<Link>, readable: set<nat>): View {
    View(links, Both, TypeFilter(Some([SAME_AS, RBAC_COREF])), readable)
  }

  /** The link asserts coreference, and joins the two, whichever way it points. */
  predicate Corefers(l: Link, a: nat, b: nat) {
    (l.kind == SAME_AS || l.kind == RBAC_COREF) && ((l.source == a && l.target == b) || (l.source == b && l.target == a))
  }

  /** One hop of a cluster is one such link to a readable document. */
  lemma CorefHop(links: seq<Link>, readable: set<nat>, a: nat, b: nat)
    ensures Linked(CorefView(links, readable), a, b) <==> b in readable && exists l :: l in links && Corefers(l, a, b)
  {
    var g := CorefView(links, readable);
    forall l | l in links && Corefers(l, a, b) ensures exists h :: Crosses(g, h) && h.from == a && h.to == b {
      var h := if l.source == a && l.target == b then HopOut(l) else HopIn(l);
      assert Crosses(g, h) && h.from == a && h.to == b;
    }
    forall h | Crosses(g, h) && h.from == a && h.to == b ensures exists l :: l in links && Corefers(l, a, b) {
      var l := if h.sense.Outgoing? then Link(h.link, h.from, h.to, h.kind) else Link(h.link, h.to, h.from, h.kind);
      assert l in links && Corefers(l, a, b);
    }
  }

  function Reversed(path: seq<nat>): seq<nat> {
    seq(|path|, i requires 0 <= i < |path| => path[|path| - 1 - i])
  }

  lemma PathBack(links: seq<Link>, readable: set<nat>, a: nat, path: seq<nat>)
    requires Path(CorefView(links, readable), a, path) && a in readable
    ensures Path(CorefView(links, readable), path[|path| - 1], Reversed(path))
  {
    var g, back := CorefView(links, readable), Reversed(path);
    forall i | 0 <= i < |back| - 1 ensures LinkedAt(g, back, i) {
      var k := |path| - 2 - i;
      assert LinkedAt(g, path, k);
      assert k > 0 ==> LinkedAt(g, path, k - 1);
      CorefHop(links, readable, path[k], path[k + 1]);
      CorefHop(links, readable, path[k + 1], path[k]);
      var l :| l in links && Corefers(l, path[k], path[k + 1]);
      assert Corefers(l, path[k + 1], path[k]);
    }
  }

  lemma CorefBack(links: seq<Link>, readable: set<nat>, a: nat, b: nat, n: nat)
    requires a in readable && b in Within(CorefView(links, readable), a, n)
    ensures a in Within(CorefView(links, readable), b, n)
  {
    var g := CorefView(links, readable);
    var path := ShortPath(g, a, b, n);
    PathBack(links, readable, a, path);
    PathBounds(g, b, Reversed(path));
    WithinGrows(g, b, |path| - 1, n);
  }

  /** Of two readable entities, each is a coreferent of the other or neither is. */
  lemma CorefSymmetric(links: seq<Link>, readable: set<nat>, a: nat, b: nat, n: nat)
    requires a in readable && b in readable
    ensures b in Within(CorefView(links, readable), a, n) <==> a in Within(CorefView(links, readable), b, n)
  {
    if b in Within(CorefView(links, readable), a, n) { CorefBack(links, readable, a, b, n); }
    if a in Within(CorefView(links, readable), b, n) { CorefBack(links, readable, b, a, n); }
  }

  predicate Distinct(ids: seq<nat>) {
    forall i, j :: 0 <= i < j < |ids| ==> ids[i] != ids[j]
  }

  /** A cluster is returned exactly when the bounds hold all of it; it begins with the entity
      asked about, names every coreferent once, and is closed. */
  method ResolveCoreferentIds(links: seq<Link>, readable: set<nat>, entity: nat, maxDepth: nat, limit: nat)
    returns (r: Result<seq<nat>, WalkCut>)
    ensures var g := CorefView(links, readable);
            && (r.Ok? <==> |Reach(g, entity, maxDepth)| <= limit && Closed(g, Within(g, entity, maxDepth)))
            && (r == Err(NodeCap) <==> |Reach(g, entity, maxDepth)| > limit)
            && (r.Ok? ==>
                  && r.value != [] && r.value[0] == entity && Distinct(r.value)
                  && Members(r.value) == Within(g, entity, maxDepth))
  {
    var g := CorefView(links, readable);
    var walk := ComputeNeighbors(g, entity, maxDepth, limit, true);
    if walk.Err? { return Err(walk.error); }
    ClusterIs(g, entity, maxDepth);
    var cluster := Collect(entity, walk.value);
    assert Members(cluster) == Within(g, entity, maxDepth);
    if |cluster| > 1 {
      ClusterReadable(cluster, entity, readable);
      cluster := [entity] + KeepReadable(cluster[1..], readable);
    }
    r := Ok(cluster);
  }

  lemma ClusterIs(g: View, entity: nat, maxDepth: nat)
    ensures {entity} + Reach(g, entity, maxDepth) == Within(g, entity, maxDepth)
    ensures forall v :: v in Within(g, entity, maxDepth) && v != entity ==> v in g.readable
  {
    WithinGrows(g, entity, 0, maxDepth);
    WithinReadable(g, entity, maxDepth);
  }

  lemma ClusterReadable(cluster: seq<nat>, entity: nat, readable: set<nat>)
    requires cluster != [] && cluster[0] == entity && Distinct(cluster)
    requires forall v :: v in Members(cluster) && v != entity ==> v in readable
    ensures [entity] + KeepReadable(cluster[1..], readable) == cluster
  {
    forall i | 0 <= i < |cluster[1..]| ensures cluster[1..][i] in readable {
      assert cluster[i + 1] in Members(cluster) && cluster[i + 1] != cluster[0];
    }
    KeepReadableAll(cluster[1..], readable);
    assert cluster == [entity] + cluster[1..];
  }

  /** The entity, then each node not seen before. */
  method Collect(entity: nat, nodes: seq<Neighbor>) returns (cluster: seq<nat>)
    ensures cluster != [] && cluster[0] == entity && Distinct(cluster)
    ensures Members(cluster) == {entity} + Ids(nodes)
  {
    cluster := [entity];
    var seen := {entity};
    for k := 0 to |nodes|
      invariant cluster != [] && cluster[0] == entity && Distinct(cluster)
      invariant seen == Members(cluster) == {entity} + Ids(nodes[..k])
    {
      var id := nodes[k].id;
      assert nodes[..k + 1] == nodes[..k] + [nodes[k]];
      IdsSnoc(nodes[..k], nodes[k]);
      if id !in seen {
        seen := seen + {id};
        ghost var shorter := cluster;
        assert forall i :: 0 <= i < |shorter| ==> shorter[i] in Members(shorter);
        cluster := cluster + [id];
        assert Members(cluster) == Members(shorter) + {id};
      }
    }
    assert nodes[..|nodes|] == nodes;
  }

  /** [c for c in ids if c in readable] */
  function KeepReadable(ids: seq<nat>, readable: set<nat>): seq<nat> {
    if ids == [] then []
    else (if ids[0] in readable then [ids[0]] else []) + KeepReadable(ids[1..], readable)
  }

  lemma {:induction false} KeepReadableAll(ids: seq<nat>, readable: set<nat>)
    requires forall i :: 0 <= i < |ids| ==> ids[i] in readable
    ensures KeepReadable(ids, readable) == ids
  {
    if ids != [] { KeepReadableAll(ids[1..], readable); }
  }

  lemma NextReadable(g: View, from: set<nat>)
    ensures Next(g, from) <= g.readable
  {
  }

  /** The walk never leaves what the caller can read, so the filter the cluster applies to
      itself drops nothing. */
  lemma {:induction false} WithinReadable(g: View, root: nat, n: nat)
    ensures forall v :: v in Within(g, root, n) && v != root ==> v in g.readable
    decreases n
  {
    if n > 0 {
      WithinReadable(g, root, n - 1);
      NextReadable(g, Within(g, root, n - 1));
    }
  }

  // ----- one cluster, whoever asks -------------------------------------------------------------

  lemma {:induction false} ClosedHoldsReach(g: View, ids: set<nat>, root: nat, n: nat)
    requires Closed(g, ids) && root in ids
    ensures Within(g, root, n) <= ids
    decreases n
  {
    if n > 0 {
      ClosedHoldsReach(g, ids, root, n - 1);
      NextIs(g, Within(g, root, n - 1));
      NextIs(g, ids);
    }
  }

  lemma Reverse(g: View, h: Hop) returns (back: Hop)
    requires g.direction.Both? && Crosses(g, h)
    ensures Crosses(g, back) && back.from == h.to && back.to == h.from
  {
    back := Hop(h.link, h.to, h.from, h.kind, if h.sense.Outgoing? then Incoming else Outgoing);
  }

  lemma ClosedUnder(g: View, ids: set<nat>, h: Hop)
    requires Closed(g, ids) && Crosses(g, h) && h.from in ids && h.to in g.readable
    ensures h.to in ids
  {
    NextIs(g, ids);
  }

  lemma LastHopTo(g: View, root: nat, v: nat, n: nat) returns (h: Hop)
    requires n > 0 && v in Within(g, root, n) && v !in Within(g, root, n - 1)
    ensures Crosses(g, h) && h.from in Within(g, root, n - 1) && h.to == v
  {
    NextIs(g, Within(g, root, n - 1));
    h :| Crosses(g, h) && h.from in Within(g, root, n - 1) && h.to == v;
  }

  /** From any document of a closed set, one nearer the root is in it too. */
  lemma StepBack(g: View, ids: set<nat>, root: nat, v: nat, n: nat) returns (nearer: nat)
    requires g.direction.Both? && Closed(g, ids) && root in g.readable
    requires v in ids && n > 0 && v in Within(g, root, n)
    ensures nearer in ids && nearer in Within(g, root, n - 1)
  {
    nearer := v;
    if v !in Within(g, root, n - 1) {
      var h := LastHopTo(g, root, v, n);
      WithinReadable(g, root, n - 1);
      var back := Reverse(g, h);
      ClosedUnder(g, ids, back);
      nearer := h.from;
    }
  }

  /** Following links both ways, the way back to the root is as open as the way out. */
  lemma {:induction false} WayBack(g: View, ids: set<nat>, root: nat, v: nat, n: nat)
    requires g.direction.Both? && Closed(g, ids) && root in g.readable
    requires v in ids && v in Within(g, root, n)
    ensures root in ids
    decreases n
  {
    if n > 0 {
      var nearer := StepBack(g, ids, root, v, n);
      WayBack(g, ids, root, nearer, n - 1);
    }
  }

  /** Two readable entities in one cluster get the same cluster, whichever is asked about, as
      long as both answers are whole. */
  lemma ClustersAgree(links: seq<Link>, readable: set<nat>, a: nat, b: nat, m: nat, n: nat)
    requires a in readable && b in readable
    requires var g := CorefView(links, readable);
             && Closed(g, Within(g, a, m)) && Closed(g, Within(g, b, n)) && b in Within(g, a, m)
    ensures Within(CorefView(links, readable), a, m) == Within(CorefView(links, readable), b, n)
  {
    var g := CorefView(links, readable);
    WithinGrows(g, b, 0, n);
    WayBack(g, Within(g, b, n), a, b, m);
    ClosedHoldsReach(g, Within(g, b, n), a, m);
    ClosedHoldsReach(g, Within(g, a, m), b, n);
  }
}
