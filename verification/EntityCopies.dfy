// The copies of one name under different roots: at most one under each root, every two of
// them joined by one edge, whatever the order they were created in, exactly as long as no two
// transactions that create a copy overlap. Here similarity is equality of lower-cased names
// and the candidate query leaves no such entity out.
module EntityCopies {
  import opened Text
  import opened Access
  import opened Roots
  import opened Entities
  import opened EntityRuns

  ghost predicate ByName(m: Matcher, lower: string -> string) {
    && (forall a, b :: m.score(a, b) == if lower(a) == lower(b) then 1.0 else 0.0)
    && 0.0 < m.threshold <= 1.0
    && forall s :: lower(s) == "" <==> s == ""
  }

  ghost predicate Complete(m: Matcher, lower: string -> string) {
    forall db, name, roots, d ::
      IsEntity(db, d) && ParentOf(db, d) in roots && lower(db.docs[d].title) == lower(name) ==>
        d in m.query(db, name, roots)
  }

  /** Two different entities of one name. */
  predicate Twins(db: Tables, lower: string -> string, a: nat, b: nat) {
    && IsEntity(db, a) && IsEntity(db, b) && a != b
    && db.docs[a].title != "" && db.docs[b].title != ""
    && lower(db.docs[a].title) == lower(db.docs[b].title)
  }

  predicate Coref(db: Tables, a: nat, b: nat) {
    Link(a, b, RbacCoref) in db.links
  }

  /** Copies stand under different roots; every two are joined, in one direction only; and
      nothing else is joined. */
  ghost predicate Clique(db: Tables, lower: string -> string) {
    && (forall a, b :: Twins(db, lower, a, b) ==> ParentOf(db, a) != ParentOf(db, b))
    && (forall a, b :: Twins(db, lower, a, b) ==> (Coref(db, a, b) <==> !Coref(db, b, a)))
    && forall a, b :: Coref(db, a, b) ==> Twins(db, lower, a, b)
  }

  /** Same entities, same joins. */
  ghost predicate SameEntities(db: Tables, after: Tables) {
    && (forall d :: IsEntity(db, d) <==> IsEntity(after, d))
    && (forall d :: IsEntity(db, d) ==> after.docs[d] == db.docs[d])
    && forall a, b :: Coref(after, a, b) <==> Coref(db, a, b)
  }

  lemma SameClique(db: Tables, after: Tables, lower: string -> string)
    requires SameEntities(db, after) && Clique(db, lower)
    ensures Clique(after, lower)
  {
    forall a, b ensures Twins(after, lower, a, b) <==> Twins(db, lower, a, b) {
      assert IsEntity(db, a) <==> IsEntity(after, a);
      assert IsEntity(db, b) <==> IsEntity(after, b);
    }
  }

  lemma NoTwinUnder(db: Tables, m: Matcher, lower: string -> string, name: string, root: nat, d: nat)
    requires Sound(m) && ByName(m, lower) && Complete(m, lower)
    requires AllEntities(db, m.query(db, name, {root})) && Best(db, m, name, m.query(db, name, {root})).None?
    requires IsEntity(db, d) && db.docs[d].title != "" && lower(db.docs[d].title) == lower(name)
    ensures ParentOf(db, d) != root
  {
    var candidates := m.query(db, name, {root});
    BestIs(db, m, name, candidates);
    assert m.score(name, db.docs[d].title) == 1.0;
    assert ParentOf(db, d) == root ==> d in candidates;
  }

  /** What the new entity is joined to is a copy of it. */
  lemma JoinIsTwin(db: Tables, m: Matcher, lower: string -> string, e: nat, name: string, candidates: seq<nat>, roots: set<nat>, b: nat)
    requires ByName(m, lower) && AllEntities(db, candidates)
    requires IsEntity(db, e) && db.docs[e].title == name && e !in candidates
    requires Link(e, b, RbacCoref) in CorefLinks(db, m, e, name, candidates, roots)
    ensures Twins(db, lower, e, b)
  {
    var r :| r in roots && Best(db, m, name, Under(db, candidates, r)) == Some(b);
    BestIs(db, m, name, Under(db, candidates, r));
    assert m.score(name, db.docs[b].title) > 0.0;
    assert lower(db.docs[b].title) != "";
  }

  /** Every copy among the candidates is joined, being the only one under its root. */
  lemma TwinIsJoined(db: Tables, m: Matcher, lower: string -> string, e: nat, name: string, candidates: seq<nat>, b: nat)
    requires ByName(m, lower) && AllEntities(db, candidates)
    requires b in candidates && db.docs[b].title != "" && lower(db.docs[b].title) == lower(name)
    requires forall c :: c in candidates && Twins(db, lower, c, b) ==> ParentOf(db, c) != ParentOf(db, b)
    ensures ParentOf(db, b) in ParentsOf(db, candidates)
    ensures Link(e, b, RbacCoref) in CorefLinks(db, m, e, name, candidates, ParentsOf(db, candidates))
  {
    var r := ParentOf(db, b);
    var group := Under(db, candidates, r);
    BestIs(db, m, name, group);
    assert b in group && m.score(name, db.docs[b].title) == 1.0;
    var best := Best(db, m, name, group);
    assert best.Some?;
    var c := best.value;
    assert m.score(name, db.docs[c].title) > 0.0;
    assert c == b || Twins(db, lower, c, b);
    var i :| 0 <= i < |candidates| && candidates[i] == b;
    assert ParentOf(db, candidates[i]) in ParentsOf(db, candidates);
  }

  /** A root under which an entity stands is one the query is given. */
  lemma ParentIsOther(db: Tables, root: nat, b: nat)
    requires Inv(db) && IsEntity(db, b) && ParentOf(db, b) != root
    ensures ParentOf(db, b) in OtherRoots(db, root)
  {
    EntityKey(db, b);
    assert RootTrue(db, ParentOf(db, b));
  }

  /** In the tables with the new entity, before it is joined to anything. */
  lemma {:induction false} MadeTwins(db: Tables, m: Matcher, lower: string -> string, name: string, root: nat)
    requires Inv(db) && Sound(m) && ByName(m, lower) && Complete(m, lower) && Clique(db, lower)
    requires root in db.docs && db.docs[root].usetype == RootOf(Tree.Entities)
    requires AllEntities(db, m.query(db, name, {root})) && Best(db, m, name, m.query(db, name, {root})).None?
    ensures var made := WithEntity(db, root, name);
            && (forall a, b :: Twins(made, lower, a, b) && a != db.next && b != db.next ==> Twins(db, lower, a, b))
            && (forall a, b :: Twins(db, lower, a, b) ==> Twins(made, lower, a, b))
            && forall a, b :: Twins(made, lower, a, b) ==> ParentOf(made, a) != ParentOf(made, b)
  {
    var made := WithEntity(db, root, name);
    assert forall d :: d in db.docs ==> made.docs[d] == db.docs[d] && d != db.next;
    forall a, b | Twins(made, lower, a, b) ensures ParentOf(made, a) != ParentOf(made, b) {
      if a == db.next {
        NoTwinUnder(db, m, lower, name, root, b);
      } else if b == db.next {
        NoTwinUnder(db, m, lower, name, root, a);
      } else {
        assert Twins(db, lower, a, b);
      }
    }
  }

  /** Creating an entity that matched nothing under its root keeps the copies a clique. */
  lemma {:induction false} CreateKeepsClique(db: Tables, m: Matcher, lower: string -> string, name: string, root: nat)
    requires Inv(db) && Sound(m) && ByName(m, lower) && Complete(m, lower) && Clique(db, lower)
    requires root in db.docs && db.docs[root].usetype == RootOf(Tree.Entities)
    requires AllEntities(db, m.query(db, name, {root})) && Best(db, m, name, m.query(db, name, {root})).None?
    ensures Clique(Joined(db, m, name, root), lower)
  {
    var e := db.next;
    var made, after := WithEntity(db, root, name), Joined(db, m, name, root);
    MadeTwins(db, m, lower, name, root);
    forall a, b ensures Twins(after, lower, a, b) <==> Twins(made, lower, a, b) {
    }
    forall b | Twins(made, lower, e, b) ensures Coref(after, e, b) {
      TwinCoref(db, m, lower, name, root, b);
    }
    forall a, b | Coref(after, a, b) ensures Twins(made, lower, a, b) && (a == e || Coref(db, a, b)) && b != e {
      CorefTwin(db, m, lower, name, root, a, b);
    }
    assert forall a, b :: Coref(db, a, b) ==> Coref(after, a, b);
  }

  lemma TwinCoref(db: Tables, m: Matcher, lower: string -> string, name: string, root: nat, b: nat)
    requires Inv(db) && Sound(m) && ByName(m, lower) && Complete(m, lower)
    requires root in db.docs && db.docs[root].usetype == RootOf(Tree.Entities)
    requires var made := WithEntity(db, root, name);
             && Twins(made, lower, db.next, b)
             && forall a, c :: Twins(made, lower, a, c) ==> ParentOf(made, a) != ParentOf(made, c)
    ensures Coref(Joined(db, m, name, root), db.next, b)
  {
    var made := WithEntity(db, root, name);
    WithEntityKeeps(db, root, name);
    ParentIsOther(made, root, b);
    var others := OtherRoots(made, root);
    SoundQuery(m, made, name, others);
    TwinIsJoined(made, m, lower, db.next, name, m.query(made, name, others), b);
  }

  lemma CorefTwin(db: Tables, m: Matcher, lower: string -> string, name: string, root: nat, a: nat, b: nat)
    requires Inv(db) && Sound(m) && ByName(m, lower) && Clique(db, lower)
    requires root in db.docs && db.docs[root].usetype == RootOf(Tree.Entities)
    requires forall x, y :: Twins(db, lower, x, y) ==> Twins(WithEntity(db, root, name), lower, x, y)
    requires Coref(Joined(db, m, name, root), a, b)
    ensures Twins(WithEntity(db, root, name), lower, a, b)
    ensures (a == db.next || Coref(db, a, b)) && b != db.next
  {
    var made, e := WithEntity(db, root, name), db.next;
    WithEntityKeeps(db, root, name);
    var others := OtherRoots(made, root);
    var candidates := m.query(made, name, others);
    SoundQuery(m, made, name, others);
    assert ParentOf(made, e) == root && root !in others;
    if Coref(db, a, b) {
      assert Twins(db, lower, a, b);
    } else {
      JoinIsTwin(made, m, lower, e, name, candidates, ParentsOf(made, candidates), b);
    }
  }

  // ----- one resolution ---------------------------------------------------------------------------

  lemma MintedSameEntities(db: Tables, tree: Tree, key: Key, next: nat)
    requires Sane(db)
    ensures SameEntities(db, Minted(db, tree, key).(next := next))
  {
    var after := Minted(db, tree, key).(next := next);
    assert db.next !in db.docs && after.links == db.links;
  }

  lemma MintSameEntities(db: Tables, document: nat, tree: Tree, rival: bool)
    requires Inv(db)
    ensures SameEntities(db, Rooted(db, document, tree, rival).1)
  {
    var after := Rooted(db, document, tree, rival).1;
    if after != db {
      MintedSameEntities(db, tree, KeyOf(db, document), after.next);
      assert after == Minted(db, tree, KeyOf(db, document)).(next := after.next);
    }
  }

  lemma AsideSameEntities(db: Tables, after: Tables)
    requires Aside(db, after)
    ensures SameEntities(db, after)
  {
    assert forall d :: IsEntity(db, d) ==> Ours(db, d);
    assert forall d :: IsEntity(after, d) ==> Ours(after, d);
  }

  lemma ResolveKeepsClique(db: Tables, m: Matcher, lower: string -> string, cache: Option<Cache>, name: string, source: nat, rival: bool)
    requires Inv(db) && Sound(m) && ByName(m, lower) && Complete(m, lower) && Clique(db, lower)
    requires source in db.docs
    ensures Clique(Resolved(db, m, cache, name, source, rival).db, lower)
  {
    var (root, rooted) := Rooted(db, source, Tree.Entities, rival);
    RootedIsKeyed(db, source, Tree.Entities, rival);
    MintSameEntities(db, source, Tree.Entities, rival);
    SameClique(db, rooted, lower);
    ResolvedFrom(db, m, cache, name, source, rival);
    FoundKeepsClique(rooted, m, lower, cache, name, source, root.value);
  }

  lemma FoundKeepsClique(db: Tables, m: Matcher, lower: string -> string, cache: Option<Cache>, name: string, source: nat, root: nat)
    requires Inv(db) && Sound(m) && ByName(m, lower) && Complete(m, lower) && Clique(db, lower)
    requires root in db.docs && db.docs[root].usetype == RootOf(Tree.Entities)
    ensures Clique(FoundOrMade(db, m, cache, name, source, root).db, lower)
  {
    var r := FoundOrMade(db, m, cache, name, source, root);
    SoundQuery(m, db, name, {root});
    var made := r.outcome.value.1;
    if made { CreateKeepsClique(db, m, lower, name, root); }
    var base := if made then Joined(db, m, name, root) else db;
    assert r.db == WithMention(base, source, r.outcome.value.0);
    MentionSameEntities(base, source, r.outcome.value.0);
    SameClique(base, r.db, lower);
  }

  lemma MentionSameEntities(db: Tables, source: nat, e: nat)
    ensures SameEntities(db, WithMention(db, source, e))
  {
  }

  // ----- what overlapping transactions leave --------------------------------------------------------

  ghost predicate NoTwins(db: Tables, lower: string -> string, pairs: set<(nat, nat)>) {
    forall e, b :: (e, b) in pairs ==> !Twins(db, lower, e, b)
  }

  /** The copies a worker sees form a clique, unless an entity was committed that a copy of it
      was created without seeing. */
  ghost predicate CliqueUnless(db: Tables, lower: string -> string, late: set<(nat, nat)>, o: Draft) {
    NoTwins(View(db, o), lower, late + Overlaps(db, o)) ==> Clique(View(db, o), lower)
  }

  /** Joins are between entities. */
  ghost predicate JoinsInside(db: Tables) {
    forall a, b :: Coref(db, a, b) ==> IsEntity(db, a) && IsEntity(db, b)
  }

  /** A worker joins what it created to what it saw, or to what it created too. */
  ghost predicate DraftJoins(db: Tables, o: Draft) {
    forall a, b :: Link(a, b, RbacCoref) in o.links ==>
      a in o.docs && a in o.seen && (b in o.docs || b in o.seen[a]) && IsEntity(View(db, o), b)
  }

  /** What a worker has seen has ids drawn by now. */
  ghost predicate SeenBelow(db: Tables, o: Draft) {
    forall e, d :: e in o.seen && d in o.seen[e] ==> d < db.next
  }

  /** A worker has seen no draft of another. */
  ghost predicate Unseen(a: Draft, b: Draft) {
    forall e :: e in a.seen ==> a.seen[e] !! b.docs.Keys
  }

  /** Two entities whose transactions overlapped are never joined. */
  ghost predicate LateTrue(db: Tables, late: set<(nat, nat)>) {
    forall e, b :: (e, b) in late ==> IsEntity(db, e) && IsEntity(db, b) && !Coref(db, e, b) && !Coref(db, b, e)
  }

  ghost predicate DraftCopies(db: Tables, lower: string -> string, late: set<(nat, nat)>, o: Draft) {
    DraftJoins(db, o) && SeenBelow(db, o) && CliqueUnless(db, lower, late, o)
  }

  ghost predicate WorkersCopies(db: Tables, lower: string -> string, late: set<(nat, nat)>, drafts: map<nat, Draft>) {
    forall w {:trigger DraftOf(drafts, w)} :: DraftCopies(db, lower, late, DraftOf(drafts, w))
  }

  ghost predicate AllUnseen(drafts: map<nat, Draft>) {
    forall v, w {:trigger DraftOf(drafts, v), DraftOf(drafts, w)} :: v != w ==> Unseen(DraftOf(drafts, v), DraftOf(drafts, w))
  }

  ghost predicate CopiesTrue(s: State, lower: string -> string) {
    && JoinsInside(s.db) && LateTrue(s.db, s.late) && DraftCopies(s.db, lower, s.late, NoDraft)
    && WorkersCopies(s.db, lower, s.late, s.drafts) && AllUnseen(s.drafts)
  }

  // ----- steps that leave the entities alone --------------------------------------------------------

  lemma {:induction false} ViewSameEntities(db: Tables, after: Tables, o: Draft)
    requires SameEntities(db, after) && DraftTrue(db, o) && DraftTrue(after, o)
    ensures SameEntities(View(db, o), View(after, o)) && Overlaps(after, o) == Overlaps(db, o)
  {
    var v, u := View(db, o), View(after, o);
    forall d ensures (IsEntity(v, d) <==> IsEntity(u, d)) && (IsEntity(v, d) ==> u.docs[d] == v.docs[d]) {
      assert IsEntity(db, d) <==> IsEntity(after, d);
      assert d in o.docs ==> DraftDoc(db, d, o.docs[d]) && DraftDoc(after, d, o.docs[d]);
    }
    assert forall a, b :: Coref(v, a, b) <==> Coref(db, a, b) || Link(a, b, RbacCoref) in o.links;
    assert forall a, b :: Coref(u, a, b) <==> Coref(after, a, b) || Link(a, b, RbacCoref) in o.links;
    forall e: nat, b: nat ensures (e, b) in Overlaps(after, o) <==> (e, b) in Overlaps(db, o) {
      assert IsEntity(db, b) <==> IsEntity(after, b);
    }
  }

  lemma SameDraftCopies(db: Tables, after: Tables, lower: string -> string, late: set<(nat, nat)>, o: Draft)
    requires SameEntities(db, after) && DraftTrue(db, o) && DraftTrue(after, o) && after.next >= db.next
    requires DraftCopies(db, lower, late, o)
    ensures DraftCopies(after, lower, late, o)
  {
    ViewSameEntities(db, after, o);
    var v, u := View(db, o), View(after, o);
    if NoTwins(u, lower, late + Overlaps(after, o)) {
      forall e, b | (e, b) in late + Overlaps(db, o) ensures !Twins(v, lower, e, b) {
        assert !Twins(u, lower, e, b);
        assert IsEntity(v, e) <==> IsEntity(u, e);
        assert IsEntity(v, b) <==> IsEntity(u, b);
      }
      SameClique(v, u, lower);
    }
    assert DraftJoins(after, o) by {
      assert forall b :: IsEntity(v, b) ==> IsEntity(u, b);
    }
  }

  lemma {:induction false} SameCopies(s: State, after: Tables, lower: string -> string)
    requires StateTrue(s) && StateTrue(s.(db := after)) && CopiesTrue(s, lower)
    requires SameEntities(s.db, after) && after.next >= s.db.next
    ensures CopiesTrue(s.(db := after), lower)
  {
    SameDraftCopies(s.db, after, lower, s.late, NoDraft);
    forall w: nat ensures DraftCopies(after, lower, s.late, DraftOf(s.drafts, w)) {
      assert WorkerTrue(s.db, DraftOf(s.drafts, w), CacheOf(s.caches, w));
      assert WorkerTrue(after, DraftOf(s.drafts, w), CacheOf(s.caches, w));
      SameDraftCopies(s.db, after, lower, s.late, DraftOf(s.drafts, w));
    }
    assert forall e, b :: (e, b) in s.late ==> IsEntity(s.db, e) && IsEntity(s.db, b) && !Coref(s.db, e, b) && !Coref(s.db, b, e);
    assert forall a, b :: Coref(after, a, b) ==> Coref(s.db, a, b) && IsEntity(s.db, a) && IsEntity(s.db, b);
  }

  // ----- a resolution -----------------------------------------------------------------------------

  /** The joins a resolution adds are from the entity it made to entities it saw. */
  lemma FoundOrMadeJoins(v: Tables, m: Matcher, cache: Option<Cache>, name: string, source: nat, root: nat, a: nat, b: nat)
    requires Sound(m)
    ensures var r := FoundOrMade(v, m, cache, name, source, root);
            Coref(r.db, a, b) && !Coref(v, a, b) ==> r.outcome.Ok? && r.outcome.value.1 && a == v.next && IsEntity(r.db, b)
  {
    var r := FoundOrMade(v, m, cache, name, source, root);
    if Coref(r.db, a, b) && !Coref(v, a, b) {
      var made := WithEntity(v, root, name);
      var others := OtherRoots(made, root);
      var candidates := m.query(made, name, others);
      SoundQuery(m, made, name, others);
      var parents := ParentsOf(made, candidates);
      assert Link(a, b, RbacCoref) in CorefLinks(made, m, v.next, name, candidates, parents);
      var q :| q in parents && Best(made, m, name, Under(made, candidates, q)) == Some(b);
      BestIs(made, m, name, Under(made, candidates, q));
      assert IsEntity(made, b);
    }
  }

  /** Every document the worker saw it sees still, and every link. */
  ghost predicate SeesMore(v: Tables, u: Tables) {
    (forall d :: d in v.docs ==> d in u.docs && u.docs[d] == v.docs[d]) && v.links <= u.links
  }

  lemma {:induction false} RootedSeesMore(db: Tables, o: Draft, source: nat, rival: bool)
    requires Inv(db) && DraftTrue(db, o) && source in db.docs
    ensures var after := Rooted(db, source, Tree.Entities, rival).1;
            SeesMore(View(db, o), View(after, o)) && after.next !in View(after, o).docs
  {
    var after := Rooted(db, source, Tree.Entities, rival).1;
    RootedGrows(db, o, source, rival);
    RootedNotEntity(db, source, rival);
    forall d | d in db.docs ensures d in after.docs && after.docs[d] == db.docs[d] {
      assert Kept(db, after, d);
    }
  }

  /** What the worker saw it sees still. */
  lemma LookDocs(m: Matcher, db: Tables, o: Draft, cache: Option<Cache>, name: string, source: nat, rival: bool)
    requires Sound(m) && Inv(db) && DraftTrue(db, o) && source in db.docs
    ensures SeesMore(View(db, o), Resolved(View(db, o), m, cache, name, source, rival).db)
  {
    var (root, after) := Rooted(db, source, Tree.Entities, rival);
    LookIs(m, db, o, cache, name, source, rival);
    FoundOrMadeIs(View(after, o), m, cache, name, source, root.value);
    RootedSeesMore(db, o, source, rival);
  }

  /** A join among those the worker has drafted is an old one or the resolution's own. */
  lemma LookJoin(m: Matcher, db: Tables, o: Draft, cache: Option<Cache>, name: string, source: nat, rival: bool, a: nat, b: nat)
    requires Sound(m) && Inv(db) && DraftTrue(db, o) && source in db.docs && DraftJoins(db, o)
    requires var now := Resolved(View(db, o), m, cache, name, source, rival).db;
             Link(a, b, RbacCoref) in now.links - db.links
    ensures var r := Resolved(View(db, o), m, cache, name, source, rival);
            && IsEntity(r.db, b)
            && if Link(a, b, RbacCoref) in o.links then a in o.docs
               else r.outcome.Ok? && r.outcome.value.1 && a == Rooted(db, source, Tree.Entities, rival).1.next
  {
    var (root, after) := Rooted(db, source, Tree.Entities, rival);
    LookIs(m, db, o, cache, name, source, rival);
    RootedNotEntity(db, source, rival);
    FoundOrMadeJoins(View(after, o), m, cache, name, source, root.value, a, b);
    LookDocs(m, db, o, cache, name, source, rival);
  }

  /** An entity the worker sees afterwards is a draft, or was committed before. */
  lemma LookEntities(m: Matcher, db: Tables, o: Draft, cache: Option<Cache>, name: string, source: nat, rival: bool)
    requires Sound(m) && Inv(db) && DraftTrue(db, o) && source in db.docs
    ensures var now := Resolved(View(db, o), m, cache, name, source, rival).db;
            forall b :: IsEntity(now, b) ==> b in Drafts(db, now) || b in db.docs
  {
  }

  /** Both ends of such a join: one is a draft, and the other was seen by it. */
  ghost predicate JoinTrue(now: Tables, next: Draft, a: nat, b: nat) {
    a in next.docs && a in next.seen && (b in next.docs || b in next.seen[a]) && IsEntity(now, b)
  }

  lemma LookJoinDrafted(m: Matcher, db: Tables, o: Draft, cache: Option<Cache>, name: string, source: nat, rival: bool, a: nat, b: nat)
    requires Sound(m) && Inv(db) && DraftTrue(db, o) && source in db.docs && DraftJoins(db, o)
    requires Link(a, b, RbacCoref) in Resolved(View(db, o), m, cache, name, source, rival).db.links - db.links
    ensures var drafts := Drafts(db, Resolved(View(db, o), m, cache, name, source, rival).db);
            a in drafts && (Link(a, b, RbacCoref) !in o.links ==> a !in o.docs)
  {
    LookSplits(m, db, o, cache, name, source, rival, Resolving(0, 0, []));
    RootedGrows(db, o, source, rival);
    LookJoin(m, db, o, cache, name, source, rival, a, b);
  }

  lemma LookJoinSeen(m: Matcher, db: Tables, o: Draft, cache: Option<Cache>, name: string, source: nat, rival: bool, l: Resolving, a: nat, b: nat)
    requires Sound(m) && Inv(db) && DraftTrue(db, o) && source in db.docs && DraftJoins(db, o)
    requires Link(a, b, RbacCoref) in Resolved(View(db, o), m, cache, name, source, rival).db.links - db.links
    ensures var now := Resolved(View(db, o), m, cache, name, source, rival).db;
            JoinTrue(now, Drafted(db, o, now, l), a, b)
  {
    var now := Resolved(View(db, o), m, cache, name, source, rival).db;
    LookGrows(m, db, o, cache, name, source, rival, l);
    LookEntities(m, db, o, cache, name, source, rival);
    LookJoin(m, db, o, cache, name, source, rival, a, b);
    LookJoinDrafted(m, db, o, cache, name, source, rival, a, b);
    JoinSeen(db, o, Drafted(db, o, now, l), a, b);
  }

  lemma JoinsTrue(now: Tables, p: Tables, next: Draft)
    requires View(p, next) == now
    requires forall a: nat, b: nat :: Link(a, b, RbacCoref) in next.links ==> JoinTrue(now, next, a, b)
    ensures DraftJoins(p, next)
  {
    assert forall a: nat, b: nat :: Link(a, b, RbacCoref) in next.links ==> JoinTrue(now, next, a, b);
  }

  lemma LookJoins(m: Matcher, db: Tables, o: Draft, cache: Option<Cache>, name: string, source: nat, rival: bool, l: Resolving)
    requires Sound(m) && Inv(db) && DraftTrue(db, o) && source in db.docs && DraftJoins(db, o)
    ensures var now := Resolved(View(db, o), m, cache, name, source, rival).db;
            DraftJoins(Published(db, now), Drafted(db, o, now, l))
  {
    var now := Resolved(View(db, o), m, cache, name, source, rival).db;
    var next := Drafted(db, o, now, l);
    LookSplits(m, db, o, cache, name, source, rival, l);
    forall a: nat, b: nat | Link(a, b, RbacCoref) in next.links ensures JoinTrue(now, next, a, b) {
      LookJoinSeen(m, db, o, cache, name, source, rival, l, a, b);
    }
    JoinsTrue(now, Published(db, now), next);
  }

  lemma JoinSeen(db: Tables, o: Draft, next: Draft, a: nat, b: nat)
    requires DraftTrue(db, o) && DraftJoins(db, o) && DraftGrown(db, o, next)
    requires a in next.docs && (Link(a, b, RbacCoref) !in o.links ==> a !in o.docs)
    requires b in next.docs || b in db.docs
    ensures a in next.seen && (b in next.docs || b in next.seen[a])
  {
  }

  lemma TwinsSeen(v: Tables, u: Tables, lower: string -> string, a: nat, b: nat)
    requires SeesMore(v, u) && Twins(v, lower, a, b)
    ensures Twins(u, lower, a, b) && ParentOf(u, a) == ParentOf(v, a) && ParentOf(u, b) == ParentOf(v, b)
  {
  }

  lemma FewerPairs(v: Tables, u: Tables, lower: string -> string, pairs: set<(nat, nat)>, more: set<(nat, nat)>)
    requires SeesMore(v, u) && NoTwins(u, lower, more) && pairs <= more
    ensures NoTwins(v, lower, pairs)
  {
    forall e, b | (e, b) in pairs ensures !Twins(v, lower, e, b) {
      if Twins(v, lower, e, b) { TwinsSeen(v, u, lower, e, b); }
    }
  }

  /** The draft has grown by new ids at most, each with what was committed when it was drawn. */
  ghost predicate DraftGrown(db: Tables, o: Draft, next: Draft) {
    && o.docs.Keys <= next.docs.Keys && next.seen.Keys == next.docs.Keys
    && (forall d :: d in next.docs && d !in o.docs ==> d >= db.next)
    && forall d :: d in next.seen ==> next.seen[d] == if d in o.seen then o.seen[d] else db.docs.Keys
  }

  lemma LookGrows(m: Matcher, db: Tables, o: Draft, cache: Option<Cache>, name: string, source: nat, rival: bool, l: Resolving)
    requires Sound(m) && Inv(db) && DraftTrue(db, o) && source in db.docs
    ensures DraftGrown(db, o, Drafted(db, o, Resolved(View(db, o), m, cache, name, source, rival).db, l))
  {
    var now := Resolved(View(db, o), m, cache, name, source, rival).db;
    LookSplits(m, db, o, cache, name, source, rival, l);
    RootedFresh(db, source, Tree.Entities, rival);
    GrownIs(db, o, now, l);
  }

  lemma GrownIs(db: Tables, o: Draft, now: Tables, l: Resolving)
    requires DraftTrue(db, o) && o.docs.Keys <= Drafts(db, now).Keys
    requires forall d :: d in Drafts(db, now) && d !in o.docs ==> d >= db.next
    ensures DraftGrown(db, o, Drafted(db, o, now, l))
  {
  }

  lemma OverlapsGrow(db: Tables, p: Tables, o: Draft, next: Draft)
    requires Extends(db, p) && DraftTrue(db, o) && DraftGrown(db, o, next)
    ensures Overlaps(db, o) <= Overlaps(p, next)
  {
    forall e: nat, b: nat | (e, b) in Overlaps(db, o) ensures (e, b) in Overlaps(p, next) {
      assert Kept(db, p, b);
    }
  }

  lemma UnseenGrow(db: Tables, o: Draft, next: Draft, other: Draft)
    requires DraftTrue(db, o) && DraftTrue(db, other) && DraftGrown(db, o, next)
    requires Unseen(o, other) && Unseen(other, o) && SeenBelow(db, other)
    ensures Unseen(next, other) && Unseen(other, next)
  {
    forall e | e in next.seen ensures next.seen[e] !! other.docs.Keys {
      forall d | d in other.docs ensures d !in next.seen[e] {
        assert DraftDoc(db, d, other.docs[d]);
      }
    }
  }

  /** The worker that resolves keeps what it sees a clique, unless it is late already. */
  lemma LookCopies(m: Matcher, db: Tables, lower: string -> string, late: set<(nat, nat)>, o: Draft, cache: Option<Cache>, name: string, source: nat, rival: bool, l: Resolving)
    requires Sound(m) && ByName(m, lower) && Complete(m, lower)
    requires Inv(db) && DraftTrue(db, o) && source in db.docs && DraftCopies(db, lower, late, o)
    ensures var now := Resolved(View(db, o), m, cache, name, source, rival).db;
            DraftCopies(Published(db, now), lower, late, Drafted(db, o, now, l))
  {
    var v, now := View(db, o), Resolved(View(db, o), m, cache, name, source, rival).db;
    var p, next := Published(db, now), Drafted(db, o, now, l);
    LookSplits(m, db, o, cache, name, source, rival, l);
    LookJoins(m, db, o, cache, name, source, rival, l);
    PublishedGrows(m, db, o, cache, name, source, rival);
    SeenStaysBelow(db, o, now, l);
    if NoTwins(now, lower, late + Overlaps(p, next)) {
      LookDocs(m, db, o, cache, name, source, rival);
      LookGrows(m, db, o, cache, name, source, rival, l);
      OverlapsGrow(db, p, o, next);
      FewerPairs(v, now, lower, late + Overlaps(db, o), late + Overlaps(p, next));
      ViewTrue(db, o);
      assert source in v.docs;
      ResolveKeepsClique(v, m, lower, cache, name, source, rival);
    }
  }

  lemma SeenStaysBelow(db: Tables, o: Draft, now: Tables, l: Resolving)
    requires Sane(db) && SeenBelow(db, o) && now.next >= db.next
    ensures SeenBelow(Published(db, now), Drafted(db, o, now, l))
  {
  }

  // ----- a commit ---------------------------------------------------------------------------------

  /** Nothing one worker drafted is a copy of what the other did. */
  ghost predicate NoCrossTwins(db: Tables, lower: string -> string, a: Draft, b: Draft) {
    forall d, e :: d in a.docs && e in b.docs ==> !Twins(db, lower, d, e) && !Twins(db, lower, e, d)
  }

  lemma CorefOfUnion(db: Tables, o: Draft, other: Draft, a: nat, b: nat)
    ensures Coref(View(View(db, o), other), a, b) <==> Coref(View(db, o), a, b) || Coref(View(db, other), a, b)
  {
  }

  /** Two copies that both workers see together, one of the two sees. */
  lemma {:induction false} TwinsOfUnion(db: Tables, lower: string -> string, o: Draft, other: Draft, a: nat, b: nat)
    requires DraftTrue(db, o) && DraftTrue(db, other) && Apart(o, other)
    requires NoCrossTwins(View(View(db, o), other), lower, o, other) && Twins(View(View(db, o), other), lower, a, b)
    ensures (a !in other.docs && b !in other.docs && Twins(View(db, o), lower, a, b))
            || (a !in o.docs && b !in o.docs && Twins(View(db, other), lower, a, b))
  {
  }

  lemma {:induction false} UnionSees(db: Tables, o: Draft, other: Draft)
    requires DraftTrue(db, o) && DraftTrue(db, other) && Apart(o, other)
    ensures SeesMore(View(db, o), View(View(db, o), other)) && SeesMore(View(db, other), View(View(db, o), other))
  {
    forall d | d in other.docs ensures d !in db.docs && d !in o.docs {
      assert DraftDoc(db, d, other.docs[d]);
    }
    forall d | d in o.docs ensures d !in db.docs && d !in other.docs {
      assert DraftDoc(db, d, o.docs[d]);
    }
  }

  /** One direction of a join is as the worker that sees both ends has it. */
  lemma UnionJoin(db: Tables, o: Draft, other: Draft, a: nat, b: nat)
    requires DraftJoins(db, o) && DraftJoins(db, other)
    ensures a !in other.docs ==> (Coref(View(View(db, o), other), a, b) <==> Coref(View(db, o), a, b))
    ensures a !in o.docs ==> (Coref(View(View(db, o), other), a, b) <==> Coref(View(db, other), a, b))
  {
    CorefOfUnion(db, o, other, a, b);
  }

  /** Two cliques with no copy across are one. */
  lemma UnionClique(db: Tables, lower: string -> string, o: Draft, other: Draft)
    requires DraftTrue(db, o) && DraftTrue(db, other) && Apart(o, other)
    requires DraftJoins(db, o) && DraftJoins(db, other)
    requires Clique(View(db, o), lower) && Clique(View(db, other), lower)
    requires NoCrossTwins(View(View(db, o), other), lower, o, other)
    ensures Clique(View(View(db, o), other), lower)
  {
    var x, y, u := View(db, o), View(db, other), View(View(db, o), other);
    UnionSees(db, o, other);
    forall a, b | Twins(u, lower, a, b) ensures ParentOf(u, a) != ParentOf(u, b) && (Coref(u, a, b) <==> !Coref(u, b, a)) {
      TwinsOfUnion(db, lower, o, other, a, b);
      UnionJoin(db, o, other, a, b);
      UnionJoin(db, o, other, b, a);
      if Twins(x, lower, a, b) { TwinsSeen(x, u, lower, a, b); } else { TwinsSeen(y, u, lower, a, b); }
    }
    forall a, b | Coref(u, a, b) ensures Twins(u, lower, a, b) {
      CorefOfUnion(db, o, other, a, b);
      if Coref(x, a, b) { TwinsSeen(x, u, lower, a, b); } else { TwinsSeen(y, u, lower, a, b); }
    }
  }

  /** What another worker has drafted it drafted without seeing what is committed now. */
  lemma CrossOverlaps(db: Tables, o: Draft, other: Draft, e: nat, b: nat)
    requires DraftTrue(db, o) && DraftTrue(db, other) && Unseen(other, o) && e in other.docs && b in o.docs
    ensures (e, b) in Overlaps(View(db, o), other)
  {
    assert DraftDoc(db, b, o.docs[b]);
  }

  lemma OverlapsAfterCommit(db: Tables, o: Draft, other: Draft)
    requires DraftTrue(db, o)
    ensures Overlaps(db, other) <= Overlaps(View(db, o), other)
  {
    forall e: nat, b: nat | (e, b) in Overlaps(db, other) ensures (e, b) in Overlaps(View(db, o), other) {
      assert b !in o.docs;
    }
  }

  lemma CommitClique(db: Tables, lower: string -> string, late: set<(nat, nat)>, o: Draft, other: Draft)
    requires DraftTrue(db, o) && DraftTrue(db, other) && Apart(o, other) && Unseen(other, o)
    requires DraftCopies(db, lower, late, o) && DraftCopies(db, lower, late, other)
    ensures CliqueUnless(View(db, o), lower, late + Overlaps(db, o), other)
  {
    var x, y, u := View(db, o), View(db, other), View(View(db, o), other);
    var pairs := late + Overlaps(db, o) + Overlaps(View(db, o), other);
    if NoTwins(u, lower, pairs) {
      UnionSees(db, o, other);
      OverlapsAfterCommit(db, o, other);
      FewerPairs(x, u, lower, late + Overlaps(db, o), pairs);
      FewerPairs(y, u, lower, late + Overlaps(db, other), pairs);
      forall d, e | d in o.docs && e in other.docs ensures !Twins(u, lower, d, e) && !Twins(u, lower, e, d) {
        CrossOverlaps(db, o, other, e, d);
        assert (e, d) in pairs;
      }
      UnionClique(db, lower, o, other);
    }
  }

  lemma CommitDraftCopies(db: Tables, lower: string -> string, late: set<(nat, nat)>, o: Draft, other: Draft)
    requires DraftTrue(db, o) && DraftTrue(db, other) && Apart(o, other) && Unseen(other, o)
    requires DraftCopies(db, lower, late, o) && DraftCopies(db, lower, late, other)
    ensures DraftCopies(View(db, o), lower, late + Overlaps(db, o), other)
  {
    CommitClique(db, lower, late, o, other);
    UnionSees(db, o, other);
    assert forall b :: IsEntity(View(db, other), b) ==> IsEntity(View(View(db, o), other), b);
  }

  lemma CommittedCopies(db: Tables, lower: string -> string, late: set<(nat, nat)>, o: Draft)
    requires DraftCopies(db, lower, late, o)
    ensures DraftCopies(View(db, o), lower, late + Overlaps(db, o), NoDraft)
  {
    var after := View(db, o);
    assert View(after, NoDraft) == after;
    assert Overlaps(after, NoDraft) == {};
    assert late + Overlaps(db, o) + {} == late + Overlaps(db, o);
  }

  lemma CommitJoins(db: Tables, o: Draft)
    requires DraftTrue(db, o) && JoinsInside(db) && DraftJoins(db, o)
    ensures JoinsInside(View(db, o))
  {
    var after := View(db, o);
    forall a, b | Coref(after, a, b) ensures IsEntity(after, a) && IsEntity(after, b) {
      if Coref(db, a, b) {
        assert a !in o.docs && b !in o.docs;
      } else {
        assert Link(a, b, RbacCoref) in o.links;
        assert DraftDoc(db, a, o.docs[a]);
      }
    }
  }

  /** What was committed late is not joined to what it was created without seeing. */
  lemma CommitLate(db: Tables, late: set<(nat, nat)>, o: Draft)
    requires DraftTrue(db, o) && JoinsInside(db) && DraftJoins(db, o) && LateTrue(db, late)
    ensures LateTrue(View(db, o), late + Overlaps(db, o))
  {
    var after := View(db, o);
    forall e: nat, b: nat | (e, b) in late + Overlaps(db, o)
      ensures IsEntity(after, e) && IsEntity(after, b) && !Coref(after, e, b) && !Coref(after, b, e)
    {
      if (e, b) in late {
        assert IsEntity(db, e) && IsEntity(db, b);
        assert e !in o.docs && b !in o.docs;
      } else {
        assert DraftDoc(db, e, o.docs[e]) && IsEntity(db, b);
        assert b !in o.docs;
        assert !Coref(db, e, b) && !Coref(db, b, e);
      }
    }
  }

  // ----- every run --------------------------------------------------------------------------------

  lemma NextSameEntities(db: Tables, after: Tables, next: nat)
    requires SameEntities(db, after)
    ensures SameEntities(db, after.(next := next))
  {
    var u := after.(next := next);
    assert forall d: nat :: IsEntity(u, d) <==> IsEntity(after, d);
    assert forall a: nat, b: nat :: Coref(u, a, b) <==> Coref(after, a, b);
  }

  lemma PublishedSameEntities(m: Matcher, db: Tables, o: Draft, cache: Option<Cache>, name: string, source: nat, rival: bool)
    requires Sound(m) && Inv(db) && DraftTrue(db, o) && source in db.docs
    ensures var p := Published(db, Resolved(View(db, o), m, cache, name, source, rival).db);
            SameEntities(db, p) && p.next >= db.next
  {
    var after := Rooted(db, source, Tree.Entities, rival).1;
    var now := Resolved(View(db, o), m, cache, name, source, rival).db;
    LookSplits(m, db, o, cache, name, source, rival, Resolving(0, 0, []));
    MintSameEntities(db, source, Tree.Entities, rival);
    RootedFresh(db, source, Tree.Entities, rival);
    NextSameEntities(db, after, now.next);
  }

  /** Only one worker's draft is new. */
  lemma OneCopies(s: State, t: State, lower: string -> string, w: nat)
    requires CopiesTrue(s, lower) && t.db == s.db && t.late == s.late
    requires forall v: nat :: v != w ==> DraftOf(t.drafts, v) == DraftOf(s.drafts, v)
    requires DraftCopies(t.db, lower, t.late, DraftOf(t.drafts, w))
    requires forall v: nat :: v != w ==>
               Unseen(DraftOf(t.drafts, w), DraftOf(s.drafts, v)) && Unseen(DraftOf(s.drafts, v), DraftOf(t.drafts, w))
    ensures CopiesTrue(t, lower)
  {
    forall v: nat ensures DraftCopies(t.db, lower, t.late, DraftOf(t.drafts, v)) {
      assert DraftCopies(s.db, lower, s.late, DraftOf(s.drafts, v));
    }
    StillUnseen(s.drafts, t.drafts, w);
  }

  lemma StillUnseen(drafts: map<nat, Draft>, after: map<nat, Draft>, w: nat)
    requires AllUnseen(drafts) && forall v: nat :: v != w ==> DraftOf(after, v) == DraftOf(drafts, v)
    requires forall v: nat :: v != w ==>
               Unseen(DraftOf(after, w), DraftOf(drafts, v)) && Unseen(DraftOf(drafts, v), DraftOf(after, w))
    ensures AllUnseen(after)
  {
    forall u: nat, v: nat | u != v ensures Unseen(DraftOf(after, u), DraftOf(after, v)) {
      assert Unseen(DraftOf(drafts, u), DraftOf(drafts, v));
    }
  }

  lemma {:induction false} AfterLookCopies(s: State, w: nat, source: nat, r: Resolution, lower: string -> string)
    requires StateTrue(s) && CopiesTrue(s, lower) && source in s.db.docs && r.outcome.Ok?
    requires StateTrue(AfterLook(s, w, source, r)) && StateTrue(s.(db := Published(s.db, r.db)))
    requires SameEntities(s.db, Published(s.db, r.db)) && Published(s.db, r.db).next >= s.db.next
    requires var next := Drafted(s.db, DraftOf(s.drafts, w), r.db, Resolving(source, r.outcome.value.0, KeyOf(s.db, source)));
             && DraftCopies(Published(s.db, r.db), lower, s.late, next)
             && forall v: nat :: v != w ==> Unseen(next, DraftOf(s.drafts, v)) && Unseen(DraftOf(s.drafts, v), next)
    ensures CopiesTrue(AfterLook(s, w, source, r), lower)
  {
    SameCopies(s, Published(s.db, r.db), lower);
    OneCopies(s.(db := Published(s.db, r.db)), AfterLook(s, w, source, r), lower, w);
  }

  lemma ResolveUnseen(m: Matcher, s: State, lower: string -> string, w: nat, next: Draft, v: nat)
    requires StateTrue(s) && CopiesTrue(s, lower) && v != w && DraftGrown(s.db, DraftOf(s.drafts, w), next)
    ensures Unseen(next, DraftOf(s.drafts, v)) && Unseen(DraftOf(s.drafts, v), next)
  {
    var o, other := DraftOf(s.drafts, w), DraftOf(s.drafts, v);
    assert WorkerTrue(s.db, o, CacheOf(s.caches, w)) && WorkerTrue(s.db, other, CacheOf(s.caches, v));
    assert DraftCopies(s.db, lower, s.late, other);
    assert Unseen(o, other) && Unseen(other, o);
    UnseenGrow(s.db, o, next, other);
  }

  lemma {:induction false} ResolveCopies(m: Matcher, s: State, lower: string -> string, w: nat, given: Option<Cache>, name: string, source: nat, rival: bool)
    requires Sound(m) && ByName(m, lower) && Complete(m, lower) && StateTrue(s) && CopiesTrue(s, lower)
    requires source in s.db.docs && (given.Some? ==> given.value == CacheOf(s.caches, w))
    ensures CopiesTrue(AfterLook(s, w, source, Resolved(View(s.db, DraftOf(s.drafts, w)), m, given, name, source, rival)), lower)
  {
    var o := DraftOf(s.drafts, w);
    var r := Resolved(View(s.db, o), m, given, name, source, rival);
    assert WorkerTrue(s.db, o, CacheOf(s.caches, w)) && DraftCopies(s.db, lower, s.late, o);
    LookIsTrue(m, s, w, given, name, source, rival);
    AfterLookTrue(s, w, source, r);
    GrownState(s, Published(s.db, r.db));
    var l := Resolving(source, r.outcome.value.0, KeyOf(s.db, source));
    PublishedSameEntities(m, s.db, o, given, name, source, rival);
    LookCopies(m, s.db, lower, s.late, o, given, name, source, rival, l);
    LookGrows(m, s.db, o, given, name, source, rival, l);
    forall v: nat | v != w
      ensures Unseen(Drafted(s.db, o, r.db, l), DraftOf(s.drafts, v)) && Unseen(DraftOf(s.drafts, v), Drafted(s.db, o, r.db, l))
    {
      ResolveUnseen(m, s, lower, w, Drafted(s.db, o, r.db, l), v);
    }
    AfterLookCopies(s, w, source, r, lower);
  }

  lemma CommitTables(db: Tables, lower: string -> string, late: set<(nat, nat)>, o: Draft)
    requires DraftTrue(db, o) && JoinsInside(db) && LateTrue(db, late) && DraftCopies(db, lower, late, o)
    ensures var after, now := View(db, o), late + Overlaps(db, o);
            JoinsInside(after) && LateTrue(after, now) && DraftCopies(after, lower, now, NoDraft)
  {
    CommitJoins(db, o);
    CommitLate(db, late, o);
    CommittedCopies(db, lower, late, o);
  }

  lemma {:induction false} CommitCopies(m: Matcher, s: State, lower: string -> string, w: nat)
    requires Sound(m) && StateTrue(s) && CopiesTrue(s, lower)
    ensures CopiesTrue(Step(m, s, Commit(w)), lower)
  {
    var o, t := DraftOf(s.drafts, w), Step(m, s, Commit(w));
    assert WorkerTrue(s.db, o, CacheOf(s.caches, w)) && DraftCopies(s.db, lower, s.late, o);
    CommitTables(s.db, lower, s.late, o);
    CommitWorkers(s, lower, w);
    StillUnseen(s.drafts, t.drafts, w);
  }

  lemma {:induction false} CommitWorkers(s: State, lower: string -> string, w: nat)
    requires StateTrue(s) && CopiesTrue(s, lower)
    ensures var o := DraftOf(s.drafts, w);
            WorkersCopies(View(s.db, o), lower, s.late + Overlaps(s.db, o), s.drafts[w := NoDraft])
  {
    var o, drafts := DraftOf(s.drafts, w), s.drafts[w := NoDraft];
    assert DraftCopies(s.db, lower, s.late, o);
    CommittedCopies(s.db, lower, s.late, o);
    forall v: nat ensures DraftCopies(View(s.db, o), lower, s.late + Overlaps(s.db, o), DraftOf(drafts, v)) {
      if v != w { CommitOther(s, lower, w, v); }
    }
  }

  lemma CommitOther(s: State, lower: string -> string, w: nat, v: nat)
    requires StateTrue(s) && CopiesTrue(s, lower) && v != w
    ensures DraftCopies(View(s.db, DraftOf(s.drafts, w)), lower, s.late + Overlaps(s.db, DraftOf(s.drafts, w)), DraftOf(s.drafts, v))
  {
    var o, other := DraftOf(s.drafts, w), DraftOf(s.drafts, v);
    assert WorkerTrue(s.db, o, CacheOf(s.caches, w)) && WorkerTrue(s.db, other, CacheOf(s.caches, v));
    assert Apart(o, other) && Unseen(other, o);
    assert DraftCopies(s.db, lower, s.late, o) && DraftCopies(s.db, lower, s.late, other);
    CommitDraftCopies(s.db, lower, s.late, o, other);
  }

  lemma {:induction false} StepKeepsCopies(m: Matcher, lower: string -> string, s: State, e: Event)
    requires Sound(m) && ByName(m, lower) && Complete(m, lower)
    requires StateTrue(s) && CopiesTrue(s, lower) && Enabled(s, e)
    ensures CopiesTrue(Step(m, s, e), lower)
  {
    StepKeeps(m, s, e);
    match e
    case Elsewhere(after) =>
      AsideSameEntities(s.db, after);
      SameCopies(s, after, lower);
    case Mint(document, tree, rival) =>
      MintSameEntities(s.db, document, tree, rival);
      RootedFresh(s.db, document, tree, rival);
      SameCopies(s, Rooted(s.db, document, tree, rival).1, lower);
    case Begin(w) =>
    case Resolve(w, cached, name, source, rival) =>
      if source in s.db.docs {
        StepLooks(m, s, w, cached, name, source, rival);
        ResolveCopies(m, s, lower, w, if cached then Some(CacheOf(s.caches, w)) else None, name, source, rival);
      }
    case Commit(w) => CommitCopies(m, s, lower, w);
    case Rollback(w) => OneCopies(s, Step(m, s, e), lower, w);
  }

  lemma {:induction false} RunKeepsCopies(m: Matcher, lower: string -> string, s: State, events: seq<Event>, t: State)
    requires Sound(m) && ByName(m, lower) && Complete(m, lower)
    requires StateTrue(s) && CopiesTrue(s, lower) && Run(m, s, events, t)
    ensures CopiesTrue(t, lower)
    decreases |events|
  {
    if |events| > 0 {
      StepKeeps(m, s, events[0]);
      StepKeepsCopies(m, lower, s, events[0]);
      RunKeepsCopies(m, lower, Step(m, s, events[0]), events[1..], t);
    }
  }

  /** Nothing is uncommitted and nothing was late. */
  ghost predicate Quiet(s: State) {
    s.drafts == map[] && s.late == {}
  }

  lemma QuietCopies(s: State, lower: string -> string)
    requires StateTrue(s) && Quiet(s) && Clique(s.db, lower)
    ensures CopiesTrue(s, lower)
  {
    assert View(s.db, NoDraft) == s.db;
    assert JoinsInside(s.db) by {
      assert forall a, b :: Coref(s.db, a, b) ==> Twins(s.db, lower, a, b);
    }
  }

  /** After any run of any transactions, in whatever order its mentions came, the copies of
      each name form a clique with one edge for each pair, exactly when no copy was committed
      late: created by a worker that did not yet see another copy, and committed after it. */
  lemma {:induction false} CopiesFormClique(m: Matcher, lower: string -> string, s: State, events: seq<Event>, t: State)
    requires Sound(m) && ByName(m, lower) && Complete(m, lower)
    requires StateTrue(s) && Quiet(s) && Clique(s.db, lower) && Run(m, s, events, t)
    ensures Clique(t.db, lower) <==> NoTwins(t.db, lower, t.late)
  {
    QuietCopies(s, lower);
    RunKeepsCopies(m, lower, s, events, t);
    assert View(t.db, NoDraft) == t.db && Overlaps(t.db, NoDraft) == {};
    assert t.late + {} == t.late;
    forall e, b | Clique(t.db, lower) && (e, b) in t.late ensures !Twins(t.db, lower, e, b) {
      assert !Coref(t.db, e, b) && !Coref(t.db, b, e);
    }
  }

  // ----- no two transactions at once ----------------------------------------------------------------

  /** A worker resolves only while no other has an entity it has not committed. */
  ghost predicate Serial(m: Matcher, s: State, events: seq<Event>)
    requires Sound(m)
    decreases |events|
  {
    |events| > 0 && Enabled(s, events[0]) ==>
      && (events[0].Resolve? ==> forall v: nat :: v != events[0].worker ==> DraftOf(s.drafts, v).docs == map[])
      && Serial(m, Step(m, s, events[0]), events[1..])
  }

  /** At most one worker has an uncommitted entity, and it saw every entity there is. */
  ghost predicate Alone(s: State) {
    && s.late == {}
    && (forall w {:trigger DraftOf(s.drafts, w)} :: Overlaps(s.db, DraftOf(s.drafts, w)) == {})
    && OneDrafts(s.drafts)
  }

  ghost predicate OneDrafts(drafts: map<nat, Draft>) {
    forall v, w {:trigger DraftOf(drafts, v), DraftOf(drafts, w)} :: v != w ==>
      DraftOf(drafts, v).docs == map[] || DraftOf(drafts, w).docs == map[]
  }

  lemma SameAlone(s: State, after: Tables)
    requires StateTrue(s) && StateTrue(s.(db := after)) && SameEntities(s.db, after) && Alone(s)
    ensures Alone(s.(db := after))
  {
    forall w: nat ensures Overlaps(after, DraftOf(s.drafts, w)) == {} {
      assert WorkerTrue(s.db, DraftOf(s.drafts, w), CacheOf(s.caches, w));
      assert WorkerTrue(after, DraftOf(s.drafts, w), CacheOf(s.caches, w));
      ViewSameEntities(s.db, after, DraftOf(s.drafts, w));
    }
  }

  /** The entities everyone sees are those a resolution saw, so what it drafts missed none. */
  lemma LookMissesNone(m: Matcher, db: Tables, o: Draft, cache: Option<Cache>, name: string, source: nat, rival: bool, l: Resolving)
    requires Sound(m) && Inv(db) && DraftTrue(db, o) && source in db.docs && Overlaps(db, o) == {}
    ensures var now := Resolved(View(db, o), m, cache, name, source, rival).db;
            Overlaps(Published(db, now), Drafted(db, o, now, l)) == {}
  {
    var now := Resolved(View(db, o), m, cache, name, source, rival).db;
    PublishedSameEntities(m, db, o, cache, name, source, rival);
    LookGrows(m, db, o, cache, name, source, rival, l);
    NoneMissed(db, Published(db, now), o, Drafted(db, o, now, l));
  }

  lemma NoneMissed(db: Tables, p: Tables, o: Draft, next: Draft)
    requires SameEntities(db, p) && DraftGrown(db, o, next) && Overlaps(db, o) == {} && DraftTrue(db, o)
    ensures Overlaps(p, next) == {}
  {
    forall e: nat, b: nat ensures (e, b) !in Overlaps(p, next) {
      assert IsEntity(db, b) <==> IsEntity(p, b);
      assert (e, b) !in Overlaps(db, o);
    }
  }

  lemma NothingDrafted(db: Tables, o: Draft)
    requires o.docs == map[]
    ensures Overlaps(db, o) == {}
  {
  }

  lemma AfterLookAlone(s: State, w: nat, source: nat, r: Resolution)
    requires Alone(s) && source in s.db.docs && r.outcome.Ok?
    requires forall v: nat :: v != w ==> DraftOf(s.drafts, v).docs == map[]
    requires Overlaps(Published(s.db, r.db), Drafted(s.db, DraftOf(s.drafts, w), r.db,
               Resolving(source, r.outcome.value.0, KeyOf(s.db, source)))) == {}
    ensures Alone(AfterLook(s, w, source, r))
  {
    var t := AfterLook(s, w, source, r);
    forall v: nat ensures Overlaps(t.db, DraftOf(t.drafts, v)) == {} {
      if v != w { NothingDrafted(t.db, DraftOf(s.drafts, v)); }
    }
    assert forall v: nat :: v != w ==> DraftOf(t.drafts, v) == DraftOf(s.drafts, v);
  }

  lemma ResolveAlone(m: Matcher, s: State, w: nat, given: Option<Cache>, name: string, source: nat, rival: bool)
    requires Sound(m) && StateTrue(s) && Alone(s) && source in s.db.docs && (given.Some? ==> given.value == CacheOf(s.caches, w))
    requires forall v: nat :: v != w ==> DraftOf(s.drafts, v).docs == map[]
    ensures Alone(AfterLook(s, w, source, Resolved(View(s.db, DraftOf(s.drafts, w)), m, given, name, source, rival)))
  {
    var o := DraftOf(s.drafts, w);
    var r := Resolved(View(s.db, o), m, given, name, source, rival);
    assert WorkerTrue(s.db, o, CacheOf(s.caches, w)) && Overlaps(s.db, o) == {};
    LookIsTrue(m, s, w, given, name, source, rival);
    LookMissesNone(m, s.db, o, given, name, source, rival, Resolving(source, r.outcome.value.0, KeyOf(s.db, source)));
    AfterLookAlone(s, w, source, r);
  }

  lemma CommitMissesNone(db: Tables, o: Draft, other: Draft)
    requires o.docs == map[] || other.docs == map[]
    requires Overlaps(db, other) == {}
    ensures Overlaps(View(db, o), other) == {}
  {
    if o.docs == map[] {
      assert View(db, o).docs == db.docs;
      forall e: nat, b: nat ensures (e, b) !in Overlaps(View(db, o), other) {
        assert (e, b) !in Overlaps(db, other);
      }
    }
  }

  lemma {:induction false} CommitAlone(m: Matcher, s: State, w: nat)
    requires Sound(m) && StateTrue(s) && Alone(s)
    ensures Alone(Step(m, s, Commit(w)))
  {
    var o, t := DraftOf(s.drafts, w), Step(m, s, Commit(w));
    assert Overlaps(s.db, o) == {};
    NothingDrafted(t.db, NoDraft);
    forall v: nat ensures Overlaps(t.db, DraftOf(t.drafts, v)) == {} {
      if v != w { CommitMissesNone(s.db, o, DraftOf(s.drafts, v)); }
    }
    assert forall v: nat :: v != w ==> DraftOf(t.drafts, v) == DraftOf(s.drafts, v);
  }

  lemma {:induction false} StepKeepsAlone(m: Matcher, s: State, e: Event)
    requires Sound(m) && StateTrue(s) && Alone(s) && Enabled(s, e)
    requires e.Resolve? ==> forall v: nat :: v != e.worker ==> DraftOf(s.drafts, v).docs == map[]
    ensures Alone(Step(m, s, e))
  {
    match e
    case Elsewhere(after) =>
      AsideState(s, after);
      AsideSameEntities(s.db, after);
      SameAlone(s, after);
    case Mint(document, tree, rival) =>
      StepKeeps(m, s, e);
      MintSameEntities(s.db, document, tree, rival);
      SameAlone(s, Rooted(s.db, document, tree, rival).1);
    case Begin(w) =>
    case Resolve(w, cached, name, source, rival) =>
      if source in s.db.docs {
        StepLooks(m, s, w, cached, name, source, rival);
        ResolveAlone(m, s, w, if cached then Some(CacheOf(s.caches, w)) else None, name, source, rival);
      }
    case Commit(w) => CommitAlone(m, s, w);
    case Rollback(w) =>
      assert forall v: nat :: v != w ==> DraftOf(Step(m, s, e).drafts, v) == DraftOf(s.drafts, v);
  }

  lemma {:induction false} SerialStaysAlone(m: Matcher, s: State, events: seq<Event>, t: State)
    requires Sound(m) && StateTrue(s) && Alone(s) && Run(m, s, events, t) && Serial(m, s, events)
    ensures t.late == {}
    decreases |events|
  {
    if |events| > 0 {
      StepKeeps(m, s, events[0]);
      StepKeepsAlone(m, s, events[0]);
      SerialStaysAlone(m, Step(m, s, events[0]), events[1..], t);
    }
  }

  /** When no worker resolves while another has uncommitted entities, the copies of each name
      form a clique, whatever the order of creation. */
  lemma SerialFormsClique(m: Matcher, lower: string -> string, s: State, events: seq<Event>, t: State)
    requires Sound(m) && ByName(m, lower) && Complete(m, lower)
    requires StateTrue(s) && Quiet(s) && Clique(s.db, lower) && Run(m, s, events, t) && Serial(m, s, events)
    ensures Clique(t.db, lower)
  {
    CopiesFormClique(m, lower, s, events, t);
    SerialStaysAlone(m, s, events, t);
  }

  // ----- two workers at once ------------------------------------------------------------------------

  /** The document's root is there, and holds no entity of this name. */
  ghost predicate NewUnder(db: Tables, lower: string -> string, name: string, source: nat, root: nat) {
    && source in db.docs && name != ""
    && (Tree.Entities, KeyText(KeyOf(db, source))) in db.roots && db.roots[(Tree.Entities, KeyText(KeyOf(db, source)))] == root
    && forall d :: IsEntity(db, d) && ParentOf(db, d) == root ==> lower(db.docs[d].title) != lower(name)
  }

  lemma NoneFound(db: Tables, m: Matcher, lower: string -> string, name: string, source: nat, root: nat)
    requires Sound(m) && ByName(m, lower) && NewUnder(db, lower, name, source, root)
    ensures AllEntities(db, m.query(db, name, {root})) && Best(db, m, name, m.query(db, name, {root})).None?
  {
    SoundQuery(m, db, name, {root});
    BestIs(db, m, name, m.query(db, name, {root}));
  }

  lemma {:induction false} FindsNone(m: Matcher, lower: string -> string, db: Tables, name: string, source: nat, root: nat, rival: bool)
    requires Sound(m) && ByName(m, lower) && Inv(db) && NewUnder(db, lower, name, source, root)
    ensures var r := Resolved(View(db, NoDraft), m, None, name, source, rival);
            r.outcome == Ok((db.next, true)) && Rooted(db, source, Tree.Entities, rival) == (Ok(root), db)
  {
    assert View(db, NoDraft) == db;
    NoneFound(db, m, lower, name, source, root);
    LookIs(m, db, NoDraft, None, name, source, rival);
  }

  /** A worker that finds no such entity drafts one. */
  lemma LookMakes(m: Matcher, lower: string -> string, db: Tables, name: string, source: nat, root: nat, rival: bool, l: Resolving)
    requires Sound(m) && ByName(m, lower) && Inv(db) && NewUnder(db, lower, name, source, root)
    ensures var r := Resolved(View(db, NoDraft), m, None, name, source, rival);
            && r.outcome.Ok? && Published(db, r.db) == db.(next := db.next + 1)
            && Drafted(db, NoDraft, r.db, l).docs == map[db.next := Doc([root], name, Entity)]
            && Drafted(db, NoDraft, r.db, l).seen == map[db.next := db.docs.Keys]
  {
    FindsNone(m, lower, db, name, source, root, rival);
    LookSplits(m, db, NoDraft, None, name, source, rival, l);
    assert map[][db.next := Doc([root], name, Entity)] == map[db.next := Doc([root], name, Entity)];
  }

  /** One worker's look, at the state. */
  lemma WorkerMakes(m: Matcher, lower: string -> string, s: State, w: nat, name: string, source: nat, root: nat, rival: bool)
    requires Sound(m) && ByName(m, lower) && Inv(s.db) && NewUnder(s.db, lower, name, source, root) && DraftOf(s.drafts, w) == NoDraft
    ensures var t := Step(m, s, Resolve(w, false, name, source, rival));
            && t.db == s.db.(next := s.db.next + 1) && t.late == s.late
            && t.drafts == s.drafts[w := DraftOf(t.drafts, w)]
            && DraftOf(t.drafts, w).docs == map[s.db.next := Doc([root], name, Entity)]
            && DraftOf(t.drafts, w).seen == map[s.db.next := s.db.docs.Keys]
  {
    StepLooks(m, s, w, false, name, source, rival);
    var r := Resolved(View(s.db, NoDraft), m, None, name, source, rival);
    LookMakes(m, lower, s.db, name, source, root, rival, Resolving(0, 0, []));
    LookMakes(m, lower, s.db, name, source, root, rival, Resolving(source, r.outcome.value.0, KeyOf(s.db, source)));
  }

  /** The other worker's look finds no more than the first one's did. */
  lemma StillNew(db: Tables, lower: string -> string, name: string, source: nat, root: nat)
    requires Inv(db) && NewUnder(db, lower, name, source, root)
    ensures Inv(db.(next := db.next + 1)) && NewUnder(db.(next := db.next + 1), lower, name, source, root)
  {
    LinksAndIds(db, db.links, db.next + 1);
    var after := db.(next := db.next + 1);
    assert KeyOf(after, source) == KeyOf(db, source);
    assert forall d: nat :: IsEntity(after, d) ==> IsEntity(db, d);
  }

  /** Two workers commit what they drafted. */
  lemma BothCommitted(m: Matcher, s: State, v: nat, w: nat)
    requires Sound(m) && v != w
    ensures var t := Step(m, Step(m, s, Commit(v)), Commit(w));
            t.db.docs == s.db.docs + DraftOf(s.drafts, v).docs + DraftOf(s.drafts, w).docs
  {
    assert DraftOf(Step(m, s, Commit(v)).drafts, w) == DraftOf(s.drafts, w);
  }

  /** Two different entities of one name under one root. */
  ghost predicate TwinsUnder(db: Tables, lower: string -> string, root: nat, a: nat, b: nat) {
    Twins(db, lower, a, b) && ParentOf(db, a) == root && ParentOf(db, b) == root
  }

  lemma TwinsByName(db: Tables, lower: string -> string, name: string, root: nat, a: nat, b: nat)
    requires name != "" && a != b && a in db.docs && b in db.docs
    requires db.docs[a] == Doc([root], name, Entity) && db.docs[b] == Doc([root], name, Entity)
    ensures TwinsUnder(db, lower, root, a, b) && !Clique(db, lower)
  {
    assert Twins(db, lower, a, b);
  }

  /** The two drafts, one after the other, of workers that see neither. */
  lemma {:induction false} TwoDrafts(m: Matcher, lower: string -> string, s: State, first: State, v: nat, w: nat, name: string, b: nat, root: nat)
    requires Sound(m) && ByName(m, lower) && v != w && Quiet(s) && Inv(s.db)
    requires first.db == s.db.(next := s.db.next + 1) && first.drafts == s.drafts[v := DraftOf(first.drafts, v)]
    requires DraftOf(first.drafts, v).docs == map[s.db.next := Doc([root], name, Entity)]
    requires NewUnder(s.db, lower, name, b, root)
    ensures var both := Step(m, first, Resolve(w, false, name, b, false));
            BothDraft(both, v, w, name, root, s.db.next)
  {
    StillNew(s.db, lower, name, b, root);
    WorkerMakes(m, lower, first, w, name, b, root, false);
    var both := Step(m, first, Resolve(w, false, name, b, false));
    assert DraftOf(both.drafts, v) == DraftOf(first.drafts, v);
  }

  /** Two workers have drafted, unseen by one another, the same name under the same root. */
  ghost predicate BothDraft(both: State, v: nat, w: nat, name: string, root: nat, e: nat) {
    var docs := both.db.docs + DraftOf(both.drafts, v).docs + DraftOf(both.drafts, w).docs;
    && e in docs && docs[e] == Doc([root], name, Entity)
    && e + 1 in docs && docs[e + 1] == Doc([root], name, Entity)
  }

  /** Nothing is under way, and both documents are to be resolved under one root that holds no
      entity of the name. */
  ghost predicate Waiting(s: State, lower: string -> string, name: string, a: nat, b: nat, root: nat) {
    && Quiet(s) && Inv(s.db) && name != ""
    && NewUnder(s.db, lower, name, a, root) && NewUnder(s.db, lower, name, b, root)
  }

  lemma FirstMakes(m: Matcher, lower: string -> string, s: State, v: nat, w: nat, name: string, a: nat, b: nat, root: nat)
    requires Sound(m) && ByName(m, lower) && v != w && Waiting(s, lower, name, a, b, root)
    ensures BothDraft(Step(m, Step(m, s, Resolve(v, false, name, a, false)), Resolve(w, false, name, b, false)), v, w, name, root, s.db.next)
  {
    WorkerMakes(m, lower, s, v, name, a, root, false);
    TwoDrafts(m, lower, s, Step(m, s, Resolve(v, false, name, a, false)), v, w, name, b, root);
  }

  lemma CommittedTwins(m: Matcher, lower: string -> string, both: State, v: nat, w: nat, name: string, root: nat, e: nat)
    requires Sound(m) && v != w && name != "" && BothDraft(both, v, w, name, root, e)
    ensures var t := Step(m, Step(m, both, Commit(v)), Commit(w));
            TwinsUnder(t.db, lower, root, e, e + 1) && !Clique(t.db, lower)
  {
    BothCommitted(m, both, v, w);
    TwinsByName(Step(m, Step(m, both, Commit(v)), Commit(w)).db, lower, name, root, e, e + 1);
  }

  /** Two workers that both look before either commits leave two entities of one name under
      one root, and the copies are a clique no longer. */
  lemma TwoLookersMakeTwins(m: Matcher, lower: string -> string, s: State, both: State, v: nat, w: nat, name: string, a: nat, b: nat, root: nat)
    requires Sound(m) && ByName(m, lower) && v != w && Waiting(s, lower, name, a, b, root)
    requires both == Step(m, Step(m, s, Resolve(v, false, name, a, false)), Resolve(w, false, name, b, false))
    ensures var t := Step(m, Step(m, both, Commit(v)), Commit(w));
            (exists e, f :: TwinsUnder(t.db, lower, root, e, f)) && !Clique(t.db, lower)
  {
    FirstMakes(m, lower, s, v, w, name, a, b, root);
    CommittedTwins(m, lower, both, v, w, name, root, s.db.next);
  }

  /** Two documents open to everyone, and the entities root of that access. */
  const TWO_PAGES := Tables(
    map[0 := Doc([], "Entities", RootOf(Tree.Entities)), 1 := Doc([], "one", Plain), 2 := Doc([], "two", Plain)],
    [],
    map[(Tree.Entities, KeyText([])) := 0],
    {},
    3)

  lemma NoGrantsNoKey(db: Tables, d: nat)
    requires db.grants == [] && d in db.docs
    ensures KeyOf(db, d) == []
  {
    KeyDecides(db.grants, ChainOf(db, d), 0);
  }

  lemma TwoPagesSane()
    ensures Sane(TWO_PAGES)
  {
    assert forall d :: d in TWO_PAGES.docs ==> PathsOf(TWO_PAGES)[d] == [];
    assert forall d :: d in PathsOf(TWO_PAGES) ==> Lineage(PathsOf(TWO_PAGES), d);
  }

  lemma TwoPagesInv()
    ensures Inv(TWO_PAGES)
  {
    TwoPagesSane();
    NoGrantsNoKey(TWO_PAGES, 0);
    forall d | d in TWO_PAGES.docs ensures RootTrue(TWO_PAGES, d) && EntityTrue(TWO_PAGES, d) {
      assert d == 0 || TWO_PAGES.docs[d].usetype == Plain;
    }
    assert SlotTrue(TWO_PAGES, (Tree.Entities, KeyText([])));
  }

  lemma TwoPagesNew(lower: string -> string, name: string, page: nat)
    requires name != "" && (page == 1 || page == 2)
    ensures NewUnder(TWO_PAGES, lower, name, page, 0)
  {
    NoGrantsNoKey(TWO_PAGES, page);
    assert forall d: nat :: !IsEntity(TWO_PAGES, d);
  }

  lemma TwoPagesClique(lower: string -> string)
    ensures Clique(TWO_PAGES, lower)
  {
    assert forall d: nat :: !IsEntity(TWO_PAGES, d);
  }

  /** Such a state there is, for every name, and in it the copies are a clique. */
  lemma SomeWait(lower: string -> string, name: string)
    requires name != ""
    ensures Waiting(State(TWO_PAGES, map[], map[], [], {}), lower, name, 1, 2, 0) && Clique(TWO_PAGES, lower)
  {
    TwoPagesInv();
    TwoPagesNew(lower, name, 1);
    TwoPagesNew(lower, name, 2);
    TwoPagesClique(lower);
  }
}
