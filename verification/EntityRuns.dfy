// Every run of workers that resolve entities, each in a transaction of its own and with any
// cache, among whatever else the appliance does: facts stay inside the access of their source.
module EntityRuns {
  import opened Text
  import opened Access
  import opened Roots
  import opened Entities

  // ----- one resolution stays inside its access ---------------------------------------------------

  /** The document is as it was, and governed as it was. */
  ghost predicate Kept(db: Tables, after: Tables, d: nat)
    requires d in db.docs
  {
    d in after.docs && after.docs[d] == db.docs[d] && KeyOf(after, d) == KeyOf(db, d)
  }

  ghost predicate Extends(db: Tables, after: Tables) {
    forall d {:trigger Kept(db, after, d)} :: d in db.docs ==> Kept(db, after, d)
  }

  lemma ExtendsTransitive(a: Tables, b: Tables, c: Tables)
    requires Extends(a, b) && Extends(b, c)
    ensures Extends(a, c)
  {
    forall d | d in a.docs ensures Kept(a, c, d) {
      assert Kept(a, b, d) && Kept(b, c, d);
    }
  }

  /** An entity stays one, under its root. */
  lemma {:induction false} EntityExtends(db: Tables, after: Tables, e: nat)
    requires Extends(db, after) && IsEntity(db, e)
    ensures IsEntity(after, e) && ParentOf(after, e) == ParentOf(db, e)
  {
    assert Kept(db, after, e);
  }

  lemma MintedExtends(db: Tables, tree: Tree, key: Key)
    requires Sane(db)
    ensures Extends(db, Minted(db, tree, key))
  {
    forall d | d in db.docs ensures Kept(db, Minted(db, tree, key), d) {
      MintedElsewhere(db, tree, key, d);
    }
  }

  lemma RootedExtends(db: Tables, document: nat, tree: Tree, rival: bool)
    requires Inv(db) && document in db.docs
    ensures Extends(db, Rooted(db, document, tree, rival).1)
  {
    var after := Rooted(db, document, tree, rival).1;
    MintedExtends(db, tree, KeyOf(db, document));
    forall d | d in db.docs ensures Kept(db, after, d) {
      assert Kept(db, Minted(db, tree, KeyOf(db, document)), d);
    }
  }

  lemma EntityParent(db: Tables, e: nat)
    requires IsEntity(db, e) && EntityTrue(db, e)
    ensures db.docs[e].path == [ParentOf(db, e)] && ParentOf(db, e) in db.docs
    ensures db.docs[ParentOf(db, e)].usetype == RootOf(Tree.Entities)
    ensures forall g :: g in db.grants ==> g.doc != e
  {
  }

  /** An entity is governed as its root is. */
  lemma EntityKey(db: Tables, e: nat)
    requires Inv(db) && IsEntity(db, e)
    ensures db.docs[e].path == [ParentOf(db, e)] && ParentOf(db, e) in db.docs
    ensures db.docs[ParentOf(db, e)].usetype == RootOf(Tree.Entities)
    ensures KeyOf(db, e) == KeyOf(db, ParentOf(db, e))
  {
    assert EntityTrue(db, e);
    EntityParent(db, e);
    var root := ParentOf(db, e);
    assert RootTrue(db, root);
    KeyLocal(db.grants, db.grants, ChainOf(db, e), ChainOf(db, root));
  }

  lemma WithEntitySane(db: Tables, root: nat, name: string)
    requires Inv(db) && root in db.docs && db.docs[root].usetype == RootOf(Tree.Entities)
    ensures Sane(WithEntity(db, root, name))
  {
    var after := WithEntity(db, root, name);
    assert RootTrue(db, root);
    forall d | d in after.docs ensures Lineage(PathsOf(after), d) {
      if d != db.next {
        assert Lineage(PathsOf(db), d);
        ChainInDocs(db, d);
      }
    }
  }

  lemma WithEntityInv(db: Tables, root: nat, name: string)
    requires Inv(db) && root in db.docs && db.docs[root].usetype == RootOf(Tree.Entities)
    requires Extends(db, WithEntity(db, root, name))
    ensures Inv(WithEntity(db, root, name))
  {
    var after := WithEntity(db, root, name);
    WithEntitySane(db, root, name);
    forall d | d in after.docs ensures RootTrue(after, d) && EntityTrue(after, d) {
      if d != db.next {
        assert RootTrue(db, d) && EntityTrue(db, d) && Kept(db, after, d);
        SameRoot(db, after, d);
      }
    }
    forall slot | slot in after.roots ensures SlotTrue(after, slot) {
      assert SlotTrue(db, slot) && Kept(db, after, db.roots[slot]);
      SameSlot(db, after, slot);
    }
  }

  lemma WithEntityKeeps(db: Tables, root: nat, name: string)
    requires Inv(db) && root in db.docs && db.docs[root].usetype == RootOf(Tree.Entities)
    ensures var after := WithEntity(db, root, name);
            Inv(after) && Extends(db, after) && IsEntity(after, db.next) && ParentOf(after, db.next) == root
  {
    var after := WithEntity(db, root, name);
    assert forall d :: d in db.docs ==> Kept(db, after, d);
    WithEntityInv(db, root, name);
  }

  lemma JoinedKeeps(db: Tables, m: Matcher, name: string, root: nat)
    requires Inv(db) && Sound(m) && root in db.docs && db.docs[root].usetype == RootOf(Tree.Entities)
    ensures var after := Joined(db, m, name, root);
            Inv(after) && Extends(db, after) && IsEntity(after, db.next) && ParentOf(after, db.next) == root
  {
    WithEntityKeeps(db, root, name);
    var made, after := WithEntity(db, root, name), Joined(db, m, name, root);
    LinksAndIds(made, after.links, after.next);
    assert forall d :: d in made.docs ==> Kept(made, after, d);
    ExtendsTransitive(db, made, after);
  }

  lemma MentionKeeps(db: Tables, source: nat, entity: nat)
    requires Inv(db)
    ensures Inv(WithMention(db, source, entity)) && Extends(db, WithMention(db, source, entity))
  {
    var after := WithMention(db, source, entity);
    LinksAndIds(db, after.links, after.next);
    assert forall d :: d in db.docs ==> Kept(db, after, d);
  }

  /** What a cache remembers are entities, each under the root it is remembered for. */
  ghost predicate CacheTrue(db: Tables, cache: Cache) {
    forall k :: k in cache ==> IsEntity(db, cache[k]) && ParentOf(db, cache[k]) == k.0
  }

  lemma CacheExtends(db: Tables, after: Tables, cache: Cache)
    requires Extends(db, after) && CacheTrue(db, cache)
    ensures CacheTrue(after, cache)
  {
    forall k | k in cache ensures IsEntity(after, cache[k]) && ParentOf(after, cache[k]) == k.0 {
      EntityExtends(db, after, cache[k]);
    }
  }

  /** Resolution once the root is known. */
  ghost function FoundOrMade(db: Tables, m: Matcher, cache: Option<Cache>, name: string, source: nat, root: nat): Resolution
    requires Sound(m)
  {
    var key := (root, m.fold(name));
    SoundQuery(m, db, name, {root});
    var found := Best(db, m, name, m.query(db, name, {root}));
    if cache.Some? && key in cache.value then
      Resolution(Ok((cache.value[key], false)), WithMention(db, source, cache.value[key]), cache)
    else if found.Some? then
      Resolution(Ok((found.value, false)), WithMention(db, source, found.value), Remember(cache, key, found.value))
    else
      Resolution(Ok((db.next, true)), WithMention(Joined(db, m, name, root), source, db.next), Remember(cache, key, db.next))
  }

  ghost predicate CachesTrue(db: Tables, cache: Option<Cache>) {
    cache.Some? ==> CacheTrue(db, cache.value)
  }

  /** What a resolution under a root leaves: true tables that extend the old, an entity under
      that root, and a true cache. */
  ghost predicate Settled(db: Tables, r: Resolution, root: nat) {
    && Inv(r.db) && Extends(db, r.db) && CachesTrue(r.db, r.cache)
    && r.outcome.Ok? && IsEntity(r.db, r.outcome.value.0) && ParentOf(r.db, r.outcome.value.0) == root
  }

  /** The mention is recorded and the entity remembered, whatever it was found by. */
  lemma Recorded(db: Tables, base: Tables, cache: Option<Cache>, cache': Option<Cache>, key: (nat, string), source: nat, e: nat, made: bool)
    requires Inv(base) && Extends(db, base) && CachesTrue(db, cache)
    requires IsEntity(base, e) && ParentOf(base, e) == key.0
    requires cache' == cache || cache' == Remember(cache, key, e)
    ensures Settled(db, Resolution(Ok((e, made)), WithMention(base, source, e), cache'), key.0)
  {
    var after := WithMention(base, source, e);
    MentionKeeps(base, source, e);
    ExtendsTransitive(db, base, after);
    EntityExtends(base, after, e);
    if cache.Some? {
      CacheExtends(db, after, cache.value);
      assert cache'.value == cache.value || cache'.value == cache.value[key := e];
    }
  }

  lemma FromRoot(db: Tables, m: Matcher, cache: Option<Cache>, name: string, source: nat, root: nat)
    requires Inv(db) && Sound(m) && root in db.docs && db.docs[root].usetype == RootOf(Tree.Entities)
    requires CachesTrue(db, cache)
    ensures Settled(db, FoundOrMade(db, m, cache, name, source, root), root)
  {
    var key := (root, m.fold(name));
    SoundQuery(m, db, name, {root});
    var found := Best(db, m, name, m.query(db, name, {root}));
    if cache.Some? && key in cache.value {
      Recorded(db, db, cache, cache, key, source, cache.value[key], false);
    } else if found.Some? {
      BestIs(db, m, name, m.query(db, name, {root}));
      Recorded(db, db, cache, Remember(cache, key, found.value), key, source, found.value, false);
    } else {
      JoinedKeeps(db, m, name, root);
      Recorded(db, Joined(db, m, name, root), cache, Remember(cache, key, db.next), key, source, db.next, true);
    }
  }

  lemma ResolvedFrom(db: Tables, m: Matcher, cache: Option<Cache>, name: string, source: nat, rival: bool)
    requires Sound(m) && Rooted(db, source, Tree.Entities, rival).0.Ok?
    ensures var (root, rooted) := Rooted(db, source, Tree.Entities, rival);
            Resolved(db, m, cache, name, source, rival) == FoundOrMade(rooted, m, cache, name, source, root.value)
  {
  }

  lemma CachesExtend(db: Tables, after: Tables, cache: Option<Cache>)
    requires Extends(db, after) && CachesTrue(db, cache)
    ensures CachesTrue(after, cache)
  {
    if cache.Some? { CacheExtends(db, after, cache.value); }
  }

  lemma SettledKey(db: Tables, r: Resolution, root: nat)
    requires root in db.docs && Settled(db, r, root)
    ensures KeyOf(r.db, r.outcome.value.0) == KeyOf(db, root)
  {
    EntityKey(r.db, r.outcome.value.0);
    assert Kept(db, r.db, root);
  }

  lemma SettledFurther(db: Tables, middle: Tables, r: Resolution, root: nat)
    requires Extends(db, middle) && Settled(middle, r, root)
    ensures Settled(db, r, root)
  {
    ExtendsTransitive(db, middle, r.db);
  }

  /** The entity a mention resolves to is under the root of the mentioning document's access,
      whether it came from the cache, from a match or was created; so exactly those who can
      read the document can read the entity. */
  lemma ResolvedInside(db: Tables, m: Matcher, cache: Option<Cache>, name: string, source: nat, rival: bool)
    requires Inv(db) && Sound(m) && source in db.docs && CachesTrue(db, cache)
    ensures var r := Resolved(db, m, cache, name, source, rival);
            var root := Rooted(db, source, Tree.Entities, rival).0;
            && root.Ok? && Settled(db, r, root.value)
            && KeyOf(r.db, r.outcome.value.0) == KeyOf(db, source)
  {
    var (root, rooted) := Rooted(db, source, Tree.Entities, rival);
    RootedIsKeyed(db, source, Tree.Entities, rival);
    RootedExtends(db, source, Tree.Entities, rival);
    CachesExtend(db, rooted, cache);
    FromRoot(rooted, m, cache, name, source, root.value);
    ResolvedFrom(db, m, cache, name, source, rival);
    var r := Resolved(db, m, cache, name, source, rival);
    SettledKey(rooted, r, root.value);
    SettledFurther(db, rooted, r, root.value);
  }

  // ----- what one worker has not committed --------------------------------------------------------

  /** A mention that was resolved: the document, the entity, and the document's access then. */
  datatype Resolving = Resolving(source: nat, entity: nat, key: Key)

  /** What a worker's transaction has written and only that worker sees: entities, links, and
      history. `seen` is history too: the documents each of those entities was created among. */
  datatype Draft = Draft(docs: map<nat, Doc>, links: set<Link>, log: seq<Resolving>, seen: map<nat, set<nat>>)

  const NoDraft := Draft(map[], {}, [], map[])

  /** The tables as the worker sees them. */
  function View(db: Tables, o: Draft): Tables {
    db.(docs := db.docs + o.docs, links := db.links + o.links)
  }

  /** A draft is an entity with an id nobody else has, under a root that is committed. */
  ghost predicate DraftDoc(db: Tables, d: nat, doc: Doc) {
    && d !in db.docs && d < db.next
    && doc.usetype == Entity && |doc.path| == 1 && doc.path[0] in db.docs
    && db.docs[doc.path[0]].usetype == RootOf(Tree.Entities)
  }

  ghost predicate DraftTrue(db: Tables, o: Draft) {
    (forall d {:trigger d in o.docs} :: d in o.docs ==> DraftDoc(db, d, o.docs[d])) && o.seen.Keys == o.docs.Keys
  }

  lemma ViewLineage(db: Tables, o: Draft, d: nat)
    requires Inv(db) && DraftTrue(db, o) && d in db.docs
    ensures d !in o.docs && Lineage(PathsOf(View(db, o)), d)
  {
    assert Lineage(PathsOf(db), d);
    ChainInDocs(db, d);
    forall a | a in ChainOf(db, d) ensures a !in o.docs {
      assert a in db.docs;
    }
  }

  lemma ChildLineage(paths: Paths, d: nat, root: nat)
    requires d in paths && root in paths && paths[d] == [root] && paths[root] == [] && d != root
    ensures Lineage(paths, d)
  {
  }

  lemma DraftLineage(db: Tables, o: Draft, d: nat)
    requires Inv(db) && DraftTrue(db, o) && d in o.docs
    ensures Lineage(PathsOf(View(db, o)), d)
  {
    assert DraftDoc(db, d, o.docs[d]);
    var root := o.docs[d].path[0];
    assert RootTrue(db, root);
    assert root !in o.docs && PathsOf(View(db, o))[d] == [root];
    ChildLineage(PathsOf(View(db, o)), d, root);
  }

  lemma ViewSane(db: Tables, o: Draft)
    requires Inv(db) && DraftTrue(db, o)
    ensures Sane(View(db, o))
  {
    var v := View(db, o);
    forall d | d in v.docs ensures Lineage(PathsOf(v), d) && d < v.next {
      if d in o.docs {
        assert DraftDoc(db, d, o.docs[d]);
        DraftLineage(db, o, d);
      } else {
        ViewLineage(db, o, d);
      }
    }
  }

  /** What a worker sees is as true as what is committed, and extends it. */
  lemma ViewTrue(db: Tables, o: Draft)
    requires Inv(db) && DraftTrue(db, o)
    ensures Inv(View(db, o)) && Extends(db, View(db, o))
  {
    var v := View(db, o);
    ViewSane(db, o);
    forall d | d in db.docs ensures Kept(db, v, d) {
      assert d in o.docs ==> DraftDoc(db, d, o.docs[d]);
    }
    forall d | d in v.docs ensures RootTrue(v, d) && EntityTrue(v, d) {
      if d in o.docs {
        DraftIsTrue(db, o, d);
      } else {
        assert RootTrue(db, d) && EntityTrue(db, d) && Kept(db, v, d);
        SameRoot(db, v, d);
        EntityStays(db, v, d);
      }
    }
    forall slot | slot in v.roots ensures SlotTrue(v, slot) {
      assert SlotTrue(db, slot) && Kept(db, v, db.roots[slot]);
      SameSlot(db, v, slot);
    }
  }

  lemma DraftIsTrue(db: Tables, o: Draft, d: nat)
    requires Sane(db) && DraftTrue(db, o) && d in o.docs
    requires Extends(db, View(db, o))
    ensures RootTrue(View(db, o), d) && EntityTrue(View(db, o), d)
  {
    assert DraftDoc(db, d, o.docs[d]) && Kept(db, View(db, o), o.docs[d].path[0]);
  }

  lemma EntityStays(db: Tables, after: Tables, d: nat)
    requires Extends(db, after) && d in db.docs && EntityTrue(db, d) && after.grants == db.grants
    ensures d in after.docs && EntityTrue(after, d)
  {
    assert Kept(db, after, d);
    if db.docs[d].usetype == Entity { assert Kept(db, after, db.docs[d].path[0]); }
  }

  /** Tables that grow for everyone grow for each worker. */
  lemma ViewExtends(db: Tables, after: Tables, o: Draft)
    requires Inv(db) && Inv(after) && Extends(db, after) && DraftTrue(db, o) && DraftTrue(after, o)
    ensures Extends(View(db, o), View(after, o))
  {
    ViewTrue(db, o);
    ViewTrue(after, o);
    var v, u := View(db, o), View(after, o);
    forall d | d in v.docs ensures Kept(v, u, d) {
      if d in o.docs {
        assert DraftDoc(db, d, o.docs[d]) && DraftDoc(after, d, o.docs[d]);
        var root := o.docs[d].path[0];
        assert Kept(db, after, root) && Kept(db, v, root) && Kept(after, u, root);
        EntityKey(v, d);
        EntityKey(u, d);
      } else {
        assert Kept(db, after, d) && Kept(db, v, d) && Kept(after, u, d);
      }
    }
  }

  // ----- every run --------------------------------------------------------------------------------

  /** The committed tables, each worker's transaction and cache, and the history of what was
      resolved. `late` holds, for each committed entity, those committed between its creation
      and its own commit: the ones its creator could not see. */
  datatype State = State(
    db: Tables,
    drafts: map<nat, Draft>,
    caches: map<nat, Cache>,
    log: seq<Resolving>,
    late: set<(nat, nat)>)

  datatype Event =
    | Elsewhere(after: Tables)
    | Mint(document: nat, tree: Tree, rival: bool)
    | Begin(worker: nat)
    | Resolve(worker: nat, cached: bool, name: string, source: nat, rival: bool)
    | Commit(worker: nat)
    | Rollback(worker: nat)

  function DraftOf(drafts: map<nat, Draft>, w: nat): Draft {
    if w in drafts then drafts[w] else NoDraft
  }

  function CacheOf(caches: map<nat, Cache>, w: nat): Cache {
    if w in caches then caches[w] else map[]
  }

  predicate Ours(db: Tables, d: nat) {
    d in db.docs && db.docs[d].usetype != Plain
  }

  /** Whatever else the appliance does leaves roots, entities, the grants on them and their
      joins alone; it may create, move, regrant and delete every other document. The id
      sequence gives no id twice. */
  ghost predicate Aside(db: Tables, after: Tables) {
    && Sane(after) && after.roots == db.roots && after.next >= db.next
    && (forall d :: Ours(after, d) <==> Ours(db, d))
    && (forall d :: Ours(db, d) ==> after.docs[d] == db.docs[d])
    && (forall d :: d in after.docs && d !in db.docs ==> d >= db.next)
    && (forall g: Grant :: Ours(db, g.doc) ==> (g in after.grants <==> g in db.grants))
    && forall l: Link :: l.linkType == RbacCoref ==> (l in after.links <==> l in db.links)
  }

  ghost predicate Enabled(s: State, e: Event) {
    match e
    case Elsewhere(after) => Aside(s.db, after)
    case _ => true
  }

  /** What a worker resolves, in the tables as it sees them. */
  ghost function Look(m: Matcher, s: State, w: nat, cached: bool, name: string, source: nat, rival: bool): Resolution
    requires Sound(m)
  {
    Resolved(View(s.db, DraftOf(s.drafts, w)), m, if cached then Some(CacheOf(s.caches, w)) else None, name, source, rival)
  }

  /** The entities among what the worker now sees that are not committed. */
  function Drafts(db: Tables, now: Tables): map<nat, Doc> {
    map d | d in now.docs && d !in db.docs && now.docs[d].usetype == Entity :: now.docs[d]
  }

  /** What everyone sees after it: ids drawn, and a root as soon as it is minted. */
  function Published(db: Tables, now: Tables): Tables {
    now.(docs := now.docs - Drafts(db, now).Keys, links := db.links)
  }

  function Drafted(db: Tables, o: Draft, now: Tables, l: Resolving): Draft {
    var docs := Drafts(db, now);
    Draft(docs, now.links - db.links, o.log + [l],
          map d | d in docs :: if d in o.seen then o.seen[d] else db.docs.Keys)
  }

  /** The entities another worker committed while this one held an entity it had created
      without seeing them. */
  function Overlaps(db: Tables, o: Draft): set<(nat, nat)> {
    set e, b | e in o.docs && b in db.docs && IsEntity(db, b) && e in o.seen && b !in o.seen[e] :: (e, b)
  }

  ghost function Step(m: Matcher, s: State, e: Event): State
    requires Sound(m)
  {
    match e
    case Elsewhere(after) => s.(db := after)
    case Mint(document, tree, rival) => s.(db := Rooted(s.db, document, tree, rival).1)
    case Begin(w) => s.(caches := s.caches[w := map[]])
    case Resolve(w, cached, name, source, rival) => AfterLook(s, w, source, Look(m, s, w, cached, name, source, rival))
    case Commit(w) =>
      var o := DraftOf(s.drafts, w);
      State(View(s.db, o), s.drafts[w := NoDraft], s.caches, s.log + o.log, s.late + Overlaps(s.db, o))
    case Rollback(w) => s.(drafts := s.drafts[w := NoDraft], caches := s.caches[w := map[]])
  }

  /** The state after a resolution: as before when the document was not there. */
  ghost function AfterLook(s: State, w: nat, source: nat, r: Resolution): State {
    if r.outcome.Err? || source !in s.db.docs then s
    else
      var l := Resolving(source, r.outcome.value.0, KeyOf(s.db, source));
      s.(db := Published(s.db, r.db),
         drafts := s.drafts[w := Drafted(s.db, DraftOf(s.drafts, w), r.db, l)],
         caches := if r.cache.Some? then s.caches[w := r.cache.value] else s.caches)
  }

  /** The entity a mention resolved to is still governed as the document then was. */
  ghost predicate StillKeyed(db: Tables, l: Resolving) {
    IsEntity(db, l.entity) && KeyOf(db, l.entity) == l.key
  }

  ghost predicate LogTrue(db: Tables, log: seq<Resolving>) {
    forall i :: 0 <= i < |log| ==> StillKeyed(db, log[i])
  }

  ghost predicate WorkerTrue(db: Tables, o: Draft, cache: Cache) {
    DraftTrue(db, o) && CacheTrue(View(db, o), cache) && LogTrue(View(db, o), o.log)
  }

  ghost predicate Apart(a: Draft, b: Draft) {
    a.docs.Keys !! b.docs.Keys
  }

  ghost predicate WorkersTrue(db: Tables, drafts: map<nat, Draft>, caches: map<nat, Cache>) {
    forall w {:trigger DraftOf(drafts, w)} :: WorkerTrue(db, DraftOf(drafts, w), CacheOf(caches, w))
  }

  ghost predicate AllApart(drafts: map<nat, Draft>) {
    forall v, w {:trigger DraftOf(drafts, v), DraftOf(drafts, w)} :: v != w ==> Apart(DraftOf(drafts, v), DraftOf(drafts, w))
  }

  ghost predicate StateTrue(s: State) {
    Inv(s.db) && LogTrue(s.db, s.log) && WorkersTrue(s.db, s.drafts, s.caches) && AllApart(s.drafts)
  }

  // ----- what the rest of the appliance does --------------------------------------------------------

  lemma AsideKeys(db: Tables, after: Tables, d: nat)
    requires Inv(db) && Aside(db, after) && Ours(db, d)
    ensures d in after.docs && KeyOf(after, d) == KeyOf(db, d)
  {
    assert RootTrue(db, d) && EntityTrue(db, d);
    assert forall a :: a in ChainOf(db, d) ==> Ours(db, a);
    KeyLocal(after.grants, db.grants, ChainOf(after, d), ChainOf(db, d));
  }

  lemma AsideKeeps(db: Tables, after: Tables)
    requires Inv(db) && Aside(db, after)
    ensures Inv(after)
  {
    forall d | d in after.docs ensures RootTrue(after, d) && EntityTrue(after, d) {
      if Ours(after, d) {
        assert Ours(db, d) && RootTrue(db, d) && EntityTrue(db, d);
        AsideKeys(db, after, d);
        SameRoot(db, after, d);
        AsideEntity(db, after, d);
      }
    }
    forall slot | slot in after.roots ensures SlotTrue(after, slot) {
      assert SlotTrue(db, slot) && Ours(db, db.roots[slot]);
      AsideKeys(db, after, db.roots[slot]);
      SameSlot(db, after, slot);
    }
  }

  lemma AsideEntity(db: Tables, after: Tables, d: nat)
    requires Aside(db, after) && Ours(db, d) && EntityTrue(db, d)
    ensures EntityTrue(after, d)
  {
    if db.docs[d].usetype == Entity {
      assert Ours(db, db.docs[d].path[0]);
    }
  }

  lemma AsideLog(db: Tables, after: Tables, log: seq<Resolving>)
    requires Inv(db) && Aside(db, after) && LogTrue(db, log)
    ensures LogTrue(after, log)
  {
    forall i | 0 <= i < |log| ensures StillKeyed(after, log[i]) {
      assert StillKeyed(db, log[i]) && Ours(db, log[i].entity);
      AsideKeys(db, after, log[i].entity);
    }
  }

  lemma AsideCache(db: Tables, after: Tables, cache: Cache)
    requires Aside(db, after) && CacheTrue(db, cache)
    ensures CacheTrue(after, cache)
  {
    forall k | k in cache ensures IsEntity(after, cache[k]) && ParentOf(after, cache[k]) == k.0 {
      assert Ours(db, cache[k]);
    }
  }

  lemma AsideDraft(db: Tables, after: Tables, o: Draft)
    requires Aside(db, after) && DraftTrue(db, o)
    ensures DraftTrue(after, o)
  {
    forall d | d in o.docs ensures DraftDoc(after, d, o.docs[d]) {
      assert DraftDoc(db, d, o.docs[d]) && Ours(db, o.docs[d].path[0]);
    }
  }

  /** What is beside the point for everyone is beside the point for each worker. */
  lemma ViewAside(db: Tables, after: Tables, o: Draft)
    requires Inv(db) && Aside(db, after) && DraftTrue(db, o)
    ensures Aside(View(db, o), View(after, o))
  {
    AsideKeeps(db, after);
    AsideDraft(db, after, o);
    ViewSane(after, o);
    var v, u := View(db, o), View(after, o);
    forall d ensures Ours(u, d) <==> Ours(v, d) {
      assert Ours(after, d) <==> Ours(db, d);
      assert d in o.docs ==> DraftDoc(db, d, o.docs[d]);
    }
    forall d | Ours(v, d) ensures u.docs[d] == v.docs[d] {
      assert d !in o.docs ==> Ours(db, d);
    }
    forall g: Grant | Ours(v, g.doc) ensures g in u.grants <==> g in v.grants {
      if g.doc in o.docs {
        assert DraftDoc(db, g.doc, o.docs[g.doc]) && DraftDoc(after, g.doc, o.docs[g.doc]);
      } else {
        assert Ours(db, g.doc);
      }
    }
  }

  lemma AsideWorker(db: Tables, after: Tables, o: Draft, cache: Cache)
    requires Inv(db) && Aside(db, after) && WorkerTrue(db, o, cache)
    ensures WorkerTrue(after, o, cache)
  {
    AsideDraft(db, after, o);
    ViewTrue(db, o);
    ViewAside(db, after, o);
    AsideLog(View(db, o), View(after, o), o.log);
    AsideCache(View(db, o), View(after, o), cache);
  }

  lemma AsideState(s: State, after: Tables)
    requires StateTrue(s) && Aside(s.db, after)
    ensures StateTrue(s.(db := after))
  {
    AsideKeeps(s.db, after);
    AsideLog(s.db, after, s.log);
    forall w: nat ensures WorkerTrue(after, DraftOf(s.drafts, w), CacheOf(s.caches, w)) {
      AsideWorker(s.db, after, DraftOf(s.drafts, w), CacheOf(s.caches, w));
    }
  }

  // ----- growing tables -------------------------------------------------------------------------------

  lemma LogExtends(db: Tables, after: Tables, log: seq<Resolving>)
    requires Extends(db, after) && LogTrue(db, log)
    ensures LogTrue(after, log)
  {
    forall i | 0 <= i < |log| ensures StillKeyed(after, log[i]) {
      assert StillKeyed(db, log[i]);
      EntityExtends(db, after, log[i].entity);
      assert Kept(db, after, log[i].entity);
    }
  }

  /** New documents have new ids. */
  ghost predicate Fresh(db: Tables, after: Tables) {
    after.next >= db.next && forall d :: d in after.docs && d !in db.docs ==> d >= db.next
  }

  lemma DraftExtends(db: Tables, after: Tables, o: Draft)
    requires DraftTrue(db, o) && Extends(db, after) && after.next >= db.next && o.docs.Keys !! after.docs.Keys
    ensures DraftTrue(after, o)
  {
    forall d | d in o.docs ensures DraftDoc(after, d, o.docs[d]) {
      assert DraftDoc(db, d, o.docs[d]) && Kept(db, after, o.docs[d].path[0]);
    }
  }

  lemma WorkerExtends(db: Tables, after: Tables, o: Draft, cache: Cache)
    requires Inv(db) && Inv(after) && WorkerTrue(db, o, cache) && Extends(db, after)
    requires after.next >= db.next && o.docs.Keys !! after.docs.Keys
    ensures WorkerTrue(after, o, cache)
  {
    DraftExtends(db, after, o);
    ViewExtends(db, after, o);
    LogExtends(View(db, o), View(after, o), o.log);
    CacheExtends(View(db, o), View(after, o), cache);
  }

  lemma FreshApart(db: Tables, after: Tables, o: Draft)
    requires DraftTrue(db, o) && Fresh(db, after)
    ensures o.docs.Keys !! after.docs.Keys
  {
    forall d | d in o.docs ensures d !in after.docs {
      assert DraftDoc(db, d, o.docs[d]);
    }
  }

  lemma RootedFresh(db: Tables, document: nat, tree: Tree, rival: bool)
    ensures Fresh(db, Rooted(db, document, tree, rival).1)
  {
  }

  lemma GrownState(s: State, after: Tables)
    requires StateTrue(s) && Inv(after) && Extends(s.db, after) && Fresh(s.db, after)
    ensures StateTrue(s.(db := after))
  {
    LogExtends(s.db, after, s.log);
    forall w: nat ensures WorkerTrue(after, DraftOf(s.drafts, w), CacheOf(s.caches, w)) {
      FreshApart(s.db, after, DraftOf(s.drafts, w));
      WorkerExtends(s.db, after, DraftOf(s.drafts, w), CacheOf(s.caches, w));
    }
  }

  // ----- a resolution ---------------------------------------------------------------------------------

  lemma MintedInView(db: Tables, o: Draft, key: Key)
    requires db.next !in o.docs
    ensures Minted(View(db, o), Tree.Entities, key) == View(Minted(db, Tree.Entities, key), o)
  {
    var root := Doc([], RootTitle(Tree.Entities), RootOf(Tree.Entities));
    assert db.docs[db.next := root] + o.docs == (db.docs + o.docs)[db.next := root];
  }

  /** A root is minted alike in the tables of everyone and as one worker sees them. */
  lemma RootedInView(db: Tables, o: Draft, source: nat, rival: bool)
    requires DraftTrue(db, o) && source in db.docs
    ensures var (r, after) := Rooted(db, source, Tree.Entities, rival);
            Rooted(View(db, o), source, Tree.Entities, rival) == (r, View(after, o))
  {
    assert source !in o.docs && db.next !in o.docs;
    assert KeyOf(View(db, o), source) == KeyOf(db, source);
    MintedInView(db, o, KeyOf(db, source));
  }

  /** What a resolution adds to what the worker sees: links, and an entity if it made one. */
  lemma FoundOrMadeIs(v: Tables, m: Matcher, cache: Option<Cache>, name: string, source: nat, root: nat)
    requires Sound(m)
    ensures var r := FoundOrMade(v, m, cache, name, source, root);
            && r.outcome.Ok? && v.links <= r.db.links && r.db.grants == v.grants && r.db.roots == v.roots
            && r.db.docs == (if r.outcome.value.1 then v.docs[v.next := Doc([root], name, Entity)] else v.docs)
            && r.db.next == (if r.outcome.value.1 then v.next + 1 else v.next)
  {
  }

  /** The drafts after a resolution: those before, and the entity it made. */
  lemma {:induction false} DraftsAre(db: Tables, rooted: Tables, o: Draft, now: Tables, e: Option<nat>, doc: Doc)
    requires DraftTrue(db, o) && DraftTrue(rooted, o)
    requires db.docs.Keys <= rooted.docs.Keys && forall d :: d in rooted.docs && d !in db.docs ==> rooted.docs[d].usetype != Entity
    requires doc.usetype == Entity && (e.Some? ==> e.value !in rooted.docs && e.value !in o.docs)
    requires now.docs == if e.Some? then View(rooted, o).docs[e.value := doc] else View(rooted, o).docs
    ensures Drafts(db, now) == if e.Some? then o.docs[e.value := doc] else o.docs
    ensures now.docs - Drafts(db, now).Keys == rooted.docs
    ensures rooted.docs + Drafts(db, now) == now.docs
  {
    var drafts := if e.Some? then o.docs[e.value := doc] else o.docs;
    assert drafts.Keys !! rooted.docs.Keys by {
      forall d | d in o.docs ensures d !in rooted.docs { assert DraftDoc(rooted, d, o.docs[d]); }
    }
    assert now.docs == rooted.docs + drafts;
    forall d | d in drafts ensures drafts[d].usetype == Entity {
      if e != Some(d) { assert DraftDoc(db, d, o.docs[d]); }
    }
    DraftsOfSum(db, rooted, now, drafts);
  }

  lemma DraftsOfSum(db: Tables, rooted: Tables, now: Tables, drafts: map<nat, Doc>)
    requires drafts.Keys !! rooted.docs.Keys && now.docs == rooted.docs + drafts
    requires db.docs.Keys <= rooted.docs.Keys && forall d :: d in rooted.docs && d !in db.docs ==> rooted.docs[d].usetype != Entity
    requires forall d :: d in drafts ==> drafts[d].usetype == Entity
    ensures Drafts(db, now) == drafts && now.docs - drafts.Keys == rooted.docs
  {
  }

  /** The tables with a root minted are true and extend the old, for everyone and for this
      worker's drafts. */
  lemma RootedGrows(db: Tables, o: Draft, source: nat, rival: bool)
    requires Inv(db) && DraftTrue(db, o) && source in db.docs
    ensures var (root, after) := Rooted(db, source, Tree.Entities, rival);
            && root.Ok? && Inv(after) && Extends(db, after) && Fresh(db, after) && DraftTrue(after, o)
            && root.value in after.docs && after.docs[root.value].usetype == RootOf(Tree.Entities)
            && after.next !in after.docs && after.next !in o.docs
  {
    var after := Rooted(db, source, Tree.Entities, rival).1;
    RootedIsKeyed(db, source, Tree.Entities, rival);
    RootedExtends(db, source, Tree.Entities, rival);
    RootedFresh(db, source, Tree.Entities, rival);
    FreshApart(db, after, o);
    DraftExtends(db, after, o);
  }

  /** A resolution finds or makes the entity in what the worker sees, its root being there. */
  lemma LookIs(m: Matcher, db: Tables, o: Draft, cache: Option<Cache>, name: string, source: nat, rival: bool)
    requires Sound(m) && Inv(db) && DraftTrue(db, o) && source in db.docs
    ensures var (root, after) := Rooted(db, source, Tree.Entities, rival);
            && root.Ok?
            && Resolved(View(db, o), m, cache, name, source, rival) == FoundOrMade(View(after, o), m, cache, name, source, root.value)
  {
    RootedIsKeyed(db, source, Tree.Entities, rival);
    RootedInView(db, o, source, rival);
    ResolvedFrom(View(db, o), m, cache, name, source, rival);
  }

  /** What the worker sees comes apart into what everyone sees and its draft. */
  lemma Splits(db: Tables, after: Tables, o: Draft, now: Tables, l: Resolving)
    requires after.links == db.links && View(after, o).links <= now.links
    requires now.roots == after.roots && now.grants == after.grants
    requires now.docs - Drafts(db, now).Keys == after.docs && after.docs + Drafts(db, now) == now.docs
    ensures Published(db, now) == after.(next := now.next)
    ensures View(Published(db, now), Drafted(db, o, now, l)) == now
  {
    assert db.links + (now.links - db.links) == now.links;
  }

  /** What a worker drafts next is as true as what it drafted before. */
  lemma DraftGoesOn(db: Tables, after: Tables, o: Draft, now: Tables, made: bool, doc: Doc, l: Resolving)
    requires DraftTrue(after, o) && Published(db, now) == after.(next := now.next)
    requires now.next == (if made then after.next + 1 else after.next)
    requires Drafts(db, now) == (if made then o.docs[after.next := doc] else o.docs)
    requires made ==> DraftDoc(after.(next := now.next), after.next, doc)
    ensures DraftTrue(Published(db, now), Drafted(db, o, now, l))
  {
    var drafts, p := Drafts(db, now), Published(db, now);
    forall d | d in drafts ensures DraftDoc(p, d, drafts[d]) {
      if !made || d != after.next { assert DraftDoc(after, d, o.docs[d]); }
    }
  }

  /** The committed tables after a worker has resolved a mention: a root may be new, and an id
      may be drawn. The rest is the worker's own draft, and it sees both. */
  lemma LookSplits(m: Matcher, db: Tables, o: Draft, cache: Option<Cache>, name: string, source: nat, rival: bool, l: Resolving)
    requires Sound(m) && Inv(db) && DraftTrue(db, o) && source in db.docs
    ensures var r := Resolved(View(db, o), m, cache, name, source, rival);
            var (root, after) := Rooted(db, source, Tree.Entities, rival);
            && root.Ok? && r.outcome.Ok?
            && Published(db, r.db) == after.(next := r.db.next)
            && r.db.next == (if r.outcome.value.1 then after.next + 1 else after.next)
            && View(Published(db, r.db), Drafted(db, o, r.db, l)) == r.db
            && Drafts(db, r.db) == (if r.outcome.value.1 then o.docs[after.next := Doc([root.value], name, Entity)] else o.docs)
            && DraftTrue(Published(db, r.db), Drafted(db, o, r.db, l))
  {
    var (root, after) := Rooted(db, source, Tree.Entities, rival);
    LookIs(m, db, o, cache, name, source, rival);
    FoundOrMadeIs(View(after, o), m, cache, name, source, root.value);
    var r := FoundOrMade(View(after, o), m, cache, name, source, root.value);
    RootedGrows(db, o, source, rival);
    RootedNotEntity(db, source, rival);
    DraftsAre(db, after, o, r.db, if r.outcome.value.1 then Some(after.next) else None, Doc([root.value], name, Entity));
    Splits(db, after, o, r.db, l);
    DraftGoesOn(db, after, o, r.db, r.outcome.value.1, Doc([root.value], name, Entity), l);
  }

  lemma RootedNotEntity(db: Tables, source: nat, rival: bool)
    requires Inv(db) && source in db.docs
    ensures var after := Rooted(db, source, Tree.Entities, rival).1;
            && db.docs.Keys <= after.docs.Keys && after.links == db.links
            && forall d :: d in after.docs && d !in db.docs ==> after.docs[d].usetype != Entity
  {
  }

  /** What the worker sees after a resolution extends what it saw, the entity is keyed as the
      document was, and its cache is true. */
  lemma LookExtends(m: Matcher, db: Tables, o: Draft, given: Option<Cache>, name: string, source: nat, rival: bool)
    requires Sound(m) && Inv(db) && DraftTrue(db, o) && CachesTrue(View(db, o), given) && source in db.docs
    ensures var r := Resolved(View(db, o), m, given, name, source, rival);
            && r.outcome.Ok? && Extends(View(db, o), r.db) && CachesTrue(r.db, r.cache)
            && StillKeyed(r.db, Resolving(source, r.outcome.value.0, KeyOf(db, source)))
  {
    ViewTrue(db, o);
    assert Kept(db, View(db, o), source);
    ResolvedInside(View(db, o), m, given, name, source, rival);
  }

  lemma OneMoreLine(db: Tables, log: seq<Resolving>, l: Resolving)
    requires LogTrue(db, log) && StillKeyed(db, l)
    ensures LogTrue(db, log + [l])
  {
  }

  /** The worker that resolved: its draft, its cache and its log are true of what it sees. */
  lemma LookWorker(m: Matcher, db: Tables, o: Draft, cache: Cache, given: Option<Cache>, name: string, source: nat, rival: bool)
    requires Sound(m) && Inv(db) && WorkerTrue(db, o, cache) && source in db.docs && (given.Some? ==> given.value == cache)
    ensures var r := Resolved(View(db, o), m, given, name, source, rival);
            && r.outcome.Ok?
            && WorkerTrue(Published(db, r.db), Drafted(db, o, r.db, Resolving(source, r.outcome.value.0, KeyOf(db, source))),
                 if r.cache.Some? then r.cache.value else cache)
  {
    var r := Resolved(View(db, o), m, given, name, source, rival);
    LookExtends(m, db, o, given, name, source, rival);
    var l := Resolving(source, r.outcome.value.0, KeyOf(db, source));
    LookSplits(m, db, o, given, name, source, rival, l);
    LogExtends(View(db, o), r.db, o.log);
    OneMoreLine(r.db, o.log, l);
    CacheExtends(View(db, o), r.db, cache);
  }

  /** What everyone sees after a resolution has grown, by new documents only. */
  lemma PublishedGrows(m: Matcher, db: Tables, o: Draft, cache: Option<Cache>, name: string, source: nat, rival: bool)
    requires Sound(m) && Inv(db) && DraftTrue(db, o) && source in db.docs
    ensures var p := Published(db, Resolved(View(db, o), m, cache, name, source, rival).db);
            Inv(p) && Extends(db, p) && Fresh(db, p)
  {
    var after := Rooted(db, source, Tree.Entities, rival).1;
    var now := Resolved(View(db, o), m, cache, name, source, rival).db;
    LookSplits(m, db, o, cache, name, source, rival, Resolving(0, 0, []));
    RootedGrows(db, o, source, rival);
    LinksAndIds(after, after.links, now.next);
    forall d | d in db.docs ensures Kept(db, Published(db, now), d) {
      assert Kept(db, after, d);
    }
  }

  /** No other worker has drafted the entity a resolution made. */
  lemma LookApart(m: Matcher, db: Tables, o: Draft, other: Draft, cache: Option<Cache>, name: string, source: nat, rival: bool)
    requires Sound(m) && Inv(db) && DraftTrue(db, o) && DraftTrue(db, other) && source in db.docs && Apart(o, other)
    ensures Drafts(db, Resolved(View(db, o), m, cache, name, source, rival).db).Keys !! other.docs.Keys
  {
    LookSplits(m, db, o, cache, name, source, rival, Resolving(0, 0, []));
    RootedGrows(db, other, source, rival);
  }

  /** Only worker `w` has a new draft and a new cache, and everyone's tables have grown. */
  lemma WorkerMoved(s: State, t: State, w: nat)
    requires StateTrue(s) && Inv(t.db) && Extends(s.db, t.db) && Fresh(s.db, t.db) && t.log == s.log
    requires t.drafts == s.drafts[w := DraftOf(t.drafts, w)]
    requires t.caches == s.caches || t.caches == s.caches[w := CacheOf(t.caches, w)]
    requires WorkerTrue(t.db, DraftOf(t.drafts, w), CacheOf(t.caches, w))
    requires forall v: nat :: v != w ==> Apart(DraftOf(t.drafts, w), DraftOf(s.drafts, v))
    ensures StateTrue(t)
  {
    GrownState(s, t.db);
    OneWorker(s.(db := t.db), t, w);
    StillApart(s.drafts, t.drafts, w);
  }

  lemma ResolveApart(m: Matcher, s: State, w: nat, cache: Option<Cache>, name: string, source: nat, rival: bool)
    requires Sound(m) && StateTrue(s) && source in s.db.docs
    ensures var drafts := Drafts(s.db, Resolved(View(s.db, DraftOf(s.drafts, w)), m, cache, name, source, rival).db);
            forall v: nat :: v != w ==> drafts.Keys !! DraftOf(s.drafts, v).docs.Keys
  {
    var o := DraftOf(s.drafts, w);
    assert WorkerTrue(s.db, o, CacheOf(s.caches, w));
    forall v: nat | v != w
      ensures Drafts(s.db, Resolved(View(s.db, o), m, cache, name, source, rival).db).Keys !! DraftOf(s.drafts, v).docs.Keys
    {
      assert WorkerTrue(s.db, DraftOf(s.drafts, v), CacheOf(s.caches, v)) && Apart(o, DraftOf(s.drafts, v));
      LookApart(m, s.db, o, DraftOf(s.drafts, v), cache, name, source, rival);
    }
  }

  /** A resolution that leaves everyone's tables, the worker's own and the other drafts in
      order. */
  ghost predicate LookTrue(s: State, w: nat, source: nat, r: Resolution) {
    && source in s.db.docs && r.outcome.Ok?
    && var p := Published(s.db, r.db);
       && Inv(p) && Extends(s.db, p) && Fresh(s.db, p)
       && WorkerTrue(p, Drafted(s.db, DraftOf(s.drafts, w), r.db, Resolving(source, r.outcome.value.0, KeyOf(s.db, source))),
            if r.cache.Some? then r.cache.value else CacheOf(s.caches, w))
       && forall v: nat :: v != w ==> Drafts(s.db, r.db).Keys !! DraftOf(s.drafts, v).docs.Keys
  }

  lemma {:induction false} AfterLookTrue(s: State, w: nat, source: nat, r: Resolution)
    requires StateTrue(s) && LookTrue(s, w, source, r)
    ensures StateTrue(AfterLook(s, w, source, r))
  {
    WorkerMoved(s, AfterLook(s, w, source, r), w);
  }

  lemma LookIsTrue(m: Matcher, s: State, w: nat, given: Option<Cache>, name: string, source: nat, rival: bool)
    requires Sound(m) && StateTrue(s) && source in s.db.docs && (given.Some? ==> given.value == CacheOf(s.caches, w))
    ensures LookTrue(s, w, source, Resolved(View(s.db, DraftOf(s.drafts, w)), m, given, name, source, rival))
  {
    var o, cache := DraftOf(s.drafts, w), CacheOf(s.caches, w);
    assert WorkerTrue(s.db, o, cache);
    LookWorker(m, s.db, o, cache, given, name, source, rival);
    PublishedGrows(m, s.db, o, given, name, source, rival);
    ResolveApart(m, s, w, given, name, source, rival);
  }

  lemma StepLooks(m: Matcher, s: State, w: nat, cached: bool, name: string, source: nat, rival: bool)
    requires Sound(m)
    ensures var given := if cached then Some(CacheOf(s.caches, w)) else None;
            Step(m, s, Resolve(w, cached, name, source, rival))
            == AfterLook(s, w, source, Resolved(View(s.db, DraftOf(s.drafts, w)), m, given, name, source, rival))
  {
  }

  lemma ResolveState(m: Matcher, s: State, w: nat, cached: bool, name: string, source: nat, rival: bool)
    requires Sound(m) && StateTrue(s) && source in s.db.docs
    ensures StateTrue(Step(m, s, Resolve(w, cached, name, source, rival)))
  {
    var given := if cached then Some(CacheOf(s.caches, w)) else None;
    var r := Resolved(View(s.db, DraftOf(s.drafts, w)), m, given, name, source, rival);
    LookIsTrue(m, s, w, given, name, source, rival);
    AfterLookTrue(s, w, source, r);
    StepLooks(m, s, w, cached, name, source, rival);
  }

  /** Only this worker's draft and cache are new. */
  lemma OneWorker(s: State, t: State, w: nat)
    requires WorkersTrue(s.db, s.drafts, s.caches) && t.db == s.db
    requires forall v: nat :: v != w ==> DraftOf(t.drafts, v) == DraftOf(s.drafts, v) && CacheOf(t.caches, v) == CacheOf(s.caches, v)
    requires WorkerTrue(t.db, DraftOf(t.drafts, w), CacheOf(t.caches, w))
    ensures WorkersTrue(t.db, t.drafts, t.caches)
  {
    forall v: nat ensures WorkerTrue(t.db, DraftOf(t.drafts, v), CacheOf(t.caches, v)) {
      assert WorkerTrue(s.db, DraftOf(s.drafts, v), CacheOf(s.caches, v));
    }
  }

  lemma StillApart(drafts: map<nat, Draft>, after: map<nat, Draft>, w: nat)
    requires AllApart(drafts) && forall v: nat :: v != w ==> DraftOf(after, v) == DraftOf(drafts, v)
    requires forall v: nat :: v != w ==> Apart(DraftOf(after, w), DraftOf(drafts, v))
    ensures AllApart(after)
  {
    forall u: nat, v: nat | u != v ensures Apart(DraftOf(after, u), DraftOf(after, v)) {
      assert Apart(DraftOf(drafts, u), DraftOf(drafts, v));
    }
  }

  // ----- committing and giving up -----------------------------------------------------------------------

  lemma CommitWorker(db: Tables, o: Draft, other: Draft, cache: Cache)
    requires Inv(db) && DraftTrue(db, o) && WorkerTrue(db, other, cache) && Apart(o, other)
    ensures WorkerTrue(View(db, o), other, cache)
  {
    ViewTrue(db, o);
    forall d | d in other.docs ensures d !in View(db, o).docs {
      assert DraftDoc(db, d, other.docs[d]);
    }
    WorkerExtends(db, View(db, o), other, cache);
  }

  lemma CommittedWorker(db: Tables, o: Draft, cache: Cache)
    requires WorkerTrue(db, o, cache)
    ensures WorkerTrue(View(db, o), NoDraft, cache)
  {
    assert View(View(db, o), NoDraft) == View(db, o);
  }

  lemma {:induction false} CommitState(m: Matcher, s: State, w: nat)
    requires Sound(m) && StateTrue(s)
    ensures StateTrue(Step(m, s, Commit(w)))
  {
    var o, t := DraftOf(s.drafts, w), Step(m, s, Commit(w));
    assert WorkerTrue(s.db, o, CacheOf(s.caches, w));
    ViewTrue(s.db, o);
    LogExtends(s.db, t.db, s.log);
    assert LogTrue(t.db, s.log + o.log);
    forall v: nat ensures WorkerTrue(t.db, DraftOf(t.drafts, v), CacheOf(t.caches, v)) {
      if v == w {
        CommittedWorker(s.db, o, CacheOf(s.caches, w));
      } else {
        assert WorkerTrue(s.db, DraftOf(s.drafts, v), CacheOf(s.caches, v)) && Apart(o, DraftOf(s.drafts, v));
        CommitWorker(s.db, o, DraftOf(s.drafts, v), CacheOf(s.caches, v));
      }
    }
    StillApart(s.drafts, t.drafts, w);
  }

  lemma RollbackState(m: Matcher, s: State, w: nat)
    requires Sound(m) && StateTrue(s)
    ensures StateTrue(Step(m, s, Rollback(w)))
  {
    var t := Step(m, s, Rollback(w));
    assert View(t.db, NoDraft) == t.db;
    OneWorker(s, t, w);
    StillApart(s.drafts, t.drafts, w);
  }

  lemma {:induction false} StepKeeps(m: Matcher, s: State, e: Event)
    requires Sound(m) && StateTrue(s) && Enabled(s, e)
    ensures StateTrue(Step(m, s, e))
  {
    match e
    case Elsewhere(after) => AsideState(s, after);
    case Mint(document, tree, rival) =>
      if document in s.db.docs && tree != Derived("") {
        RootedIsKeyed(s.db, document, tree, rival);
        RootedExtends(s.db, document, tree, rival);
        RootedFresh(s.db, document, tree, rival);
        GrownState(s, Rooted(s.db, document, tree, rival).1);
      } else {
        assert Step(m, s, e) == s;
      }
    case Begin(w) =>
      assert WorkerTrue(s.db, DraftOf(s.drafts, w), CacheOf(s.caches, w));
      OneWorker(s, Step(m, s, e), w);
    case Resolve(w, cached, name, source, rival) =>
      if source in s.db.docs {
        ResolveState(m, s, w, cached, name, source, rival);
      } else {
        assert Step(m, s, e) == s;
      }
    case Commit(w) => CommitState(m, s, w);
    case Rollback(w) => RollbackState(m, s, w);
  }

  ghost predicate Run(m: Matcher, s: State, events: seq<Event>, t: State)
    requires Sound(m)
    decreases |events|
  {
    if |events| == 0 then s == t
    else Enabled(s, events[0]) && Run(m, Step(m, s, events[0]), events[1..], t)
  }

  lemma {:induction false} RunKeeps(m: Matcher, s: State, events: seq<Event>, t: State)
    requires Sound(m) && StateTrue(s) && Run(m, s, events, t)
    ensures StateTrue(t)
    decreases |events|
  {
    if |events| > 0 {
      StepKeeps(m, s, events[0]);
      RunKeeps(m, Step(m, s, events[0]), events[1..], t);
    }
  }

  /** In every run, whatever the transactions, the caches and the races: while a document is
      governed as it was when a mention in it was resolved, exactly those who can read the
      entity can read the document. A fact extracted from it has such entities as its
      endpoints, so whoever can read them can read its source. */
  lemma FactsStayInside(m: Matcher, s: State, events: seq<Event>, t: State, i: nat, p: nat)
    requires Sound(m) && StateTrue(s) && Run(m, s, events, t) && i < |t.log|
    requires t.log[i].source in t.db.docs && KeyOf(t.db, t.log[i].source) == t.log[i].key
    ensures t.log[i].entity in t.db.docs
    ensures Reads(t.db, t.log[i].entity, p) <==> Reads(t.db, t.log[i].source, p)
  {
    RunKeeps(m, s, events, t);
    assert StillKeyed(t.db, t.log[i]);
    KeyDecides(t.db.grants, ChainOf(t.db, t.log[i].entity), p);
    KeyDecides(t.db.grants, ChainOf(t.db, t.log[i].source), p);
  }
}
