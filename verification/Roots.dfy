// Access-keyed roots: one root document for each distinct access and tree, minted on demand
// by workers that race for it.
module Roots {
  import opened Text
  import opened Access

  /** Which tree a root holds: the entities, or one kind of derived tree. */
  datatype Tree = Entities | Derived(kind: string)

  datatype Usetype = Plain | Entity | RootOf(tree: Tree)

  datatype Doc = Doc(path: seq<nat>, title: string, usetype: Usetype)

  datatype LinkType = Mentions | RbacCoref

  datatype Link = Link(source: nat, target: nat, linkType: LinkType)

  /** `roots` is unique on the tree and the text of the access key; `links` is unique on all
      three of its columns; `next` is the id sequence. */
  datatype Tables = Tables(
    docs: map<nat, Doc>,
    grants: seq<Grant>,
    roots: map<(Tree, string), nat>,
    links: set<Link>,
    next: nat)

  function PathsOf(db: Tables): Paths {
    map d | d in db.docs :: db.docs[d].path
  }

  function ChainOf(db: Tables, d: nat): set<nat>
    requires d in db.docs
  {
    Chain(db.docs[d].path, d)
  }

  function KeyOf(db: Tables, d: nat): Key
    requires d in db.docs
  {
    KeyFor(db.grants, ChainOf(db, d))
  }

  predicate Reads(db: Tables, d: nat, p: nat)
    requires d in db.docs
  {
    MayRead(db.grants, ChainOf(db, d), Bound(p))
  }

  function RootTitle(tree: Tree): string {
    if tree == Entities then "Entities" else "Derived: " + tree.kind
  }

  /** One grant for each pair of the key. */
  function GrantsFor(root: nat, key: Key): seq<Grant> {
    seq(|key|, i requires 0 <= i < |key| => Grant(root, key[i].0, key[i].1))
  }

  function WithDoc(db: Tables, doc: Doc): Tables {
    db.(docs := db.docs[db.next := doc], next := db.next + 1)
  }

  /** The tables once a root for the key is committed. */
  function Minted(db: Tables, tree: Tree, key: Key): Tables {
    WithDoc(db, Doc([], RootTitle(tree), RootOf(tree))).(
    grants := db.grants + GrantsFor(db.next, key),
    roots := db.roots[(tree, KeyText(key)) := db.next])
  }

  /** Get or create. A rival that commits the same key between the look and the insert leaves
      its own root in place, and this worker's insert undone but for the id it drew. */
  function Rooted(db: Tables, document: nat, tree: Tree, rival: bool): (Result<nat, AccessError>, Tables) {
    if tree == Derived("") then (Err(BlankTreeKind), db)
    else if document !in db.docs then (Err(NoSuchDocument), db)
    else
      var key := KeyOf(db, document);
      var slot := (tree, KeyText(key));
      if slot in db.roots then (Ok(db.roots[slot]), db)
      else
        var minted := Minted(db, tree, key);
        (Ok(db.next), if rival then minted.(next := minted.next + 1) else minted)
  }

  class Session {
    var db: Tables

    constructor (tables: Tables)
      ensures db == tables
    {
      db := tables;
    }

    method AddGrants(root: nat, key: Key)
      modifies this
      ensures db == old(db).(grants := old(db).grants + GrantsFor(root, key))
    {
      ghost var before := db.grants;
      assert before + GrantsFor(root, []) == before;
      for i := 0 to |key|
        invariant db == old(db).(grants := before + GrantsFor(root, key[..i]))
      {
        var grant := Grant(root, key[i].0, key[i].1);
        assert GrantsFor(root, key[..i + 1]) == GrantsFor(root, key[..i]) + [grant];
        db := db.(grants := db.grants + [grant]);
      }
      assert key[..|key|] == key;
    }

    method GetOrCreateRoot(document: nat, tree: Tree, rival: bool) returns (r: Result<nat, AccessError>)
      modifies this
      ensures (r, db) == Rooted(old(db), document, tree, rival)
    {
      if tree == Derived("") { return Err(BlankTreeKind); }
      if document !in db.docs { return Err(NoSuchDocument); }
      var key := AccessKey(db.grants, db.docs[document].path, document);
      var slot := (tree, KeyText(key));
      if slot in db.roots { return Ok(db.roots[slot]); }
      if rival { db := Minted(db, tree, key); }
      var savepoint := db;
      var root := db.next;
      db := WithDoc(db, Doc([], RootTitle(tree), RootOf(tree)));
      AddGrants(root, key);
      if slot in db.roots {
        db := savepoint.(next := db.next);
        return Ok(db.roots[slot]);
      }
      db := db.(roots := db.roots[slot := root]);
      r := Ok(root);
    }
  }

  // ----- what the tables keep -----------------------------------------------------------------

  ghost predicate Sane(db: Tables) {
    && Forest(PathsOf(db))
    && (forall d :: d in db.docs ==> d < db.next)
    && forall g :: g in db.grants ==> g.doc in db.docs
  }

  /** A root has no parent, and is the one registered for its tree and its access. */
  ghost predicate RootTrue(db: Tables, d: nat)
    requires d in db.docs
  {
    var doc := db.docs[d];
    doc.usetype.RootOf? ==>
      && doc.path == []
      && var slot := (doc.usetype.tree, KeyText(KeyOf(db, d)));
         slot in db.roots && db.roots[slot] == d
  }

  ghost predicate SlotTrue(db: Tables, slot: (Tree, string))
    requires slot in db.roots
  {
    var d := db.roots[slot];
    d in db.docs && db.docs[d].usetype == RootOf(slot.0) && KeyText(KeyOf(db, d)) == slot.1
  }

  /** An entity is a child of an entities root and carries no grants of its own. */
  ghost predicate EntityTrue(db: Tables, d: nat)
    requires d in db.docs
  {
    var doc := db.docs[d];
    doc.usetype == Entity ==>
      && |doc.path| == 1 && doc.path[0] in db.docs
      && db.docs[doc.path[0]].usetype == RootOf(Entities)
      && forall g :: g in db.grants ==> g.doc != d
  }

  ghost predicate Inv(db: Tables) {
    && Sane(db)
    && (forall d {:trigger RootTrue(db, d)} :: d in db.docs ==> RootTrue(db, d))
    && (forall slot {:trigger SlotTrue(db, slot)} :: slot in db.roots ==> SlotTrue(db, slot))
    && forall d {:trigger EntityTrue(db, d)} :: d in db.docs ==> EntityTrue(db, d)
  }

  lemma ChainInDocs(db: Tables, d: nat)
    requires Sane(db) && d in db.docs
    ensures forall a :: a in ChainOf(db, d) ==> a in db.docs
  {
    assert Lineage(PathsOf(db), d);
    assert forall a :: a in PathsOf(db) <==> a in db.docs;
  }

  /** The grants written for a new root give it exactly the key it was minted for. */
  lemma MintedKey(db: Tables, tree: Tree, chain: set<nat>)
    requires Sane(db)
    ensures KeyOf(Minted(db, tree, KeyFor(db.grants, chain)), db.next) == KeyFor(db.grants, chain)
  {
    var key := KeyFor(db.grants, chain);
    var root := db.next;
    var after := db.grants + GrantsFor(root, key);
    forall p ensures Right(after, Chain([], root), p) == Right(db.grants, chain, p) {
      RightsOfMinted(db.grants, root, key, p);
      KeyDecides(db.grants, chain, p);
    }
    SameRightsSameKey(after, db.grants, Chain([], root), chain);
  }

  lemma RightsOfMinted(grants: seq<Grant>, root: nat, key: Key, p: nat)
    requires forall g :: g in grants ==> g.doc != root
    ensures var right := Right(grants + GrantsFor(root, key), Chain([], root), p);
            && (right == Some(Write) <==> (p, Write) in key)
            && (right.Some? <==> (p, Write) in key || (p, Read) in key)
  {
    var added := GrantsFor(root, key);
    forall level ensures Grant(root, p, level) in added <==> (p, level) in key {
      if (p, level) in key {
        var i :| 0 <= i < |key| && key[i] == (p, level);
        assert added[i] == Grant(root, p, level);
      }
    }
    assert forall g :: g in grants + added && g.doc == root ==> g in added;
    assert forall level :: Grant(root, p, level) in added ==> Grant(root, p, level) in grants + added;
    assert forall g: Grant :: g.doc == root && g.principal == p ==> g == Grant(root, p, g.level);
  }

  lemma MintedElsewhere(db: Tables, tree: Tree, key: Key, d: nat)
    requires Sane(db) && d in db.docs
    ensures KeyOf(Minted(db, tree, key), d) == KeyOf(db, d)
  {
    var after := Minted(db, tree, key).grants;
    ChainInDocs(db, d);
    assert forall g :: g in GrantsFor(db.next, key) ==> g.doc == db.next;
    KeyLocal(after, db.grants, ChainOf(db, d), ChainOf(db, d));
  }

  lemma MintedSane(db: Tables, tree: Tree, key: Key)
    requires Sane(db)
    ensures Sane(Minted(db, tree, key))
  {
    var after := Minted(db, tree, key);
    assert forall d :: d in PathsOf(after) ==> d == db.next || (d in PathsOf(db) && Lineage(PathsOf(db), d));
    assert forall g :: g in GrantsFor(db.next, key) ==> g.doc == db.next;
  }

  /** Minting the root of a document's access keeps the tables true. */
  lemma MintKeeps(db: Tables, tree: Tree, document: nat)
    requires Inv(db) && document in db.docs && (tree, KeyText(KeyOf(db, document))) !in db.roots
    ensures var after := Minted(db, tree, KeyOf(db, document));
            Inv(after) && KeyOf(after, db.next) == KeyOf(db, document)
  {
    var key := KeyOf(db, document);
    var after := Minted(db, tree, key);
    MintedSane(db, tree, key);
    MintedKey(db, tree, ChainOf(db, document));
    forall d | d in db.docs ensures KeyOf(after, d) == KeyOf(db, d) {
      MintedElsewhere(db, tree, key, d);
    }
    MintedRoots(db, tree, document);
    MintedSlots(db, tree, document);
    MintedEntities(db, tree, key);
  }

  lemma MintedRoots(db: Tables, tree: Tree, document: nat)
    requires Inv(db) && document in db.docs && (tree, KeyText(KeyOf(db, document))) !in db.roots
    requires var after := Minted(db, tree, KeyOf(db, document));
             && KeyOf(after, db.next) == KeyOf(db, document)
             && forall d :: d in db.docs ==> KeyOf(after, d) == KeyOf(db, d)
    ensures var after := Minted(db, tree, KeyOf(db, document));
            forall d :: d in after.docs ==> RootTrue(after, d)
  {
    var after := Minted(db, tree, KeyOf(db, document));
    forall d | d in after.docs ensures RootTrue(after, d) {
      assert d != db.next ==> RootTrue(db, d);
    }
  }

  lemma MintedSlots(db: Tables, tree: Tree, document: nat)
    requires Inv(db) && document in db.docs && (tree, KeyText(KeyOf(db, document))) !in db.roots
    requires var after := Minted(db, tree, KeyOf(db, document));
             && KeyOf(after, db.next) == KeyOf(db, document)
             && forall d :: d in db.docs ==> KeyOf(after, d) == KeyOf(db, d)
    ensures var after := Minted(db, tree, KeyOf(db, document));
            forall slot :: slot in after.roots ==> SlotTrue(after, slot)
  {
    var after := Minted(db, tree, KeyOf(db, document));
    forall slot | slot in after.roots ensures SlotTrue(after, slot) {
      assert slot in db.roots ==> SlotTrue(db, slot);
    }
  }

  lemma MintedEntities(db: Tables, tree: Tree, key: Key)
    requires Inv(db)
    ensures var after := Minted(db, tree, key); forall d :: d in after.docs ==> EntityTrue(after, d)
  {
    var after := Minted(db, tree, key);
    assert forall g :: g in GrantsFor(db.next, key) ==> g.doc == db.next;
    forall d | d in after.docs ensures EntityTrue(after, d) {
      assert d != db.next ==> EntityTrue(db, d);
    }
  }

  /** However the race goes, the root returned is the one registered for the document's
      access, it carries exactly that access, and the tables stay true: no loser leaves a
      root document, a grant or a second registration behind. */
  lemma RootedIsKeyed(db: Tables, document: nat, tree: Tree, rival: bool)
    requires Inv(db) && document in db.docs && tree != Derived("")
    ensures var (r, after) := Rooted(db, document, tree, rival);
            && r.Ok? && Inv(after)
            && r.value in after.docs && after.docs[r.value].usetype == RootOf(tree)
            && document in after.docs && KeyOf(after, document) == KeyOf(db, document)
            && KeyOf(after, r.value) == KeyOf(db, document)
  {
    var key := KeyOf(db, document);
    var slot := (tree, KeyText(key));
    if slot in db.roots {
      assert SlotTrue(db, slot);
      KeyTextInjective(KeyOf(db, db.roots[slot]), key);
    } else {
      MintKeeps(db, tree, document);
      MintedElsewhere(db, tree, key, document);
      var minted := Minted(db, tree, key);
      LinksAndIds(minted, minted.links, minted.next + 1);
    }
  }

  /** Links, and ids drawn and not used, are beside the point. */
  lemma LinksAndIds(db: Tables, links: set<Link>, next: nat)
    requires Inv(db) && next >= db.next
    ensures Inv(db.(links := links, next := next))
  {
    var after := db.(links := links, next := next);
    assert PathsOf(after) == PathsOf(db);
    forall d | d in after.docs ensures RootTrue(after, d) && EntityTrue(after, d) {
      assert RootTrue(db, d) && EntityTrue(db, d);
      SameRoot(db, after, d);
    }
    forall slot | slot in after.roots ensures SlotTrue(after, slot) {
      assert SlotTrue(db, slot);
      SameSlot(db, after, slot);
    }
  }

  lemma SameRoot(db: Tables, after: Tables, d: nat)
    requires d in db.docs && RootTrue(db, d)
    requires after.roots == db.roots && d in after.docs && after.docs[d] == db.docs[d]
    requires KeyOf(after, d) == KeyOf(db, d)
    ensures RootTrue(after, d)
  {
  }

  lemma SameSlot(db: Tables, after: Tables, slot: (Tree, string))
    requires slot in db.roots && SlotTrue(db, slot) && after.roots == db.roots
    requires var d := db.roots[slot];
             d in after.docs && after.docs[d] == db.docs[d] && KeyOf(after, d) == KeyOf(db, d)
    ensures SlotTrue(after, slot)
  {
  }

  /** One root for each distinct access and tree: two roots of a tree that let everyone in
      alike are the same document. */
  lemma OneRootEach(db: Tables, a: nat, b: nat)
    requires Inv(db) && a in db.docs && b in db.docs
    requires db.docs[a].usetype.RootOf? && db.docs[b].usetype == db.docs[a].usetype
    requires forall p :: Right(db.grants, ChainOf(db, a), p) == Right(db.grants, ChainOf(db, b), p)
    ensures a == b
  {
    SameKeySameAccess(db.grants, ChainOf(db, a), ChainOf(db, b));
    assert RootTrue(db, a) && RootTrue(db, b);
  }

  /** A derived tree hung under the root minted for a document opens nothing below that
      document when no descendant widens. */
  lemma DerivedRootOpensNothing(db: Tables, document: nat, kind: string, rival: bool, below: nat, p: nat)
    requires Inv(db) && kind != "" && document in db.docs
    requires below in db.docs && document in db.docs[below].path
    requires forall b :: b in PathsOf(db) ==> !Widens(db.grants, PathsOf(db), document, b)
    ensures var (r, after) := Rooted(db, document, Derived(kind), rival);
            && r.Ok? && r.value in after.docs
            && (Reads(after, r.value, p) ==> Reads(db, below, p))
  {
    var (r, after) := Rooted(db, document, Derived(kind), rival);
    RootedIsKeyed(db, document, Derived(kind), rival);
    KeyDecides(after.grants, ChainOf(after, r.value), p);
    NothingWidensExactly(db.grants, PathsOf(db), document);
    assert Covers(db.grants, PathsOf(db), document, below);
  }
}
