// Entity resolution keyed by access: a mention resolves only among the entities whose
// readers are the readers of the document that mentions it, and the copies of one name under
// different roots are joined.
module Entities {
  import opened Text
  import opened Access
  import opened Roots

  /** What resolution is given: the query for entity nodes under some roots, whose choice of
      rows and their order are the store's; the similarity of two names and the least that
      counts as a match; and the folding of a name into a cache key. */
  datatype Matcher = Matcher(
    query: (Tables, string, set<nat>) -> seq<nat>,
    score: (string, string) -> real,
    threshold: real,
    fold: string -> string)

  type Cache = map<(nat, string), nat>

  predicate IsEntity(db: Tables, d: nat) {
    d in db.docs && db.docs[d].usetype == Entity && db.docs[d].path != []
  }

  function ParentOf(db: Tables, d: nat): nat
    requires IsEntity(db, d)
  {
    db.docs[d].path[|db.docs[d].path| - 1]
  }

  /** The query returns entities directly under the roots it is given, and nothing else. */
  ghost predicate Sound(m: Matcher) {
    forall db, name, roots, d :: d in m.query(db, name, roots) ==> IsEntity(db, d) && ParentOf(db, d) in roots
  }

  predicate AllEntities(db: Tables, candidates: seq<nat>) {
    forall i :: 0 <= i < |candidates| ==> IsEntity(db, candidates[i])
  }

  lemma SoundQuery(m: Matcher, db: Tables, name: string, roots: set<nat>)
    requires Sound(m)
    ensures AllEntities(db, m.query(db, name, roots))
    ensures forall d :: d in m.query(db, name, roots) ==> ParentOf(db, d) in roots
  {
    var found := m.query(db, name, roots);
    assert forall i :: 0 <= i < |found| ==> found[i] in found;
  }

  // ----- the best match -----------------------------------------------------------------------

  /** The first of the most similar candidates that have a title and any similarity at all. */
  function Champion(db: Tables, m: Matcher, name: string, candidates: seq<nat>): Option<nat>
    requires AllEntities(db, candidates)
    ensures Champion(db, m, name, candidates).Some? ==> Champion(db, m, name, candidates).value in candidates
  {
    if candidates == [] then None
    else
      var k := |candidates| - 1;
      var c := Champion(db, m, name, candidates[..k]);
      var title := db.docs[candidates[k]].title;
      if title != "" && m.score(name, title) > ScoreOf(db, m, name, c) then Some(candidates[k]) else c
  }

  function ScoreOf(db: Tables, m: Matcher, name: string, c: Option<nat>): real {
    if c.Some? && c.value in db.docs then m.score(name, db.docs[c.value].title) else 0.0
  }

  function Best(db: Tables, m: Matcher, name: string, candidates: seq<nat>): Option<nat>
    requires AllEntities(db, candidates)
  {
    var c := Champion(db, m, name, candidates);
    if c.Some? && ScoreOf(db, m, name, c) >= m.threshold then c else None
  }

  method BestMatch(db: Tables, m: Matcher, name: string, candidates: seq<nat>) returns (match': Option<nat>)
    requires AllEntities(db, candidates)
    ensures match' == Best(db, m, name, candidates)
  {
    var best: Option<nat> := None;
    var bestScore := 0.0;
    for k := 0 to |candidates|
      invariant best == Champion(db, m, name, candidates[..k])
      invariant bestScore == ScoreOf(db, m, name, best)
    {
      assert candidates[..k + 1][..k] == candidates[..k];
      var title := db.docs[candidates[k]].title;
      if title != "" {
        var score := m.score(name, title);
        if score > bestScore {
          bestScore := score;
          best := Some(candidates[k]);
        }
      }
    }
    assert candidates[..|candidates|] == candidates;
    match' := if best.Some? && bestScore >= m.threshold then best else None;
  }

  /** The champion beats or equals every titled candidate. */
  lemma {:induction false} ChampionWins(db: Tables, m: Matcher, name: string, candidates: seq<nat>)
    requires AllEntities(db, candidates)
    ensures var c := Champion(db, m, name, candidates);
            && (c.Some? ==> db.docs[c.value].title != "" && ScoreOf(db, m, name, c) > 0.0)
            && forall i :: 0 <= i < |candidates| && db.docs[candidates[i]].title != "" ==>
                 m.score(name, db.docs[candidates[i]].title) <= ScoreOf(db, m, name, c)
  {
    if candidates != [] {
      var k := |candidates| - 1;
      ChampionWins(db, m, name, candidates[..k]);
      assert forall i :: 0 <= i < k ==> candidates[..k][i] == candidates[i];
    }
  }

  /** A match is titled, similar enough and at least as similar as every other candidate; there
      is none exactly when no titled candidate is similar enough, and similar at all. */
  lemma BestIs(db: Tables, m: Matcher, name: string, candidates: seq<nat>)
    requires AllEntities(db, candidates)
    ensures var b := Best(db, m, name, candidates);
            && (b.Some? ==>
                  && b.value in candidates && db.docs[b.value].title != ""
                  && ScoreOf(db, m, name, b) > 0.0 && ScoreOf(db, m, name, b) >= m.threshold
                  && forall c :: c in candidates && db.docs[c].title != "" ==>
                       m.score(name, db.docs[c].title) <= ScoreOf(db, m, name, b))
            && (b.None? <==> forall c :: c in candidates && db.docs[c].title != "" ==>
                  m.score(name, db.docs[c].title) <= 0.0 || m.score(name, db.docs[c].title) < m.threshold)
  {
    ChampionWins(db, m, name, candidates);
  }

  // ----- joining the copies -------------------------------------------------------------------

  /** The candidates under one root, in order. */
  function Under(db: Tables, candidates: seq<nat>, root: nat): (under: seq<nat>)
    requires AllEntities(db, candidates)
    ensures AllEntities(db, under)
    ensures forall c :: c in under <==> c in candidates && ParentOf(db, c) == root
  {
    if candidates == [] then []
    else
      var k := |candidates| - 1;
      var earlier := Under(db, candidates[..k], root);
      assert candidates == candidates[..k] + [candidates[k]];
      if ParentOf(db, candidates[k]) == root then earlier + [candidates[k]] else earlier
  }

  function ParentsOf(db: Tables, candidates: seq<nat>): set<nat>
    requires AllEntities(db, candidates)
  {
    set i | 0 <= i < |candidates| :: ParentOf(db, candidates[i])
  }

  /** One edge for each of the roots that holds a match. */
  function CorefLinks(db: Tables, m: Matcher, entity: nat, name: string, candidates: seq<nat>, roots: set<nat>): set<Link>
    requires AllEntities(db, candidates)
  {
    set r | r in roots && Best(db, m, name, Under(db, candidates, r)).Some? ::
      Link(entity, Best(db, m, name, Under(db, candidates, r)).value, RbacCoref)
  }

  function OtherRoots(db: Tables, root: nat): set<nat> {
    set slot | slot in db.roots && slot.0 == Tree.Entities && db.roots[slot] != root :: db.roots[slot]
  }

  method GroupByRoot(db: Tables, candidates: seq<nat>) returns (byRoot: map<nat, seq<nat>>)
    requires AllEntities(db, candidates)
    ensures byRoot.Keys == ParentsOf(db, candidates)
    ensures forall r :: r in byRoot ==> byRoot[r] == Under(db, candidates, r)
  {
    byRoot := map[];
    for k := 0 to |candidates|
      invariant byRoot.Keys == ParentsOf(db, candidates[..k])
      invariant forall r :: r in byRoot ==> byRoot[r] == Under(db, candidates[..k], r)
    {
      var d := candidates[k];
      var p := ParentOf(db, d);
      GroupStep(db, candidates, k);
      byRoot := byRoot[p := (if p in byRoot then byRoot[p] else []) + [d]];
    }
    assert candidates[..|candidates|] == candidates;
  }

  /** The best match of each group, and how many there are. */
  method JoinsTo(db: Tables, m: Matcher, entity: nat, name: string, ghost candidates: seq<nat>, byRoot: map<nat, seq<nat>>)
    returns (joins: set<Link>, written: nat)
    requires AllEntities(db, candidates)
    requires forall r :: r in byRoot ==> byRoot[r] == Under(db, candidates, r)
    ensures joins == CorefLinks(db, m, entity, name, candidates, byRoot.Keys) && written == |joins|
  {
    joins, written := {}, 0;
    var todo := byRoot.Keys;
    ghost var done: set<nat> := {};
    while todo != {}
      invariant todo <= byRoot.Keys && forall r :: r in done <==> r in byRoot && r !in todo
      invariant joins == CorefLinks(db, m, entity, name, candidates, done) && written == |joins|
      decreases |todo|
    {
      var r :| r in todo;
      var twin := BestMatch(db, m, name, byRoot[r]);
      JoinStep(db, m, entity, name, candidates, done, r);
      todo, done := todo - {r}, done + {r};
      if twin.Some? {
        joins := joins + {Link(entity, twin.value, RbacCoref)};
        written := written + 1;
      }
    }
    assert done == byRoot.Keys;
  }

  /** Join the entity to the best match under each of the other roots. */
  method LinkRbacCoref(s: Session, m: Matcher, entity: nat, name: string, root: nat) returns (written: nat)
    requires Sound(m)
    modifies s
    ensures AllEntities(old(s.db), m.query(old(s.db), name, OtherRoots(old(s.db), root)))
    ensures var db := old(s.db);
            var candidates := m.query(db, name, OtherRoots(db, root));
            var joins := CorefLinks(db, m, entity, name, candidates, ParentsOf(db, candidates));
            s.db == db.(links := db.links + joins) && written == |joins|
  {
    var candidates := m.query(s.db, name, OtherRoots(s.db, root));
    SoundQuery(m, s.db, name, OtherRoots(s.db, root));
    var byRoot := GroupByRoot(s.db, candidates);
    var joins;
    joins, written := JoinsTo(s.db, m, entity, name, candidates, byRoot);
    s.db := s.db.(links := s.db.links + joins);
  }

  lemma GroupStep(db: Tables, candidates: seq<nat>, k: nat)
    requires AllEntities(db, candidates) && k < |candidates|
    ensures var p := ParentOf(db, candidates[k]);
            && ParentsOf(db, candidates[..k + 1]) == ParentsOf(db, candidates[..k]) + {p}
            && Under(db, candidates[..k + 1], p) == Under(db, candidates[..k], p) + [candidates[k]]
            && (p !in ParentsOf(db, candidates[..k]) ==> Under(db, candidates[..k], p) == [])
            && forall r :: r != p ==> Under(db, candidates[..k + 1], r) == Under(db, candidates[..k], r)
  {
    var before, after := candidates[..k], candidates[..k + 1];
    assert after[..k] == before && after[k] == candidates[k];
    var p := ParentOf(db, candidates[k]);
    forall r ensures r in ParentsOf(db, after) <==> r in ParentsOf(db, before) || r == p {
      if r in ParentsOf(db, before) {
        var i :| 0 <= i < k && ParentOf(db, before[i]) == r;
        assert ParentOf(db, after[i]) == r;
      }
    }
    if Under(db, before, p) != [] {
      var c := Under(db, before, p)[0];
      assert c in Under(db, before, p);
      var i :| 0 <= i < |before| && before[i] == c;
    }
  }

  lemma JoinStep(db: Tables, m: Matcher, entity: nat, name: string, candidates: seq<nat>, done: set<nat>, r: nat)
    requires AllEntities(db, candidates) && r !in done
    ensures var twin := Best(db, m, name, Under(db, candidates, r));
            var before := CorefLinks(db, m, entity, name, candidates, done);
            var after := CorefLinks(db, m, entity, name, candidates, done + {r});
            if twin.None? then after == before
            else
              var link := Link(entity, twin.value, RbacCoref);
              after == before + {link} && link !in before
  {
    var twin := Best(db, m, name, Under(db, candidates, r));
    if twin.Some? {
      forall q | q in done && Best(db, m, name, Under(db, candidates, q)).Some?
        ensures Best(db, m, name, Under(db, candidates, q)) != twin
      {
        BestIs(db, m, name, Under(db, candidates, q));
        BestIs(db, m, name, Under(db, candidates, r));
      }
    }
  }

  // ----- resolving one mention ------------------------------------------------------------------

  function Remember(cache: Option<Cache>, key: (nat, string), entity: nat): Option<Cache> {
    if cache.None? then None else Some(cache.value[key := entity])
  }

  function WithMention(db: Tables, source: nat, entity: nat): Tables {
    db.(links := db.links + {Link(source, entity, Mentions)})
  }

  function WithEntity(db: Tables, root: nat, name: string): Tables {
    WithDoc(db, Doc([root], name, Entity))
  }

  datatype Resolution = Resolution(outcome: Result<(nat, bool), AccessError>, db: Tables, cache: Option<Cache>)

  /** A new entity, joined to its copies under the other roots. */
  ghost function Joined(db: Tables, m: Matcher, name: string, root: nat): Tables
    requires Sound(m)
  {
    var made := WithEntity(db, root, name);
    var candidates := m.query(made, name, OtherRoots(made, root));
    SoundQuery(m, made, name, OtherRoots(made, root));
    made.(links := made.links + CorefLinks(made, m, db.next, name, candidates, ParentsOf(made, candidates)))
  }

  ghost function Resolved(db: Tables, m: Matcher, cache: Option<Cache>, name: string, source: nat, rival: bool): Resolution
    requires Sound(m)
  {
    var (r, rooted) := Rooted(db, source, Tree.Entities, rival);
    if r.Err? then Resolution(Err(r.error), rooted, cache)
    else
      var root := r.value;
      var key := (root, m.fold(name));
      if cache.Some? && key in cache.value then
        Resolution(Ok((cache.value[key], false)), WithMention(rooted, source, cache.value[key]), cache)
      else
        SoundQuery(m, rooted, name, {root});
        var found := Best(rooted, m, name, m.query(rooted, name, {root}));
        if found.Some? then
          Resolution(Ok((found.value, false)), WithMention(rooted, source, found.value), Remember(cache, key, found.value))
        else
          var entity := rooted.next;
          Resolution(Ok((entity, true)), WithMention(Joined(rooted, m, name, root), source, entity), Remember(cache, key, entity))
  }

  method CreateEntity(s: Session, m: Matcher, name: string, root: nat) returns (entity: nat)
    requires Sound(m)
    modifies s
    ensures entity == old(s.db).next && s.db == Joined(old(s.db), m, name, root)
  {
    entity := s.db.next;
    s.db := WithEntity(s.db, root, name);
    var written := LinkRbacCoref(s, m, entity, name, root);
  }

  method ResolveEntity(s: Session, m: Matcher, name: string, source: nat, cache: Option<Cache>, rival: bool)
    returns (outcome: Result<(nat, bool), AccessError>, cache': Option<Cache>)
    requires Sound(m)
    modifies s
    ensures Resolution(outcome, s.db, cache') == Resolved(old(s.db), m, cache, name, source, rival)
  {
    cache' := cache;
    var r := s.GetOrCreateRoot(source, Tree.Entities, rival);
    if r.Err? { return Err(r.error), cache; }
    var root := r.value;
    var key := (root, m.fold(name));
    if cache.Some? && key in cache.value {
      s.db := WithMention(s.db, source, cache.value[key]);
      return Ok((cache.value[key], false)), cache;
    }
    SoundQuery(m, s.db, name, {root});
    var found := BestMatch(s.db, m, name, m.query(s.db, name, {root}));
    if found.Some? {
      s.db := WithMention(s.db, source, found.value);
      return Ok((found.value, false)), Remember(cache, key, found.value);
    }
    var entity := CreateEntity(s, m, name, root);
    s.db := WithMention(s.db, source, entity);
    return Ok((entity, true)), Remember(cache, key, entity);
  }
}
