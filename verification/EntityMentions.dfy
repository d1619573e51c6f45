// The mention each resolution records: exactly one link, on every path, and over every run
// the links there are.
module EntityMentions {
  import opened Text
  import opened Access
  import opened Roots
  import opened Entities
  import opened EntityRuns

  predicate Mentioned(db: Tables, source: nat, entity: nat) {
    Link(source, entity, Mentions) in db.links
  }

  // ----- one resolution -------------------------------------------------------------------------

  /** The mention is there, and every other mention is there or not as it was. */
  ghost predicate OneMention(db: Tables, after: Tables, source: nat, entity: nat) {
    forall a, b :: Mentioned(after, a, b) <==> Mentioned(db, a, b) || (a == source && b == entity)
  }

  lemma JoinedMentionsNone(db: Tables, m: Matcher, name: string, root: nat)
    requires Sound(m)
    ensures forall a, b :: Mentioned(Joined(db, m, name, root), a, b) <==> Mentioned(db, a, b)
  {
  }

  lemma FoundOrMadeMentions(db: Tables, m: Matcher, cache: Option<Cache>, name: string, source: nat, root: nat)
    requires Sound(m)
    ensures var r := FoundOrMade(db, m, cache, name, source, root);
            r.outcome.Ok? && OneMention(db, r.db, source, r.outcome.value.0)
  {
    JoinedMentionsNone(db, m, name, root);
  }

  /** Whether the entity came from the cache, from a match or was made, its mention by the
      document is recorded, and no other. */
  lemma MentionRecorded(db: Tables, m: Matcher, cache: Option<Cache>, name: string, source: nat, rival: bool)
    requires Sound(m) && Resolved(db, m, cache, name, source, rival).outcome.Ok?
    ensures var r := Resolved(db, m, cache, name, source, rival);
            OneMention(db, r.db, source, r.outcome.value.0)
  {
    var (root, rooted) := Rooted(db, source, Tree.Entities, rival);
    ResolvedFrom(db, m, cache, name, source, rival);
    FoundOrMadeMentions(rooted, m, cache, name, source, root.value);
    assert rooted.links == db.links;
  }

  /** The flag says whether the entity is new, a new one has the name and stands under the
      root, and the run's cache answers the same name with the same entity from then on. */
  lemma MadeIsNew(db: Tables, m: Matcher, cache: Option<Cache>, name: string, source: nat, root: nat)
    requires Sound(m) && Inv(db) && CachesTrue(db, cache)
    ensures var r := FoundOrMade(db, m, cache, name, source, root);
            && r.outcome.Ok?
            && (r.outcome.value.1 <==> r.outcome.value.0 !in db.docs)
            && (r.outcome.value.1 ==> r.db.docs == db.docs[r.outcome.value.0 := Doc([root], name, Entity)])
            && (!r.outcome.value.1 ==> r.db.docs == db.docs)
            && (cache.None? <==> r.cache.None?)
            && (cache.Some? ==> r.cache.value == cache.value[(root, m.fold(name)) := r.outcome.value.0])
  {
    var key := (root, m.fold(name));
    SoundQuery(m, db, name, {root});
    BestIs(db, m, name, m.query(db, name, {root}));
    FoundOrMadeIs(db, m, cache, name, source, root);
    if cache.Some? && key in cache.value {
      assert cache.value[key := cache.value[key]] == cache.value;
    }
  }

  // ----- every run ----------------------------------------------------------------------------------

  ghost predicate Logged(log: seq<Resolving>, source: nat, entity: nat) {
    exists i :: 0 <= i < |log| && log[i].source == source && log[i].entity == entity
  }

  /** The mentions everyone sees are those there were at the start and those logged since. */
  ghost predicate MentionsAre(db: Tables, base: Tables, log: seq<Resolving>) {
    forall a, b :: Mentioned(db, a, b) <==> Mentioned(base, a, b) || Logged(log, a, b)
  }

  /** A worker sees, besides, those it has logged itself, and drafts no others. */
  ghost predicate DraftMentions(db: Tables, o: Draft) {
    forall a, b :: Mentioned(View(db, o), a, b) <==> Mentioned(db, a, b) || Logged(o.log, a, b)
  }

  ghost predicate AllMentions(s: State, base: Tables) {
    && MentionsAre(s.db, base, s.log)
    && forall w {:trigger DraftOf(s.drafts, w)} :: DraftMentions(s.db, DraftOf(s.drafts, w))
  }

  /** The rest of the appliance leaves mentions alone. */
  ghost predicate LeavesMentions(s: State, e: Event) {
    e.Elsewhere? ==> forall a, b :: Mentioned(e.after, a, b) <==> Mentioned(s.db, a, b)
  }

  ghost predicate MentionsLeft(m: Matcher, s: State, events: seq<Event>)
    requires Sound(m)
    decreases |events|
  {
    |events| > 0 && Enabled(s, events[0]) ==> LeavesMentions(s, events[0]) && MentionsLeft(m, Step(m, s, events[0]), events[1..])
  }

  lemma LoggedJoin(a: seq<Resolving>, b: seq<Resolving>, source: nat, entity: nat)
    ensures Logged(a + b, source, entity) <==> Logged(a, source, entity) || Logged(b, source, entity)
  {
    if Logged(a, source, entity) {
      var i :| 0 <= i < |a| && a[i].source == source && a[i].entity == entity;
      assert (a + b)[i] == a[i];
    }
    if Logged(b, source, entity) {
      var i :| 0 <= i < |b| && b[i].source == source && b[i].entity == entity;
      assert (a + b)[|a| + i] == b[i];
    }
  }

  lemma SameMentions(db: Tables, after: Tables, o: Draft)
    requires (forall a, b :: Mentioned(after, a, b) <==> Mentioned(db, a, b)) && DraftMentions(db, o)
    ensures DraftMentions(after, o)
  {
    forall a, b ensures Mentioned(View(after, o), a, b) <==> Mentioned(after, a, b) || Logged(o.log, a, b) {
      assert Mentioned(View(db, o), a, b) <==> Mentioned(db, a, b) || Logged(o.log, a, b);
    }
  }

  lemma {:induction false} LookMentions(m: Matcher, db: Tables, o: Draft, cache: Option<Cache>, name: string, source: nat, rival: bool, l: Resolving)
    requires Sound(m) && Inv(db) && DraftTrue(db, o) && source in db.docs && DraftMentions(db, o)
    requires var r := Resolved(View(db, o), m, cache, name, source, rival);
             r.outcome.Ok? ==> l.source == source && l.entity == r.outcome.value.0
    ensures var now := Resolved(View(db, o), m, cache, name, source, rival).db;
            && DraftMentions(Published(db, now), Drafted(db, o, now, l))
            && Published(db, now).links == db.links
  {
    var now := Resolved(View(db, o), m, cache, name, source, rival).db;
    LookSplits(m, db, o, cache, name, source, rival, l);
    MentionRecorded(View(db, o), m, cache, name, source, rival);
    var p, next := Published(db, now), Drafted(db, o, now, l);
    forall a, b ensures Mentioned(View(p, next), a, b) <==> Mentioned(p, a, b) || Logged(next.log, a, b) {
      LoggedJoin(o.log, [l], a, b);
      assert Logged([l], a, b) <==> [l][0].source == a && [l][0].entity == b;
    }
  }

  lemma {:induction false} ResolveMentions(m: Matcher, s: State, base: Tables, w: nat, given: Option<Cache>, name: string, source: nat, rival: bool)
    requires Sound(m) && StateTrue(s) && AllMentions(s, base) && source in s.db.docs
    ensures var r := Resolved(View(s.db, DraftOf(s.drafts, w)), m, given, name, source, rival);
            AllMentions(AfterLook(s, w, source, r), base)
  {
    var o := DraftOf(s.drafts, w);
    assert WorkerTrue(s.db, o, CacheOf(s.caches, w)) && DraftMentions(s.db, o);
    var r := Resolved(View(s.db, o), m, given, name, source, rival);
    var t := AfterLook(s, w, source, r);
    if r.outcome.Ok? {
      var l := Resolving(source, r.outcome.value.0, KeyOf(s.db, source));
      LookMentions(m, s.db, o, given, name, source, rival, l);
      OneDraft(s, t, base, w);
    }
  }

  /** The committed links are as they were, and only this worker's draft is new. */
  lemma OneDraft(s: State, t: State, base: Tables, w: nat)
    requires AllMentions(s, base) && t.db.links == s.db.links && t.log == s.log
    requires forall v: nat :: v != w ==> DraftOf(t.drafts, v) == DraftOf(s.drafts, v)
    requires DraftMentions(t.db, DraftOf(t.drafts, w))
    ensures AllMentions(t, base)
  {
    forall v: nat ensures DraftMentions(t.db, DraftOf(t.drafts, v)) {
      if v != w {
        assert DraftMentions(s.db, DraftOf(s.drafts, v));
        SameMentions(s.db, t.db, DraftOf(s.drafts, v));
      }
    }
    assert forall a, b :: Mentioned(t.db, a, b) <==> Mentioned(s.db, a, b);
  }

  lemma CommitMentions(m: Matcher, s: State, base: Tables, w: nat)
    requires Sound(m) && AllMentions(s, base)
    ensures AllMentions(Step(m, s, Commit(w)), base)
  {
    var o, t := DraftOf(s.drafts, w), Step(m, s, Commit(w));
    assert DraftMentions(s.db, o);
    forall a, b ensures Mentioned(t.db, a, b) <==> Mentioned(base, a, b) || Logged(t.log, a, b) {
      LoggedJoin(s.log, o.log, a, b);
    }
    forall v: nat ensures DraftMentions(t.db, DraftOf(t.drafts, v)) {
      assert DraftMentions(s.db, DraftOf(s.drafts, v));
      OtherMentions(s.db, o, DraftOf(t.drafts, v));
    }
  }

  lemma OtherMentions(db: Tables, o: Draft, other: Draft)
    requires DraftMentions(db, other) || other == NoDraft
    ensures DraftMentions(View(db, o), other)
  {
    forall a, b ensures Mentioned(View(View(db, o), other), a, b) <==> Mentioned(View(db, o), a, b) || Logged(other.log, a, b) {
      assert other != NoDraft ==> (Mentioned(View(db, other), a, b) <==> Mentioned(db, a, b) || Logged(other.log, a, b));
    }
  }

  lemma {:induction false} StepKeepsMentions(m: Matcher, s: State, base: Tables, e: Event)
    requires Sound(m) && StateTrue(s) && AllMentions(s, base) && Enabled(s, e) && LeavesMentions(s, e)
    ensures AllMentions(Step(m, s, e), base)
  {
    match e
    case Elsewhere(after) =>
      forall v: nat ensures DraftMentions(after, DraftOf(s.drafts, v)) {
        assert DraftMentions(s.db, DraftOf(s.drafts, v));
        SameMentions(s.db, after, DraftOf(s.drafts, v));
      }
    case Mint(document, tree, rival) =>
      assert DraftMentions(s.db, DraftOf(s.drafts, 0));
      SameMentions(s.db, Step(m, s, e).db, DraftOf(s.drafts, 0));
      OneDraft(s, Step(m, s, e), base, 0);
    case Begin(w) =>
    case Resolve(w, cached, name, source, rival) =>
      StepLooks(m, s, w, cached, name, source, rival);
      if source in s.db.docs {
        ResolveMentions(m, s, base, w, if cached then Some(CacheOf(s.caches, w)) else None, name, source, rival);
      }
    case Commit(w) => CommitMentions(m, s, base, w);
    case Rollback(w) =>
      assert View(s.db, NoDraft).links == s.db.links;
      OneDraft(s, Step(m, s, e), base, w);
  }

  lemma {:induction false} RunKeepsMentions(m: Matcher, s: State, base: Tables, events: seq<Event>, t: State)
    requires Sound(m) && StateTrue(s) && AllMentions(s, base) && Run(m, s, events, t) && MentionsLeft(m, s, events)
    ensures AllMentions(t, base)
    decreases |events|
  {
    if |events| > 0 {
      StepKeeps(m, s, events[0]);
      StepKeepsMentions(m, s, base, events[0]);
      RunKeepsMentions(m, Step(m, s, events[0]), base, events[1..], t);
    }
  }

  /** Over every run, however its transactions overlap, commit and give up, and with any
      caches: the mentions in the tables are those there were and exactly those of the
      resolutions committed. */
  lemma MentionsAreResolutions(m: Matcher, s: State, events: seq<Event>, t: State)
    requires Sound(m) && StateTrue(s) && s.drafts == map[] && s.log == []
    requires Run(m, s, events, t) && MentionsLeft(m, s, events)
    ensures forall a, b :: Mentioned(t.db, a, b) <==> Mentioned(s.db, a, b) || Logged(t.log, a, b)
  {
    assert View(s.db, NoDraft).links == s.db.links;
    assert AllMentions(s, s.db);
    RunKeepsMentions(m, s, s.db, events, t);
  }
}
