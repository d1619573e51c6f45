// Subtree access control: the rule, the several places that implement it, and the access
// key that turns a document's governance into a value.
module Access {
  import opened Text
  import opened Decimal

  datatype Level = Read | Write

  datatype Grant = Grant(doc: nat, principal: nat, level: Level)

  /** Who is asking. Unbound callers and the owner bypass every check. */
  datatype Caller = Unbound | Owner | Bound(id: nat)

  /** A document's strict ancestors, root first. */
  type Paths = map<nat, seq<nat>>

  predicate Lineage(paths: Paths, d: nat)
    requires d in paths
  {
    && d !in paths[d]
    && forall i :: 0 <= i < |paths[d]| ==> paths[d][i] in paths && paths[paths[d][i]] == paths[d][..i]
  }

  ghost predicate Forest(paths: Paths) {
    forall d {:trigger Lineage(paths, d)} :: d in paths ==> Lineage(paths, d)
  }

  /** A document and its ancestors. */
  function Chain(path: seq<nat>, id: nat): set<nat> {
    (set a | a in path) + {id}
  }

  // ----- the rule -------------------------------------------------------------------------

  predicate Governed(grants: seq<Grant>, chain: set<nat>) {
    exists g :: g in grants && g.doc in chain
  }

  /** The highest level granted to the principal on any document of the chain. */
  function Right(grants: seq<Grant>, chain: set<nat>, p: nat): Option<Level> {
    if exists g :: g in grants && g.doc in chain && g.principal == p && g.level == Write then Some(Write)
    else if exists g :: g in grants && g.doc in chain && g.principal == p then Some(Read)
    else None
  }

  /** Grants only ever widen, and what no grant covers is open. */
  predicate MayRead(grants: seq<Grant>, chain: set<nat>, caller: Caller) {
    !caller.Bound? || !Governed(grants, chain) || Right(grants, chain, caller.id).Some?
  }

  predicate MayWrite(grants: seq<Grant>, chain: set<nat>, caller: Caller) {
    !caller.Bound? || !Governed(grants, chain) || Right(grants, chain, caller.id) == Some(Write)
  }

  // ----- the implementations --------------------------------------------------------------

  function AcrIds(grants: seq<Grant>): set<nat> {
    set g | g in grants :: g.doc
  }

  function ReadRoots(grants: seq<Grant>, p: nat): set<nat> {
    set g | g in grants && g.principal == p :: g.doc
  }

  function WriteRoots(grants: seq<Grant>, p: nat): set<nat> {
    set g | g in grants && g.principal == p && g.level == Write :: g.doc
  }

  function CanRead(grants: seq<Grant>, path: seq<nat>, id: nat, caller: Caller): (allowed: bool)
    ensures allowed == MayRead(grants, Chain(path, id), caller)
  {
    if !caller.Bound? then true
    else
      var governing := Chain(path, id) * AcrIds(grants);
      ReadersOfRoots(grants, Chain(path, id), caller.id);
      governing == {} || governing * ReadRoots(grants, caller.id) != {}
  }

  function CanWrite(grants: seq<Grant>, path: seq<nat>, id: nat, caller: Caller): (allowed: bool)
    ensures allowed == MayWrite(grants, Chain(path, id), caller)
  {
    if !caller.Bound? then true
    else
      var governing := Chain(path, id) * AcrIds(grants);
      WritersOfRoots(grants, Chain(path, id), caller.id);
      governing == {} || governing * WriteRoots(grants, caller.id) != {}
  }

  lemma ReadersOfRoots(grants: seq<Grant>, chain: set<nat>, p: nat)
    ensures Governed(grants, chain) <==> chain * AcrIds(grants) != {}
    ensures Right(grants, chain, p).Some? <==> chain * AcrIds(grants) * ReadRoots(grants, p) != {}
    ensures Right(grants, chain, p).Some? <==> chain * ReadRoots(grants, p) != {}
  {
    var governing, mine := chain * AcrIds(grants), ReadRoots(grants, p);
    assert forall g :: g in grants && g.doc in chain ==> g.doc in governing;
    assert forall g :: g in grants && g.doc in chain && g.principal == p ==>
      g.doc in governing * mine && g.doc in chain * mine;
  }

  lemma WritersOfRoots(grants: seq<Grant>, chain: set<nat>, p: nat)
    ensures Governed(grants, chain) <==> chain * AcrIds(grants) != {}
    ensures Right(grants, chain, p) == Some(Write) <==> chain * AcrIds(grants) * WriteRoots(grants, p) != {}
  {
    var governing, mine := chain * AcrIds(grants), WriteRoots(grants, p);
    assert forall g :: g in grants && g.doc in chain ==> g.doc in governing;
    assert forall g :: g in grants && g.doc in chain && g.principal == p && g.level == Write ==>
      g.doc in governing * mine;
  }

  type Clause = (nat, seq<nat>) -> bool

  /** A test on documents, or None when there are no roots to be within. */
  function WithinAny(roots: set<nat>): Option<Clause> {
    if roots == {} then None
    else Some((id: nat, path: seq<nat>) => id in roots || exists r :: r in roots && r in path)
  }

  /** The filter ANDed into searches; None when nothing is hidden from the caller. */
  function ReadableFilter(grants: seq<Grant>, caller: Caller): Option<Clause> {
    if !caller.Bound? then None
    else
      match WithinAny(AcrIds(grants))
      case None => None
      case Some(governed) =>
        match WithinAny(ReadRoots(grants, caller.id))
        case None => Some((id: nat, path: seq<nat>) => !governed(id, path))
        case Some(mine) => Some((id: nat, path: seq<nat>) => mine(id, path) || !governed(id, path))
  }

  function WithinSql(roots: set<nat>): Clause {
    if roots == {} then (id: nat, path: seq<nat>) => false
    else (id: nat, path: seq<nat>) => id in roots || exists r :: r in path && r in roots
  }

  function ReadableSql(grants: seq<Grant>, caller: Caller): Option<Clause> {
    if !caller.Bound? || AcrIds(grants) == {} then None
    else
      var mine, governed := WithinSql(ReadRoots(grants, caller.id)), WithinSql(AcrIds(grants));
      Some((id: nat, path: seq<nat>) => mine(id, path) || !governed(id, path))
  }

  predicate Admits(filter: Option<Clause>, id: nat, path: seq<nat>) {
    filter.None? || filter.value(id, path)
  }

  lemma WithinIsChain(roots: set<nat>, id: nat, path: seq<nat>)
    ensures WithinSql(roots)(id, path) <==> Chain(path, id) * roots != {}
    ensures WithinAny(roots).Some? ==> (WithinAny(roots).value(id, path) <==> Chain(path, id) * roots != {})
    ensures WithinAny(roots).None? ==> Chain(path, id) * roots == {}
  {
    var both := Chain(path, id) * roots;
    assert id in roots ==> id in both;
    assert forall r :: r in roots && r in path ==> r in both;
  }

  /** The predicate over the ORM, the fragment of SQL and the check of one document are the
      same rule, for every document and every caller. */
  lemma FiltersAgree(grants: seq<Grant>, caller: Caller, id: nat, path: seq<nat>)
    ensures Admits(ReadableFilter(grants, caller), id, path) == MayRead(grants, Chain(path, id), caller)
    ensures Admits(ReadableSql(grants, caller), id, path) == MayRead(grants, Chain(path, id), caller)
  {
    if caller.Bound? {
      ReadersOfRoots(grants, Chain(path, id), caller.id);
      WithinIsChain(AcrIds(grants), id, path);
      WithinIsChain(ReadRoots(grants, caller.id), id, path);
    }
  }

  /** The documents the caller may read, in the order given. */
  function Readable(grants: seq<Grant>, paths: Paths, docs: seq<nat>, caller: Caller): seq<nat>
    requires forall i :: 0 <= i < |docs| ==> docs[i] in paths
  {
    if docs == [] then []
    else
      var k := |docs| - 1;
      var earlier := Readable(grants, paths, docs[..k], caller);
      if MayRead(grants, Chain(paths[docs[k]], docs[k]), caller) then earlier + [docs[k]] else earlier
  }

  method FilterReadable(grants: seq<Grant>, paths: Paths, docs: seq<nat>, caller: Caller) returns (out: seq<nat>)
    requires forall i :: 0 <= i < |docs| ==> docs[i] in paths
    ensures out == Readable(grants, paths, docs, caller)
  {
    if !caller.Bound? {
      AllReadable(grants, paths, docs, caller);
      return docs;
    }
    var acrs := AcrIds(grants);
    if acrs == {} {
      forall chain: set<nat> ensures !Governed(grants, chain) {
        ReadersOfRoots(grants, chain, caller.id);
      }
      AllReadable(grants, paths, docs, caller);
      return docs;
    }
    var mine := ReadRoots(grants, caller.id);
    out := [];
    for k := 0 to |docs|
      invariant out == Readable(grants, paths, docs[..k], caller)
    {
      var d := docs[k];
      assert docs[..k + 1][..k] == docs[..k];
      var governing := Chain(paths[d], d) * acrs;
      ReadersOfRoots(grants, Chain(paths[d], d), caller.id);
      if governing == {} || governing * mine != {} {
        out := out + [d];
      }
    }
    assert docs[..|docs|] == docs;
  }

  lemma {:induction false} AllReadable(grants: seq<Grant>, paths: Paths, docs: seq<nat>, caller: Caller)
    requires forall i :: 0 <= i < |docs| ==> docs[i] in paths
    requires forall d :: d in paths ==> MayRead(grants, Chain(paths[d], d), caller)
    ensures Readable(grants, paths, docs, caller) == docs
  {
    if docs != [] {
      var k := |docs| - 1;
      assert docs == docs[..k] + [docs[k]];
      AllReadable(grants, paths, docs[..k], caller);
    }
  }

  /** The subset of the ids that the caller may read. With no filter the ids come back as
      they are, including any that name no document. */
  function ReadableIdSubset(grants: seq<Grant>, paths: Paths, ids: set<nat>, caller: Caller): (subset: set<nat>)
    ensures forall id :: id in ids && id in paths ==>
              (id in subset <==> MayRead(grants, Chain(paths[id], id), caller))
    ensures subset <= ids
  {
    assert forall id :: id in ids && id in paths ==>
      Admits(ReadableFilter(grants, caller), id, paths[id]) == MayRead(grants, Chain(paths[id], id), caller) by {
      forall id | id in ids && id in paths
        ensures Admits(ReadableFilter(grants, caller), id, paths[id]) == MayRead(grants, Chain(paths[id], id), caller)
      {
        FiltersAgree(grants, caller, id, paths[id]);
      }
    }
    match ReadableFilter(grants, caller)
    case None => ids
    case Some(clause) => set id | id in ids && id in paths && clause(id, paths[id])
  }

  // ----- ascending order --------------------------------------------------------------------

  predicate Ordered(s: seq<nat>) {
    forall i, j :: 0 <= i < j < |s| ==> s[i] < s[j]
  }

  lemma {:induction false} LeastOf(s: set<nat>) returns (m: nat)
    requires s != {}
    ensures m in s && forall x :: x in s ==> m <= x
    decreases |s|
  {
    m :| m in s;
    var rest := s - {m};
    assert forall x :: x in s ==> x == m || x in rest;
    if rest != {} {
      var other := LeastOf(rest);
      m := if m <= other then m else other;
    }
  }

  lemma LeastExists(s: set<nat>)
    requires s != {}
    ensures exists m :: m in s && forall x :: x in s ==> m <= x
  {
    var m := LeastOf(s);
  }

  function Least(s: set<nat>): (m: nat)
    requires s != {}
    ensures m in s && forall x :: x in s ==> m <= x
  {
    LeastExists(s);
    var m :| m in s && forall x :: x in s ==> m <= x;
    m
  }

  /** sorted() of distinct numbers */
  function Sorted(s: set<nat>): (r: seq<nat>)
    ensures Ordered(r) && forall x :: x in r <==> x in s
    decreases |s|
  {
    if s == {} then [] else [Least(s)] + Sorted(s - {Least(s)})
  }

  // ----- the access key ---------------------------------------------------------------------

  /** Pairs of a principal and its level, ascending by principal, at most one for each. */
  type Key = seq<(nat, Level)>

  function Holders(grants: seq<Grant>, chain: set<nat>): set<nat> {
    set g | g in grants && g.doc in chain :: g.principal
  }

  /** Each principal's right over the chain. */
  function Rights(grants: seq<Grant>, chain: set<nat>): map<nat, Level> {
    map p | p in Holders(grants, chain) :: Right(grants, chain, p).value
  }

  /** tuple(sorted(best.items())) */
  function SortedItems(best: map<nat, Level>): Key {
    var ps := Sorted(best.Keys);
    assert forall i :: 0 <= i < |ps| ==> ps[i] in ps;
    seq(|ps|, i requires 0 <= i < |ps| => (ps[i], best[ps[i]]))
  }

  lemma SortedItemsAre(best: map<nat, Level>)
    ensures var key := SortedItems(best);
            && (key == [] <==> best == map[])
            && (forall i, j :: 0 <= i < j < |key| ==> key[i].0 < key[j].0)
            && forall p, level :: (p, level) in key <==> p in best && best[p] == level
  {
    var ps, key := Sorted(best.Keys), SortedItems(best);
    assert forall p :: p in best ==> p in ps;
    assert forall i :: 0 <= i < |ps| ==> ps[i] in ps && key[i] == (ps[i], best[ps[i]]);
    assert |ps| == 0 ==> forall p :: p !in best;
    assert |ps| > 0 ==> ps[0] in best;
  }

  function KeyFor(grants: seq<Grant>, chain: set<nat>): Key {
    SortedItems(Rights(grants, chain))
  }

  /** The rows of the chain, in whatever order the query gives them: write beats read. */
  method AccessKey(grants: seq<Grant>, path: seq<nat>, id: nat) returns (key: Key)
    ensures key == KeyFor(grants, Chain(path, id))
  {
    var chain := Chain(path, id);
    var best: map<nat, Level> := map[];
    for k := 0 to |grants|
      invariant best == Rights(grants[..k], chain)
    {
      var g := grants[k];
      OneMoreGrant(grants, k, chain);
      if g.doc in chain {
        if g.principal !in best || best[g.principal] != Write {
          best := best[g.principal := g.level];
        }
      }
    }
    assert grants[..|grants|] == grants;
    key := SortedItems(best);
  }

  lemma {:induction false} OneMoreGrant(grants: seq<Grant>, k: nat, chain: set<nat>)
    requires k < |grants|
    ensures var g, before, after := grants[k], Rights(grants[..k], chain), Rights(grants[..k + 1], chain);
            after == if g.doc in chain && (g.principal !in before || before[g.principal] != Write)
                     then before[g.principal := g.level] else before
  {
    var g, before, after := grants[k], grants[..k], grants[..k + 1];
    assert after == before + [g];
    assert forall x :: x in after <==> x in before || x == g;
    assert Holders(after, chain) == Holders(before, chain) + if g.doc in chain then {g.principal} else {};
    forall p | p in Holders(after, chain)
      ensures Right(after, chain, p) ==
              if g.doc in chain && g.principal == p && Right(before, chain, p) != Some(Write) then Some(g.level)
              else Right(before, chain, p)
    {
    }
  }

  lemma HoldersHaveRights(grants: seq<Grant>, chain: set<nat>, p: nat)
    ensures p in Holders(grants, chain) <==> Right(grants, chain, p).Some?
  {
  }

  /** For a governed document the key alone decides who reads and who writes; it is empty
      exactly for a document under no grant, which is open to everyone. */
  lemma KeyDecides(grants: seq<Grant>, chain: set<nat>, p: nat)
    ensures KeyFor(grants, chain) == [] <==> !Governed(grants, chain)
    ensures MayRead(grants, chain, Bound(p)) <==> KeyReads(KeyFor(grants, chain), p)
    ensures MayWrite(grants, chain, Bound(p)) <==>
              KeyFor(grants, chain) == [] || (p, Write) in KeyFor(grants, chain)
    ensures forall level :: (p, level) in KeyFor(grants, chain) <==> Right(grants, chain, p) == Some(level)
  {
    var rights := Rights(grants, chain);
    SortedItemsAre(rights);
    HoldersHaveRights(grants, chain, p);
    assert forall g :: g in grants && g.doc in chain ==> g.principal in rights;
    assert rights != map[] ==> rights.Keys != {};
    assert Governed(grants, chain) <==> rights != map[];
  }

  predicate KeyReads(key: Key, p: nat) {
    key == [] || (p, Read) in key || (p, Write) in key
  }

  lemma SameKeySameRight(grants: seq<Grant>, a: set<nat>, b: set<nat>, p: nat)
    requires KeyFor(grants, a) == KeyFor(grants, b)
    ensures Right(grants, a, p) == Right(grants, b, p)
  {
    KeyDecides(grants, a, p);
    KeyDecides(grants, b, p);
    var one, two := Right(grants, a, p), Right(grants, b, p);
    assert one.Some? ==> (p, one.value) in KeyFor(grants, b);
    assert two.Some? ==> (p, two.value) in KeyFor(grants, a);
  }

  lemma SameRightsSameKey(grants: seq<Grant>, other: seq<Grant>, a: set<nat>, b: set<nat>)
    requires forall p :: Right(grants, a, p) == Right(other, b, p)
    ensures KeyFor(grants, a) == KeyFor(other, b)
  {
    forall p ensures p in Holders(grants, a) <==> p in Holders(other, b) {
      HoldersHaveRights(grants, a, p);
      HoldersHaveRights(other, b, p);
    }
    assert Holders(grants, a) == Holders(other, b);
    assert Rights(grants, a) == Rights(other, b);
  }

  /** The key depends only on which grants stand on the chain: not on the order they are
      read in, and not on any other document's grants. */
  lemma KeyLocal(grants: seq<Grant>, other: seq<Grant>, a: set<nat>, b: set<nat>)
    requires forall g :: g in grants && g.doc in a <==> g in other && g.doc in b
    ensures KeyFor(grants, a) == KeyFor(other, b)
  {
    assert forall p :: Right(grants, a, p) == Right(other, b, p);
    SameRightsSameKey(grants, other, a, b);
  }

  /** Two documents have the same key exactly when every principal has the same right over
      both, wherever in the tree the grants stand. */
  lemma SameKeySameAccess(grants: seq<Grant>, a: set<nat>, b: set<nat>)
    ensures KeyFor(grants, a) == KeyFor(grants, b) <==> forall p :: Right(grants, a, p) == Right(grants, b, p)
  {
    if KeyFor(grants, a) == KeyFor(grants, b) {
      forall p ensures Right(grants, a, p) == Right(grants, b, p) {
        SameKeySameRight(grants, a, b, p);
      }
    } else if forall p :: Right(grants, a, p) == Right(grants, b, p) {
      SameRightsSameKey(grants, grants, a, b);
    }
  }

  // ----- the key as text --------------------------------------------------------------------

  function LevelText(level: Level): string {
    if level == Read then "read" else "write"
  }

  function EntryText(entry: (nat, Level)): string {
    Spell(entry.0) + ":" + LevelText(entry.1)
  }

  function EntryTexts(key: Key): seq<string> {
    if key == [] then [] else [EntryText(key[0])] + EntryTexts(key[1..])
  }

  function KeyText(key: Key): string {
    JoinWith(",", EntryTexts(key))
  }

  predicate Without(s: string, c: char) {
    forall i :: 0 <= i < |s| ==> s[i] != c
  }

  lemma BreakNotSooner(a: string, x: string, b: string, y: string, c: char)
    requires a + x == b + y && Without(b, c)
    requires x == "" || x[0] == c
    ensures |a| >= |b|
  {
    var whole := a + x;
    assert forall i :: 0 <= i < |b| ==> whole[i] == (b + y)[i] == b[i];
    assert x != "" ==> whole[|a|] == c;
    assert |whole| == |b| + |y|;
  }

  /** Two texts cut at the first place a character appears. */
  lemma FirstBreak(a: string, x: string, b: string, y: string, c: char)
    requires a + x == b + y && Without(a, c) && Without(b, c)
    requires (x == "" || x[0] == c) && (y == "" || y[0] == c)
    ensures a == b && x == y
  {
    BreakNotSooner(a, x, b, y, c);
    BreakNotSooner(b, y, a, x, c);
    assert a == (a + x)[..|a|] && b == (b + y)[..|b|];
    assert x == (a + x)[|a|..] && y == (b + y)[|b|..];
  }

  lemma EntryInjective(a: (nat, Level), b: (nat, Level))
    requires EntryText(a) == EntryText(b)
    ensures a == b
  {
    assert EntryText(a) == Spell(a.0) + (":" + LevelText(a.1));
    assert EntryText(b) == Spell(b.0) + (":" + LevelText(b.1));
    FirstBreak(Spell(a.0), ":" + LevelText(a.1), Spell(b.0), ":" + LevelText(b.1), ':');
    SpellInjective(a.0, b.0);
    assert (":" + LevelText(a.1))[1] == LevelText(a.1)[0];
    assert (":" + LevelText(b.1))[1] == LevelText(b.1)[0];
  }

  lemma {:induction false} KeyTextCons(key: Key) returns (rest: string)
    requires key != []
    ensures KeyText(key) == EntryText(key[0]) + rest
    ensures rest == if key[1..] == [] then "" else "," + KeyText(key[1..])
    ensures Without(EntryText(key[0]), ',')
  {
    rest := if key[1..] == [] then "" else "," + KeyText(key[1..]);
    var texts := EntryTexts(key);
    assert texts[1..] == EntryTexts(key[1..]);
    assert |EntryTexts(key[1..])| == 0 <==> key[1..] == [];
    assert forall i :: 0 <= i < |Spell(key[0].0)| ==> IsDigit(Spell(key[0].0)[i]);
  }

  /** Different keys have different texts, so the unique column tells accesses apart. */
  lemma {:induction false} KeyTextInjective(a: Key, b: Key)
    requires KeyText(a) == KeyText(b)
    ensures a == b
    decreases |a|
  {
    if a == [] || b == [] {
      EmptyText(a);
      EmptyText(b);
    } else {
      var x := KeyTextCons(a);
      var y := KeyTextCons(b);
      FirstBreak(EntryText(a[0]), x, EntryText(b[0]), y, ',');
      EntryInjective(a[0], b[0]);
      if a[1..] != [] && b[1..] != [] {
        assert x[1..] == KeyText(a[1..]) && y[1..] == KeyText(b[1..]);
        KeyTextInjective(a[1..], b[1..]);
      }
      assert a == [a[0]] + a[1..] && b == [b[0]] + b[1..];
    }
  }

  lemma EmptyText(a: Key)
    ensures KeyText(a) == "" <==> a == []
  {
    if a != [] {
      var rest := KeyTextCons(a);
    }
  }

  // ----- what a root keyed by a document would open ---------------------------------------------

  datatype AccessError = NoSuchDocument | BlankTreeKind

  /** A governed document strictly below, and whether a root readable by whoever can read
      `document` would be readable by someone who cannot read it. */
  predicate Widens(grants: seq<Grant>, paths: Paths, document: nat, below: nat)
    requires document in paths && below in paths
  {
    var readers := Holders(grants, Chain(paths[document], document));
    && below in AcrIds(grants) && document in paths[below]
    && (readers == {} || !(readers <= Holders(grants, Chain(paths[below], below))))
  }

  /** {principal for principal, _ in access_key(...)} */
  method ReadersOf(grants: seq<Grant>, path: seq<nat>, id: nat) returns (readers: set<nat>)
    ensures readers == Holders(grants, Chain(path, id))
  {
    var key := AccessKey(grants, path, id);
    KeyHolders(grants, Chain(path, id));
    readers := set e | e in key :: e.0;
  }

  method WideningDescendants(grants: seq<Grant>, paths: Paths, document: nat)
    returns (r: Result<seq<nat>, AccessError>)
    ensures r.Ok? <==> document in paths
    ensures r.Err? ==> r.error == NoSuchDocument
    ensures r.Ok? ==> Ordered(r.value)
    ensures r.Ok? ==> forall b :: b in r.value <==> b in paths && Widens(grants, paths, document, b)
  {
    if document !in paths { return Err(NoSuchDocument); }
    var readers := ReadersOf(grants, paths[document], document);
    var todo := set b | b in AcrIds(grants) && b in paths && document in paths[b];
    ghost var all := todo;
    var widened: set<nat> := {};
    while todo != {}
      invariant todo <= all
      invariant forall b :: b in widened <==> b in all - todo && Widens(grants, paths, document, b)
      decreases |todo|
    {
      var below :| below in todo;
      var belowReaders := ReadersOf(grants, paths[below], below);
      if readers == {} || !(readers <= belowReaders) {
        widened := widened + {below};
      }
      todo := todo - {below};
    }
    r := Ok(Sorted(widened));
  }

  lemma KeyHolders(grants: seq<Grant>, chain: set<nat>)
    ensures (set e | e in KeyFor(grants, chain) :: e.0) == Holders(grants, chain)
  {
    var key, rights := KeyFor(grants, chain), Rights(grants, chain);
    SortedItemsAre(rights);
    forall p ensures p in (set e | e in key :: e.0) <==> p in Holders(grants, chain) {
      if p in Holders(grants, chain) {
        assert (p, rights[p]) in key;
      }
    }
  }

  lemma DescendantChain(paths: Paths, above: nat, below: nat)
    requires Forest(paths) && above in paths && below in paths && above in paths[below]
    ensures Chain(paths[above], above) <= Chain(paths[below], below)
  {
    assert Lineage(paths, below);
    var i :| 0 <= i < |paths[below]| && paths[below][i] == above;
    assert forall a :: a in paths[above] ==> a in paths[below];
  }

  /** Grants are additive: going down the tree never takes a right away. */
  lemma AdditiveBelow(grants: seq<Grant>, paths: Paths, above: nat, below: nat, p: nat)
    requires Forest(paths) && above in paths && below in paths && above in paths[below]
    requires Governed(grants, Chain(paths[above], above)) && MayRead(grants, Chain(paths[above], above), Bound(p))
    ensures MayRead(grants, Chain(paths[below], below), Bound(p))
  {
    DescendantChain(paths, above, below);
  }

  /** Everyone a root minted for `document` lets in can read `below`. */
  ghost predicate Covers(grants: seq<Grant>, paths: Paths, document: nat, below: nat)
    requires document in paths && below in paths
  {
    forall p :: KeyReads(KeyFor(grants, Chain(paths[document], document)), p) ==>
      MayRead(grants, Chain(paths[below], below), Bound(p))
  }

  /** Nothing widens exactly when everyone a root keyed by the document lets in can read
      everything below the document. */
  lemma NothingWidensExactly(grants: seq<Grant>, paths: Paths, document: nat)
    requires Forest(paths) && document in paths
    ensures (forall b :: b in paths ==> !Widens(grants, paths, document, b)) <==>
            (forall b :: b in paths && document in paths[b] ==> Covers(grants, paths, document, b))
  {
    if forall b :: b in paths ==> !Widens(grants, paths, document, b) {
      forall b | b in paths && document in paths[b] ensures Covers(grants, paths, document, b) {
        NothingWidensCovers(grants, paths, document, b);
      }
    } else {
      var b :| b in paths && Widens(grants, paths, document, b);
      WidensUncovers(grants, paths, document, b);
    }
  }

  lemma NothingWidensCovers(grants: seq<Grant>, paths: Paths, document: nat, below: nat)
    requires Forest(paths) && document in paths && below in paths && document in paths[below]
    requires forall b :: b in paths ==> !Widens(grants, paths, document, b)
    ensures Covers(grants, paths, document, below)
  {
    var chain := Chain(paths[document], document);
    forall p | KeyReads(KeyFor(grants, chain), p) ensures MayRead(grants, Chain(paths[below], below), Bound(p)) {
      KeyDecides(grants, chain, p);
      if Governed(grants, chain) {
        AdditiveBelow(grants, paths, document, below, p);
      } else {
        UngovernedBelow(grants, paths, document, below);
      }
    }
  }

  lemma UngovernedBelow(grants: seq<Grant>, paths: Paths, document: nat, below: nat)
    requires Forest(paths) && document in paths && below in paths && document in paths[below]
    requires !Governed(grants, Chain(paths[document], document))
    requires forall b :: b in paths ==> !Widens(grants, paths, document, b)
    ensures !Governed(grants, Chain(paths[below], below))
  {
    assert Holders(grants, Chain(paths[document], document)) == {};
    assert forall g :: g in grants && g.doc in paths && document in paths[g.doc] ==>
      Widens(grants, paths, document, g.doc);
    forall g | g in grants ensures g.doc !in Chain(paths[below], below) {
      if g.doc in Chain(paths[below], below) {
        BetweenOrAbove(paths, document, below, g.doc);
      }
    }
  }

  /** Whatever is on a descendant's chain is on the document's own, or below it. */
  lemma BetweenOrAbove(paths: Paths, document: nat, below: nat, x: nat)
    requires Forest(paths) && document in paths && below in paths && document in paths[below]
    requires x in Chain(paths[below], below)
    ensures x in paths && (x in Chain(paths[document], document) || document in paths[x])
  {
    assert Lineage(paths, below);
    var i :| 0 <= i < |paths[below]| && paths[below][i] == document;
    if x != below {
      var j :| 0 <= j < |paths[below]| && paths[below][j] == x;
      assert j < i ==> x == paths[document][j];
      assert i < j ==> paths[x][i] == document;
    }
  }

  lemma WidensUncovers(grants: seq<Grant>, paths: Paths, document: nat, below: nat)
    requires Forest(paths) && document in paths && below in paths
    requires Widens(grants, paths, document, below)
    ensures document in paths[below] && !Covers(grants, paths, document, below)
  {
    var chain, under := Chain(paths[document], document), Chain(paths[below], below);
    var readers, belowReaders := Holders(grants, chain), Holders(grants, under);
    assert Governed(grants, under);
    if readers == {} {
      var stranger := Stranger(belowReaders);
      HoldersHaveRights(grants, under, stranger);
      HoldersHaveRights(grants, chain, stranger);
      KeyDecides(grants, chain, stranger);
      assert !Governed(grants, chain) by {
        assert forall g :: g in grants && g.doc in chain ==> g.principal in readers;
      }
      assert !MayRead(grants, under, Bound(stranger));
    } else {
      var p :| p in readers && p !in belowReaders;
      HoldersHaveRights(grants, under, p);
      HoldersHaveRights(grants, chain, p);
      KeyDecides(grants, chain, p);
      assert !MayRead(grants, under, Bound(p));
    }
  }

  /** Someone who holds no grant there. */
  lemma {:induction false} Stranger(holders: set<nat>) returns (p: nat)
    ensures p !in holders && forall h :: h in holders ==> h < p
    decreases |holders|
  {
    if holders == {} {
      p := 0;
    } else {
      var h :| h in holders;
      var rest := Stranger(holders - {h});
      p := if rest > h then rest else h + 1;
      assert forall x :: x in holders ==> x == h || x in holders - {h};
    }
  }
}
