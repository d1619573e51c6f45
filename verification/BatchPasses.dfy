// What a pass of a batch worker leaves of the tasks it claimed, over every run.
module BatchPasses {
  import opened Text
  import opened Queue
  import opened BatchProvider
  import opened BatchProtocol
  import opened BatchRuns

  // ----- what a mark says ---------------------------------------------------------------------

  /** The mark tells what its transaction did: a lost task had no row, a failed one had a row
      that is failed now, a completed one was claimed and is completed now, and a parked one
      was held and is parked now under a batch that was submitted with it. */
  ghost predicate TrueMark(s: State, m: Mark) {
    match m.outcome
    case Lost => m.before.None? && m.after.None?
    case Failure => m.before.Some? && exists retryable :: m.after == Some(FailedTask(m.before.value, retryable))
    case Completion => m.before.Some? && m.before.value.status == Claimed && m.after == Some(CompletedTask(m.before.value))
    case Parking(batch) =>
      && m.before.Some? && Reapable(m.before.value) && m.after == Some(ParkedTask(m.before.value, batch))
      && batch in s.parked && batch in s.accepted && m.id in s.accepted[batch]
  }

  ghost predicate TrueMarks(s: State, marks: seq<Mark>) {
    forall i :: 0 <= i < |marks| ==> TrueMark(s, marks[i])
  }

  function Ids(marks: seq<Mark>): seq<nat> {
    seq(|marks|, i requires 0 <= i < |marks| => marks[i].id)
  }

  lemma IdsJoin(a: seq<Mark>, b: seq<Mark>)
    ensures Ids(a + b) == Ids(a) + Ids(b)
  {
  }

  // ----- what a pass keeps ----------------------------------------------------------------------

  /** Every claim is still to be turned to, in hand, among the requests, or has its outcome;
      and no claim is two of these. */
  ghost predicate Accounted(p: Pass, inHand: multiset<nat>) {
    multiset(p.claimed) == multiset(Ids(p.marks)) + multiset(p.todo) + multiset(p.requests) + inHand
  }

  ghost predicate PhaseTrue(s: State, phase: Phase) {
    match phase
    case Idle => true
    case Claiming(_) => true
    case Preparing(pass) => Accounted(pass, multiset{}) && TrueMarks(s, pass.marks)
    case Stumbled(pass, id) => Accounted(pass, multiset{id}) && TrueMarks(s, pass.marks)
    case Refused(pass) => pass.todo == [] && Accounted(pass, multiset{}) && TrueMarks(s, pass.marks)
    case Submitted(_, pass) => pass.todo == [] && Accounted(pass, multiset{}) && TrueMarks(s, pass.marks)
    case Finishing(pass) =>
      pass.todo == [] && pass.requests == [] && Accounted(pass, multiset{}) && TrueMarks(s, pass.marks)
  }

  /** A pass that ended gave every claim its outcome, and its outcomes are true. */
  ghost predicate EndedTrue(s: State, p: Pass) {
    multiset(p.claimed) == multiset(Ids(p.marks)) && TrueMarks(s, p.marks)
  }

  ghost predicate PassesTrue(s: State) {
    && (forall w {:trigger PhaseOf(s, w)} :: PhaseTrue(s, PhaseOf(s, w)))
    && forall i :: 0 <= i < |s.passes| ==> EndedTrue(s, s.passes[i].pass)
  }

  // ----- one step -------------------------------------------------------------------------------

  /** Nothing submitted or parked is ever forgotten. */
  ghost predicate Grown(s: State, t: State) {
    s.parked <= t.parked && forall b :: b in s.accepted ==> b in t.accepted && t.accepted[b] == s.accepted[b]
  }

  lemma StillTrue(s: State, t: State, marks: seq<Mark>)
    requires Grown(s, t) && TrueMarks(s, marks)
    ensures TrueMarks(t, marks)
  {
    assert forall i :: 0 <= i < |marks| ==> TrueMark(s, marks[i]);
  }

  lemma Noting(s: State, p: Pass, m: Mark, inHand: multiset<nat>)
    requires Accounted(p, inHand + multiset{m.id}) && TrueMarks(s, p.marks) && TrueMark(s, m)
    ensures Accounted(Noted(p, m), inHand) && TrueMarks(s, Noted(p, m).marks)
  {
    IdsJoin(p.marks, [m]);
    assert Ids([m]) == [m.id];
  }

  lemma TurnTaken(p: Pass)
    requires p.todo != [] && Accounted(p, multiset{})
    ensures Accounted(p.(todo := p.todo[1..]), multiset{p.todo[0]})
    ensures Accounted(p.(todo := p.todo[1..], requests := p.requests + [p.todo[0]]), multiset{})
  {
    assert p.todo == [p.todo[0]] + p.todo[1..];
  }

  lemma RequestTaken(p: Pass)
    requires p.requests != [] && Accounted(p, multiset{})
    ensures Accounted(p.(requests := p.requests[1..]), multiset{p.requests[0]})
  {
    assert p.requests == [p.requests[0]] + p.requests[1..];
  }

  lemma FailureIsTrue(s: State, rows: Rows, id: nat, retryable: bool)
    ensures TrueMark(s, FailureMark(rows, id, retryable)) && FailureMark(rows, id, retryable).id == id
  {
  }

  lemma {:induction false} PrepareAccounts(tree: Tree, s: State, w: nat, seen: Seen)
    requires Enabled(tree, s, Prepare(w, seen)) && PhaseTrue(s, PhaseOf(s, w))
    ensures PhaseTrue(s, PhaseOf(Step(tree, s, Prepare(w, seen)), w))
  {
    var pass, rows := PhaseOf(s, w).pass, s.ledger.rows;
    var id, rest := pass.todo[0], pass.(todo := pass.todo[1..]);
    TurnTaken(pass);
    assert multiset{} + multiset{id} == multiset{id};
    match seen
    case Vanished => Noting(s, rest, MarkOf(id, Lost, rows, rows), multiset{});
    case WrongType =>
      var after := rows[id := FailedTask(rows[id], true)];
      assert after[id] == FailedTask(rows[id], true);
      Noting(s, rest, MarkOf(id, Failure, rows, after), multiset{});
    case Resolved => Noting(s, rest, MarkOf(id, Completion, rows, rows[id := CompletedTask(rows[id])]), multiset{});
    case Unpreparable =>
    case NeedsModel =>
  }

  lemma {:induction false} FailAccounts(tree: Tree, s: State, w: nat, retryable: bool, e: Event)
    requires e == FailStumbled(w, retryable) || e == FailNext(w, retryable)
    requires Enabled(tree, s, e) && PhaseTrue(s, PhaseOf(s, w))
    ensures PhaseTrue(s, PhaseOf(Step(tree, s, e), w))
  {
    var phase, rows := PhaseOf(s, w), s.ledger.rows;
    if phase.Stumbled? {
      FailureIsTrue(s, rows, phase.id, retryable);
      assert multiset{} + multiset{phase.id} == multiset{phase.id};
      Noting(s, phase.pass, FailureMark(rows, phase.id, retryable), multiset{});
    } else {
      var id := phase.pass.requests[0];
      FailureIsTrue(s, rows, id, retryable);
      RequestTaken(phase.pass);
      assert multiset{} + multiset{id} == multiset{id};
      Noting(s, phase.pass.(requests := phase.pass.requests[1..]), FailureMark(rows, id, retryable), multiset{});
    }
  }

  /** Each request that is still there is parked, and the others are lost. */
  lemma ParkMarksTrue(s: State, t: State, ids: seq<nat>, batch: nat)
    requires Parked(s.ledger.rows, ids, batch) == Some(t.ledger.rows)
    requires batch in t.parked && batch in t.accepted && t.accepted[batch] == ids
    ensures var marks := ParkMarks(ids, s.ledger.rows, t.ledger.rows, batch); TrueMarks(t, marks) && Ids(marks) == ids
  {
    var marks := ParkMarks(ids, s.ledger.rows, t.ledger.rows, batch);
    ParkedIs(s.ledger.rows, ids, batch);
    forall i | 0 <= i < |marks| ensures TrueMark(t, marks[i]) {
      assert ids[i] in ids;
    }
  }

  lemma Joined(p: Pass, marks: seq<Mark>)
    requires p.todo == [] && Accounted(p, multiset{}) && Ids(marks) == p.requests
    ensures Accounted(Pass(p.claimed, p.todo, [], p.marks + marks), multiset{})
  {
    IdsJoin(p.marks, marks);
  }

  lemma ParkAccounts(tree: Tree, s: State, w: nat)
    requires Inv(tree, s) && PhaseOf(s, w).Submitted? && PhaseTrue(s, PhaseOf(s, w))
    ensures var t := Step(tree, s, Park(w)); PhaseTrue(t, PhaseOf(t, w))
  {
    var t, pass, batch := Step(tree, s, Park(w)), PhaseOf(s, w).pass, PhaseOf(s, w).batch;
    if Parked(s.ledger.rows, pass.requests, batch).Some? {
      assert HeldOnce(s, w);
      ParkMarksTrue(s, t, pass.requests, batch);
      StillTrue(s, t, pass.marks);
      Joined(pass, ParkMarks(pass.requests, s.ledger.rows, t.ledger.rows, batch));
    }
  }

  ghost function Actor(e: Event): Option<nat> {
    match e
    case Begin(w) => Some(w)
    case ClaimOne(w, _) => Some(w)
    case StopClaiming(w) => Some(w)
    case Prepare(w, _) => Some(w)
    case FailStumbled(w, _) => Some(w)
    case Submit(w, _) => Some(w)
    case Refuse(w) => Some(w)
    case FailNext(w, _) => Some(w)
    case Park(w) => Some(w)
    case End(w) => Some(w)
    case Crash(w) => Some(w)
    case _ => None
  }

  /** Only its own steps move a worker, and nothing forgets what was submitted. */
  lemma OthersStay(tree: Tree, s: State, e: Event)
    requires Enabled(tree, s, e)
    ensures Grown(s, Step(tree, s, e))
    ensures forall v: nat :: Some(v) != Actor(e) ==> PhaseOf(Step(tree, s, e), v) == PhaseOf(s, v)
  {
    StepGrows(tree, s, e);
    forall v: nat | Some(v) != Actor(e) ensures PhaseOf(Step(tree, s, e), v) == PhaseOf(s, v) {
      OtherStays(tree, s, e, v);
    }
  }

  lemma {:induction false} StepGrows(tree: Tree, s: State, e: Event)
    requires Enabled(tree, s, e)
    ensures Grown(s, Step(tree, s, e))
  {
  }

  lemma {:induction false} OtherStays(tree: Tree, s: State, e: Event, v: nat)
    requires Enabled(tree, s, e) && Some(v) != Actor(e)
    ensures PhaseOf(Step(tree, s, e), v) == PhaseOf(s, v)
  {
  }

  lemma {:induction false} ActorAccounts(tree: Tree, s: State, e: Event, w: nat)
    requires Inv(tree, s) && Enabled(tree, s, e) && Actor(e) == Some(w) && PhaseTrue(s, PhaseOf(s, w))
    ensures var t := Step(tree, s, e); PhaseTrue(t, PhaseOf(t, w))
  {
    var t := Step(tree, s, e);
    match e
    case Prepare(_, seen) =>
      PrepareAccounts(tree, s, w, seen);
      PhaseStays(s, t, PhaseOf(t, w));
    case FailStumbled(_, retryable) =>
      FailAccounts(tree, s, w, retryable, e);
      PhaseStays(s, t, PhaseOf(t, w));
    case FailNext(_, retryable) =>
      FailAccounts(tree, s, w, retryable, e);
      PhaseStays(s, t, PhaseOf(t, w));
    case Park(_) => ParkAccounts(tree, s, w);
    case StopClaiming(_) => assert Ids([]) == [];
    case Submit(_, _) => StillTrue(s, t, PhaseOf(s, w).pass.marks);
    case _ =>
  }

  lemma PhaseStays(s: State, t: State, phase: Phase)
    requires Grown(s, t) && PhaseTrue(s, phase)
    ensures PhaseTrue(t, phase)
  {
    match phase
    case Idle =>
    case Claiming(_) =>
    case Preparing(pass) => StillTrue(s, t, pass.marks);
    case Stumbled(pass, _) => StillTrue(s, t, pass.marks);
    case Refused(pass) => StillTrue(s, t, pass.marks);
    case Submitted(_, pass) => StillTrue(s, t, pass.marks);
    case Finishing(pass) => StillTrue(s, t, pass.marks);
  }

  lemma {:induction false} StepKeepsPasses(tree: Tree, s: State, e: Event)
    requires Inv(tree, s) && PassesTrue(s) && Enabled(tree, s, e)
    ensures PassesTrue(Step(tree, s, e))
  {
    var t := Step(tree, s, e);
    OthersStay(tree, s, e);
    forall w: nat ensures PhaseTrue(t, PhaseOf(t, w)) {
      assert PhaseTrue(s, PhaseOf(s, w));
      if Actor(e) == Some(w) {
        ActorAccounts(tree, s, e, w);
      } else {
        PhaseStays(s, t, PhaseOf(s, w));
      }
    }
    forall i | 0 <= i < |t.passes| ensures EndedTrue(t, t.passes[i].pass) {
      if i < |s.passes| {
        assert EndedTrue(s, s.passes[i].pass) && t.passes[i] == s.passes[i];
        StillTrue(s, t, s.passes[i].pass.marks);
      } else {
        assert e.End? && PhaseTrue(s, PhaseOf(s, e.worker)) && t.passes[i].pass == PhaseOf(s, e.worker).pass;
        StillTrue(s, t, t.passes[i].pass.marks);
      }
    }
  }

  lemma {:induction false} RunKeepsPasses(tree: Tree, s: State, events: seq<Event>, t: State)
    requires Inv(tree, s) && PassesTrue(s) && Run(tree, s, events, t)
    ensures PassesTrue(t)
    decreases |events|
  {
    if |events| > 0 {
      StepKeepsInv(tree, s, events[0]);
      StepKeepsPasses(tree, s, events[0]);
      RunKeepsPasses(tree, Step(tree, s, events[0]), events[1..], t);
    }
  }

  // ----- marks are what steps did -----------------------------------------------------------------

  function MarksOf(phase: Phase): seq<Mark> {
    match phase
    case Idle => []
    case Claiming(_) => []
    case Preparing(pass) => pass.marks
    case Stumbled(pass, _) => pass.marks
    case Refused(pass) => pass.marks
    case Submitted(_, pass) => pass.marks
    case Finishing(pass) => pass.marks
  }

  /** The rows some step changed, made, or removed. */
  ghost predicate Touched(s: State, t: State, id: nat) {
    Lookup(s.ledger.rows, id) != Lookup(t.ledger.rows, id)
  }

  predicate Settled(rows: Rows, id: nat) {
    id in rows && rows[id].status != Claimed && rows[id].status != Running
  }

  /** What a step of worker `w` adds to its marks is exactly what the step does: each new
      mark holds the row as it was before the step and as it is after, and a row the step
      fails, completes or parks has its mark. */
  ghost predicate Recorded(s: State, t: State, was: seq<Mark>, now: seq<Mark>) {
    && was <= now
    && (forall i :: |was| <= i < |now| ==>
          now[i].before == Lookup(s.ledger.rows, now[i].id) && now[i].after == Lookup(t.ledger.rows, now[i].id))
    && (forall id :: Touched(s, t, id) && Settled(t.ledger.rows, id) ==> Marked(now, |was|, id))
  }

  ghost predicate Marked(marks: seq<Mark>, from: nat, id: nat) {
    exists i :: from <= i < |marks| && marks[i].id == id
  }

  lemma {:induction false} PrepareIsMarked(tree: Tree, s: State, w: nat, seen: Seen)
    requires Enabled(tree, s, Prepare(w, seen))
    ensures var t := Step(tree, s, Prepare(w, seen));
            Recorded(s, t, MarksOf(PhaseOf(s, w)), MarksOf(PhaseOf(t, w)))
  {
    var t := Step(tree, s, Prepare(w, seen));
    var was, now := MarksOf(PhaseOf(s, w)), MarksOf(PhaseOf(t, w));
    var id := PhaseOf(s, w).pass.todo[0];
    assert forall k :: Touched(s, t, k) ==> k == id;
    if |now| > |was| {
      assert now[|was|].id == id;
      assert Marked(now, |was|, id);
    }
  }

  lemma {:induction false} FailIsMarked(tree: Tree, s: State, w: nat, retryable: bool, e: Event)
    requires e == FailStumbled(w, retryable) || e == FailNext(w, retryable)
    requires Enabled(tree, s, e)
    ensures var t := Step(tree, s, e); Recorded(s, t, MarksOf(PhaseOf(s, w)), MarksOf(PhaseOf(t, w)))
  {
    var t := Step(tree, s, e);
    var was, now := MarksOf(PhaseOf(s, w)), MarksOf(PhaseOf(t, w));
    var id := if e.FailStumbled? then PhaseOf(s, w).id else PhaseOf(s, w).pass.requests[0];
    assert now[|was|].id == id;
    assert Marked(now, |was|, id);
    assert forall k :: Touched(s, t, k) ==> k == id;
  }

  lemma {:induction false} ParkIsMarked(tree: Tree, s: State, w: nat)
    requires Enabled(tree, s, Park(w))
    requires Parked(s.ledger.rows, PhaseOf(s, w).pass.requests, PhaseOf(s, w).batch).Some?
    ensures var t := Step(tree, s, Park(w)); Recorded(s, t, MarksOf(PhaseOf(s, w)), MarksOf(PhaseOf(t, w)))
  {
    var t := Step(tree, s, Park(w));
    var was, now := MarksOf(PhaseOf(s, w)), MarksOf(PhaseOf(t, w));
    var ids := PhaseOf(s, w).pass.requests;
    ParkedIs(s.ledger.rows, ids, PhaseOf(s, w).batch);
    assert |now| == |was| + |ids|;
    forall id | Touched(s, t, id) ensures Marked(now, |was|, id) {
      assert id in ids;
      var k :| 0 <= k < |ids| && ids[k] == id;
      assert now[|was| + k].id == id;
    }
  }

  /** A step of a pass under way is recorded. The two others end it: the normal end, and
      the crash, which a park that raises also is. */
  lemma {:induction false} StepIsMarked(tree: Tree, s: State, e: Event, w: nat)
    requires Enabled(tree, s, e) && Actor(e) == Some(w) && !PhaseOf(Step(tree, s, e), w).Idle?
    ensures var t := Step(tree, s, e); Recorded(s, t, MarksOf(PhaseOf(s, w)), MarksOf(PhaseOf(t, w)))
  {
    match e
    case Prepare(_, seen) => PrepareIsMarked(tree, s, w, seen);
    case FailStumbled(_, retryable) => FailIsMarked(tree, s, w, retryable, e);
    case FailNext(_, retryable) => FailIsMarked(tree, s, w, retryable, e);
    case Park(_) => ParkIsMarked(tree, s, w);
    case ClaimOne(_, id) =>
      assert forall k :: Touched(s, Step(tree, s, e), k) ==> k == id;
    case _ =>
  }

  // ----- the claim repeated -----------------------------------------------------------------------

  /** The `i`-th entry, and no other, is of this task. */
  ghost predicate OnlyAt(ids: seq<nat>, i: nat, id: nat) {
    i < |ids| && ids[i] == id && forall j :: 0 <= j < |ids| && j != i ==> ids[j] != id
  }

  /** Some mark, and no other, is of this task. */
  ghost predicate OneOutcome(p: Pass, id: nat) {
    exists i :: OnlyAt(Ids(p.marks), i, id)
  }

  lemma {:induction false} CountIsOne(s: seq<nat>, x: nat)
    ensures multiset(s)[x] == 1 <==> exists i :: OnlyAt(s, i, x)
  {
    if s != [] {
      var n := |s| - 1;
      assert s == s[..n] + [s[n]];
      CountIsOne(s[..n], x);
      if s[n] != x {
        if i :| OnlyAt(s, i, x) { assert OnlyAt(s[..n], i, x); }
        if i :| OnlyAt(s[..n], i, x) { assert OnlyAt(s, i, x); }
      } else if x !in s[..n] {
        assert OnlyAt(s, n, x) by {
          assert forall j :: 0 <= j < n ==> s[j] == s[..n][j];
        }
      } else {
        var k :| 0 <= k < n && s[..n][k] == x;
        assert s[k] == x;
      }
    }
  }

  /** In a pass that ended, a claimed task has exactly one outcome exactly when the pass
      claimed it once. */
  lemma OneOutcomeExactly(s: State, p: Pass, id: nat)
    requires EndedTrue(s, p)
    ensures OneOutcome(p, id) <==> multiset(p.claimed)[id] == 1
  {
    CountIsOne(Ids(p.marks), id);
  }

  // ----- every mark was some step's -----------------------------------------------------------------

  /** The step was this worker's, and took the row from what the mark says to what it says. */
  ghost predicate DidStep(tree: Tree, s: State, e: Event, w: nat, m: Mark) {
    && Enabled(tree, s, e) && Actor(e) == Some(w)
    && m.before == Lookup(s.ledger.rows, m.id) && m.after == Lookup(Step(tree, s, e).ledger.rows, m.id)
  }

  /** Some step of the run did. */
  ghost predicate Did(tree: Tree, s: State, events: seq<Event>, w: nat, m: Mark)
    decreases |events|
  {
    && |events| > 0 && Enabled(tree, s, events[0])
    && (DidStep(tree, s, events[0], w, m) || Did(tree, Step(tree, s, events[0]), events[1..], w, m))
  }

  /** The mark is of a pass of this worker, under way or ended. */
  ghost predicate Holds(s: State, w: nat, m: Mark) {
    || m in MarksOf(PhaseOf(s, w))
    || exists i :: 0 <= i < |s.passes| && s.passes[i].worker == w && m in s.passes[i].pass.marks
  }

  lemma StepHolds(tree: Tree, s: State, e: Event, w: nat, m: Mark)
    requires Inv(tree, s) && Enabled(tree, s, e) && Holds(Step(tree, s, e), w, m)
    ensures Holds(s, w, m) || DidStep(tree, s, e, w, m)
  {
    var t := Step(tree, s, e);
    if m in MarksOf(PhaseOf(t, w)) {
      if Actor(e) == Some(w) {
        ActorHolds(tree, s, e, w, m);
      } else {
        OtherStays(tree, s, e, w);
      }
    } else {
      EndedHolds(tree, s, e, w, m);
    }
  }

  /** A mark of the worker's pass is an old one, or this step's own. */
  lemma ActorHolds(tree: Tree, s: State, e: Event, w: nat, m: Mark)
    requires Enabled(tree, s, e) && Actor(e) == Some(w) && m in MarksOf(PhaseOf(Step(tree, s, e), w))
    ensures m in MarksOf(PhaseOf(s, w)) || DidStep(tree, s, e, w, m)
  {
    var t := Step(tree, s, e);
    StepIsMarked(tree, s, e, w);
    var was, now := MarksOf(PhaseOf(s, w)), MarksOf(PhaseOf(t, w));
    var i :| 0 <= i < |now| && now[i] == m;
    assert i < |was| ==> was[i] == m;
  }

  /** A mark of an ended pass is that of one ended before, or of the pass this step ends. */
  lemma {:induction false} EndedHolds(tree: Tree, s: State, e: Event, w: nat, m: Mark)
    requires Enabled(tree, s, e)
    requires var t := Step(tree, s, e);
             exists i :: 0 <= i < |t.passes| && t.passes[i].worker == w && m in t.passes[i].pass.marks
    ensures Holds(s, w, m)
  {
    var t := Step(tree, s, e);
    var i :| 0 <= i < |t.passes| && t.passes[i].worker == w && m in t.passes[i].pass.marks;
    if e.End? {
      assert t.passes == s.passes + [Ended(e.worker, PhaseOf(s, e.worker).pass)];
      assert i < |s.passes| ==> s.passes[i] == t.passes[i];
    } else {
      assert t.passes == s.passes;
    }
  }

  lemma {:induction false} RunHolds(tree: Tree, s: State, events: seq<Event>, t: State, w: nat, m: Mark)
    requires Inv(tree, s) && Run(tree, s, events, t) && Holds(t, w, m)
    ensures Holds(s, w, m) || Did(tree, s, events, w, m)
    decreases |events|
  {
    if |events| > 0 {
      StepKeepsInv(tree, s, events[0]);
      RunHolds(tree, Step(tree, s, events[0]), events[1..], t, w, m);
      if Holds(Step(tree, s, events[0]), w, m) {
        StepHolds(tree, s, events[0], w, m);
      }
    }
  }

  /** Whatever the interleaving, in every pass that came to its normal end each task has as
      many outcomes as the pass claimed it times, so exactly one when it was claimed once;
      every outcome is true of the row before and after it, and some step of that worker in
      this run took the row from the one to the other. */
  lemma {:induction false} EveryPassAccounted(tree: Tree, s: State, events: seq<Event>, t: State, n: nat)
    requires Initial(s) && Run(tree, s, events, t) && n < |t.passes|
    ensures var p := t.passes[n].pass;
            && multiset(p.claimed) == multiset(Ids(p.marks))
            && (forall id :: OneOutcome(p, id) <==> multiset(p.claimed)[id] == 1)
            && TrueMarks(t, p.marks)
            && forall i :: 0 <= i < |p.marks| ==> Did(tree, s, events, t.passes[n].worker, p.marks[i])
  {
    RunKeepsPasses(tree, s, events, t);
    var p := t.passes[n].pass;
    assert EndedTrue(t, p);
    forall id ensures OneOutcome(p, id) <==> multiset(p.claimed)[id] == 1 {
      OneOutcomeExactly(t, p, id);
    }
    forall i | 0 <= i < |p.marks| ensures Did(tree, s, events, t.passes[n].worker, p.marks[i]) {
      assert p.marks[i] in p.marks;
      RunHolds(tree, s, events, t, t.passes[n].worker, p.marks[i]);
    }
  }

  // ----- when no claim repeats ------------------------------------------------------------------

  /** The tasks a worker has claimed so far are different, known, and not to be claimed
      again while their rows stay as they are. */
  ghost predicate ClaimsHeld(s: State, phase: Phase) {
    phase.Claiming? ==>
      && Distinct(phase.claimed)
      && forall id :: id in phase.claimed ==> id in s.docs && !Free(s.ledger.rows, id)
  }

  predicate Free(rows: Rows, id: nat) {
    id in rows && (rows[id].status == Pending || rows[id].status == Failed)
  }

  ghost predicate Distinct(ids: seq<nat>) {
    forall i, j :: 0 <= i < j < |ids| ==> ids[i] != ids[j]
  }

  /** What a pass under way claimed. */
  function ClaimsOf(phase: Phase): seq<nat> {
    match phase
    case Idle => []
    case Claiming(claimed) => claimed
    case Preparing(pass) => pass.claimed
    case Stumbled(pass, _) => pass.claimed
    case Refused(pass) => pass.claimed
    case Submitted(_, pass) => pass.claimed
    case Finishing(pass) => pass.claimed
  }

  ghost predicate ClaimsDistinct(s: State) {
    && (forall w {:trigger PhaseOf(s, w)} :: ClaimsHeld(s, PhaseOf(s, w)) && Distinct(ClaimsOf(PhaseOf(s, w))))
    && forall i :: 0 <= i < |s.passes| ==> Distinct(s.passes[i].pass.claimed)
  }

  /** No task fails, at anyone's hand, while the worker that claimed it is still claiming. */
  ghost predicate Steady(s: State, t: State) {
    forall w, id :: PhaseOf(s, w).Claiming? && id in PhaseOf(s, w).claimed && id in t.ledger.rows ==>
      t.ledger.rows[id].status != Failed
  }

  ghost predicate SteadyRun(tree: Tree, s: State, events: seq<Event>)
    decreases |events|
  {
    |events| > 0 && Enabled(tree, s, events[0]) ==>
      Steady(s, Step(tree, s, events[0])) && SteadyRun(tree, Step(tree, s, events[0]), events[1..])
  }

  lemma {:induction false} ApplyOnlySettles(l: Ledger, parked: set<nat>, results: seq<BatchResult>, batch: nat, fits: string -> bool, id: nat)
    requires parked <= l.rows.Keys && (id in l.rows ==> l.rows[id].status != Pending)
    ensures var after := ApplyAll(l, parked, results, batch, fits).rows;
            id in after ==> after[id].status != Pending
    decreases |results|
  {
    if results != [] {
      var task := TaskIdFrom(results[0].customId);
      var named := task.Some? && task.value in parked;
      var next := if named then Settle(l, task.value, results[0].answer, batch, fits) else l;
      ApplyOnlySettles(next, parked, results[1..], batch, fits, id);
    }
  }

  lemma {:induction false} StepMakesNoneFree(tree: Tree, s: State, e: Event, id: nat)
    requires Enabled(tree, s, e) && id in s.docs && !Free(s.ledger.rows, id)
    ensures var t := Step(tree, s, e); id in t.docs && (Free(t.ledger.rows, id) ==> t.ledger.rows[id].status == Failed)
  {
    var rows := s.ledger.rows;
    match e
    case Park(w) =>
      if Parked(rows, PhaseOf(s, w).pass.requests, PhaseOf(s, w).batch).Some? {
        ParkedIs(rows, PhaseOf(s, w).pass.requests, PhaseOf(s, w).batch);
      }
    case Poll(batch, status, results, fits) =>
      if status.Ready? { ApplyOnlySettles(s.ledger, ParkedUnder(rows, batch), results, batch, fits, id); }
    case _ =>
  }

  lemma ClaimsStayHeld(tree: Tree, s: State, e: Event, w: nat)
    requires Enabled(tree, s, e) && ClaimsHeld(s, PhaseOf(s, w)) && Steady(s, Step(tree, s, e))
    ensures ClaimsHeld(Step(tree, s, e), PhaseOf(s, w))
  {
    var phase := PhaseOf(s, w);
    if phase.Claiming? {
      forall id | id in phase.claimed ensures id in Step(tree, s, e).docs && !Free(Step(tree, s, e).ledger.rows, id) {
        StepMakesNoneFree(tree, s, e, id);
      }
    }
  }

  /** A worker's own step: a claim takes a task that was free, so a new one. */
  lemma {:induction false} ActorClaims(tree: Tree, s: State, e: Event, w: nat)
    requires Inv(tree, s) && Enabled(tree, s, e) && Actor(e) == Some(w)
    requires ClaimsHeld(s, PhaseOf(s, w)) && ClaimsHeld(Step(tree, s, e), PhaseOf(s, w)) && Distinct(ClaimsOf(PhaseOf(s, w)))
    ensures var t := Step(tree, s, e); ClaimsHeld(t, PhaseOf(t, w)) && Distinct(ClaimsOf(PhaseOf(t, w)))
  {
    match e
    case ClaimOne(_, id) => assert id !in PhaseOf(s, w).claimed;
    case Prepare(_, seen) =>
      assert ClaimsOf(PhaseOf(Prepared(s, w, seen), w)) == ClaimsOf(PhaseOf(s, w));
    case _ =>
  }

  lemma StepKeepsClaims(tree: Tree, s: State, e: Event)
    requires Inv(tree, s) && ClaimsDistinct(s) && Enabled(tree, s, e) && Steady(s, Step(tree, s, e))
    ensures ClaimsDistinct(Step(tree, s, e))
  {
    var t := Step(tree, s, e);
    OthersStay(tree, s, e);
    forall w: nat ensures ClaimsHeld(t, PhaseOf(t, w)) && Distinct(ClaimsOf(PhaseOf(t, w))) {
      assert ClaimsHeld(s, PhaseOf(s, w)) && Distinct(ClaimsOf(PhaseOf(s, w)));
      ClaimsStayHeld(tree, s, e, w);
      if Actor(e) == Some(w) {
        ActorClaims(tree, s, e, w);
      }
    }
    EndedClaims(tree, s, e);
  }

  lemma {:induction false} EndedClaims(tree: Tree, s: State, e: Event)
    requires ClaimsDistinct(s) && Enabled(tree, s, e)
    ensures forall i :: 0 <= i < |Step(tree, s, e).passes| ==> Distinct(Step(tree, s, e).passes[i].pass.claimed)
  {
    var t := Step(tree, s, e);
    if e.End? {
      assert Distinct(ClaimsOf(PhaseOf(s, e.worker)));
      assert t.passes == s.passes + [Ended(e.worker, PhaseOf(s, e.worker).pass)];
    } else {
      assert t.passes == s.passes;
    }
  }

  lemma {:induction false} RunKeepsClaims(tree: Tree, s: State, events: seq<Event>, t: State)
    requires Inv(tree, s) && ClaimsDistinct(s) && Run(tree, s, events, t) && SteadyRun(tree, s, events)
    ensures ClaimsDistinct(t)
    decreases |events|
  {
    if |events| > 0 {
      StepKeepsInv(tree, s, events[0]);
      StepKeepsClaims(tree, s, events[0]);
      RunKeepsClaims(tree, Step(tree, s, events[0]), events[1..], t);
    }
  }

  lemma DistinctCount(ids: seq<nat>, id: nat)
    requires Distinct(ids) && id in ids
    ensures multiset(ids)[id] == 1
  {
    var i :| 0 <= i < |ids| && ids[i] == id;
    assert OnlyAt(ids, i, id);
    CountIsOne(ids, id);
  }

  /** In a run where no task fails while its claimer is still claiming, every pass that ends
      gives every task it claimed exactly one outcome. */
  lemma OneOutcomeEach(tree: Tree, s: State, events: seq<Event>, t: State, n: nat)
    requires Initial(s) && Run(tree, s, events, t) && SteadyRun(tree, s, events) && n < |t.passes|
    ensures forall id :: id in t.passes[n].pass.claimed ==> OneOutcome(t.passes[n].pass, id)
  {
    EveryPassAccounted(tree, s, events, t, n);
    RunKeepsClaims(tree, s, events, t);
    forall id | id in t.passes[n].pass.claimed ensures OneOutcome(t.passes[n].pass, id) {
      DistinctCount(t.passes[n].pass.claimed, id);
    }
  }

  // ----- a claim repeated -----------------------------------------------------------------------

  lemma {:induction false} RunThen(tree: Tree, s: State, events: seq<Event>, t: State, e: Event)
    requires Run(tree, s, events, t) && Enabled(tree, t, e)
    ensures Run(tree, s, events + [e], Step(tree, t, e))
    decreases |events|
  {
    if |events| > 0 {
      RunThen(tree, Step(tree, s, events[0]), events[1..], t, e);
      assert (events + [e])[1..] == events[1..] + [e];
    } else {
      assert [e][1..] == [];
      assert events + [e] == [e];
    }
  }

  /** A task of the wrong type, with one retry. */
  const STRAY := Task(0, SelfMode, false, Pending, 0, None, false, 0, 1)

  const EMPTY := State(Ledger(map[], []), map[], map[], {}, map[], [])

  function Queued(row: Task, workers: map<nat, Phase>, passes: seq<Ended>): State {
    State(Ledger(map[7 := row], []), workers, map[], {}, map[7 := 0], passes)
  }

  /** The run goes on by this step to this state. */
  lemma Then(events: seq<Event>, a: State, e: Event, b: State)
    requires Run(map[], EMPTY, events, a) && Enabled(map[], a, e) && Step(map[], a, e) == b
    ensures Run(map[], EMPTY, events + [e], b)
  {
    RunThen(map[], EMPTY, events, a, e);
  }

  lemma StrayQueued()
    ensures Run(map[], EMPTY, [Enqueue(7, STRAY)], Queued(STRAY, map[], []))
  {
    assert [] + [Enqueue(7, STRAY)] == [Enqueue(7, STRAY)];
    Then([], EMPTY, Enqueue(7, STRAY), Queued(STRAY, map[], []));
  }

  lemma StrayBegun(events: seq<Event>, row: Task)
    requires Run(map[], EMPTY, events, Queued(row, map[], []))
    ensures Run(map[], EMPTY, events + [Begin(0)], Queued(row, map[0 := Claiming([])], []))
  {
    Then(events, Queued(row, map[], []), Begin(0), Queued(row, map[0 := Claiming([])], []));
  }

  lemma {:induction false} StrayClaimed(events: seq<Event>, row: Task, claimed: seq<nat>)
    requires row.status == Pending || (row.status == Failed && row.retryable && row.retries < row.maxRetries)
    requires Run(map[], EMPTY, events, Queued(row, map[0 := Claiming(claimed)], []))
    ensures Run(map[], EMPTY, events + [ClaimOne(0, 7)], Queued(ClaimedBy(row, 0), map[0 := Claiming(claimed + [7])], []))
  {
    Then(events, Queued(row, map[0 := Claiming(claimed)], []), ClaimOne(0, 7),
      Queued(ClaimedBy(row, 0), map[0 := Claiming(claimed + [7])], []));
  }

  lemma StrayReaped(events: seq<Event>, row: Task, workers: map<nat, Phase>)
    requires Reapable(row) && Run(map[], EMPTY, events, Queued(row, workers, []))
    ensures Run(map[], EMPTY, events + [Reap(7)], Queued(FailedTask(row, true), workers, []))
  {
    Then(events, Queued(row, workers, []), Reap(7), Queued(FailedTask(row, true), workers, []));
  }

  /** Claimed, taken back by the lease, and claimed again by the same gathering, which then
      stops claiming. */
  lemma {:induction false} ClaimedTwice(row: Task)
    requires row == ClaimedBy(FailedTask(ClaimedBy(STRAY, 0), true), 0)
    ensures exists events :: Run(map[], EMPTY, events, Queued(row, map[0 := Preparing(Pass([7, 7], [7, 7], [], []))], []))
  {
    var held := ClaimedBy(STRAY, 0);
    StrayQueued();
    var events := [Enqueue(7, STRAY)];
    StrayBegun(events, STRAY);
    StrayClaimed(events + [Begin(0)], STRAY, []);
    events := events + [Begin(0)] + [ClaimOne(0, 7)];
    assert [] + [7] == [7] && [7] + [7] == [7, 7];
    StrayReaped(events, held, map[0 := Claiming([7])]);
    StrayClaimed(events + [Reap(7)], FailedTask(held, true), [7]);
    events := events + [Reap(7)] + [ClaimOne(0, 7)];
    StrayStopped(events, row, [7, 7]);
  }

  lemma StrayStopped(events: seq<Event>, row: Task, claimed: seq<nat>)
    requires Run(map[], EMPTY, events, Queued(row, map[0 := Claiming(claimed)], []))
    ensures Run(map[], EMPTY, events + [StopClaiming(0)], Queued(row, map[0 := Preparing(Pass(claimed, claimed, [], []))], []))
  {
    Then(events, Queued(row, map[0 := Claiming(claimed)], []), StopClaiming(0),
      Queued(row, map[0 := Preparing(Pass(claimed, claimed, [], []))], []));
  }

  /** One turn to a task of the wrong type. */
  lemma {:induction false} StrayFailed(events: seq<Event>, row: Task, pass: Pass, after: Pass)
    requires !row.summarizes && pass.todo != [] && pass.todo[0] == 7
    requires Run(map[], EMPTY, events, Queued(row, map[0 := Preparing(pass)], []))
    requires after == Pass(pass.claimed, pass.todo[1..], pass.requests,
                        pass.marks + [Mark(7, Failure, Some(row), Some(FailedTask(row, true)))])
    ensures Run(map[], EMPTY, events + [Prepare(0, WrongType)],
              Queued(FailedTask(row, true), map[0 := Preparing(after)], []))
  {
    Then(events, Queued(row, map[0 := Preparing(pass)], []), Prepare(0, WrongType),
      Queued(FailedTask(row, true), map[0 := Preparing(after)], []));
  }

  lemma StrayEnded(events: seq<Event>, row: Task, p: Pass)
    requires p.todo == [] && p.requests == []
    requires Run(map[], EMPTY, events, Queued(row, map[0 := Preparing(p)], []))
    ensures Run(map[], EMPTY, events + [End(0)], Queued(row, map[0 := Idle], [Ended(0, p)]))
  {
    assert [] + [Ended(0, p)] == [Ended(0, p)];
    Then(events, Queued(row, map[0 := Preparing(p)], []), End(0), Queued(row, map[0 := Idle], [Ended(0, p)]));
  }

  /** The gathering turns to the reclaimed task twice. */
  lemma TurnedTwice(events: seq<Event>, row: Task, p: Pass)
    requires !row.summarizes
    requires Run(map[], EMPTY, events, Queued(row, map[0 := Preparing(Pass([7, 7], [7, 7], [], []))], []))
    requires var failed := FailedTask(row, true);
             p == Pass([7, 7], [], [], [Mark(7, Failure, Some(row), Some(failed)), Mark(7, Failure, Some(failed), Some(failed))])
    ensures Run(map[], EMPTY, events + [Prepare(0, WrongType)] + [Prepare(0, WrongType)],
              Queued(FailedTask(row, true), map[0 := Preparing(p)], []))
  {
    var failed := FailedTask(row, true);
    var first, second := Mark(7, Failure, Some(row), Some(failed)), Mark(7, Failure, Some(failed), Some(failed));
    assert [7, 7][1..] == [7] && [7][1..] == [] && [] + [first] == [first] && [first] + [second] == [first, second];
    StrayFailed(events, row, Pass([7, 7], [7, 7], [], []), Pass([7, 7], [7], [], [first]));
    StrayFailed(events + [Prepare(0, WrongType)], failed, Pass([7, 7], [7], [], [first]), p);
  }

  /** A task reclaimed by the gathering it was taken from has two outcomes in one pass. */
  lemma ReclaimedHasTwoOutcomes()
    ensures exists events, t ::
              && Run(map[], EMPTY, events, t) && |t.passes| == 1
              && t.passes[0].pass.claimed == [7, 7] && Ids(t.passes[0].pass.marks) == [7, 7]
              && !OneOutcome(t.passes[0].pass, 7)
  {
    var row := ClaimedBy(FailedTask(ClaimedBy(STRAY, 0), true), 0);
    var failed := FailedTask(row, true);
    var p := Pass([7, 7], [], [], [Mark(7, Failure, Some(row), Some(failed)), Mark(7, Failure, Some(failed), Some(failed))]);
    ClaimedTwice(row);
    var events :| Run(map[], EMPTY, events, Queued(row, map[0 := Preparing(Pass([7, 7], [7, 7], [], []))], []));
    TurnedTwice(events, row, p);
    StrayEnded(events + [Prepare(0, WrongType)] + [Prepare(0, WrongType)], failed, p);
    TwoMarks(p.marks);
  }

  lemma TwoMarks(marks: seq<Mark>)
    requires |marks| == 2 && marks[0].id == 7 && marks[1].id == 7
    ensures Ids(marks) == [7, 7] && !exists i :: OnlyAt(Ids(marks), i, 7)
  {
    assert Ids(marks)[0] == 7 && Ids(marks)[1] == 7;
  }
}
