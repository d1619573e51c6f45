// What the queue's rules come to: a conflict is an overlap of what two tasks reserve, and a
// row remembers every claim made of it, of which there are only so many.
module QueueRuns {
  import opened Text
  import opened Queue
  import opened BatchProvider
  import opened BatchProtocol
  import opened BatchRuns

  // ----- conflict is overlap ----------------------------------------------------------------------

  /** The ancestors of a node stand one above the other. */
  ghost predicate Lineal(tree: Tree) {
    forall node, a, b :: IsAncestor(tree, a, node) && IsAncestor(tree, b, node) ==>
      a == b || IsAncestor(tree, a, b) || IsAncestor(tree, b, a)
  }

  /** A node's own place and the place of its children are reserved apart from each other; a
      subtree reserves both, of its node and of every node below. */
  ghost predicate Reserves(tree: Tree, t: Task, node: nat, place: Mode)
    requires place != SubtreeMode
  {
    if t.mode == SubtreeMode then node == t.doc || IsAncestor(tree, t.doc, node)
    else node == t.doc && place == t.mode
  }

  ghost predicate Overlap(tree: Tree, a: Task, b: Task) {
    exists node, place: Mode :: place != SubtreeMode && Reserves(tree, a, node, place) && Reserves(tree, b, node, place)
  }

  /** Two tasks conflict exactly when both reserve the same place of the same node. */
  lemma ConflictIsOverlap(tree: Tree, a: Task, b: Task)
    requires Lineal(tree)
    ensures Conflict(tree, a, b) <==> Overlap(tree, a, b)
  {
    if Conflict(tree, a, b) {
      var node := if a.mode == SubtreeMode && (a.doc == b.doc || IsAncestor(tree, a.doc, b.doc)) then b.doc else a.doc;
      var place := if a.mode != SubtreeMode then a.mode else if b.mode != SubtreeMode then b.mode else SelfMode;
      assert Reserves(tree, a, node, place) && Reserves(tree, b, node, place);
    }
  }

  /** Claimed, being run, or parked with a provider. */
  predicate Holding(t: Task) {
    t.status != Pending && t.status != Completed && t.status != Failed
  }

  /** No place of any node is ever held by two tasks at once. */
  lemma NoPlaceHeldTwice(tree: Tree, s: State, events: seq<Event>, t: State, a: nat, b: nat)
    requires Lineal(tree) && Initial(s) && Run(tree, s, events, t)
    requires a in t.ledger.rows && b in t.ledger.rows && a != b
    requires Holding(t.ledger.rows[a]) && Holding(t.ledger.rows[b])
    ensures !Overlap(tree, t.ledger.rows[a], t.ledger.rows[b])
  {
    EveryRunIsSafe(tree, s, events, t);
    ConflictIsOverlap(tree, t.ledger.rows[a], t.ledger.rows[b]);
  }

  // ----- claims are remembered ----------------------------------------------------------------------

  /** Whether the step claims the task, for a batch worker or another. */
  predicate ClaimsIt(e: Event, id: nat) {
    (e.DirectClaim? && e.id == id) || (e.ClaimOne? && e.id == id)
  }

  function Claims(events: seq<Event>, id: nat): nat {
    if events == [] then 0
    else (if ClaimsIt(events[0], id) then 1 else 0) + Claims(events[1..], id)
  }

  /** How often a row says it was claimed: a first time unless it still waits, and once more
      for each retry. */
  function Recorded(t: Task): nat {
    t.retries + if t.status == Pending then 0 else 1
  }

  /** How often a row may yet be claimed. */
  function Left(t: Task): nat {
    (if t.retries < t.maxRetries then t.maxRetries - t.retries else 0) + if t.status == Pending then 1 else 0
  }

  /** The row was claimed, or moved on without waiting again. */
  predicate Moved(before: Task, after: Task, claimed: bool) {
    && after.maxRetries == before.maxRetries
    && (after.status == Pending ==> before.status == Pending)
    && Recorded(after) == Recorded(before) + (if claimed then 1 else 0)
    && (claimed ==> Left(before) > 0)
  }

  /** The row a claim leaves: the worker's, with one retry more if it had failed, and all
      else as it was. */
  lemma ClaimIs(tree: Tree, s: State, e: Event, id: nat)
    requires Enabled(tree, s, e) && ClaimsIt(e, id)
    ensures id in s.ledger.rows
    ensures var was, now := s.ledger.rows[id], Step(tree, s, e).ledger.rows[id];
            && (was.status == Pending || (was.status == Failed && was.retryable && was.retries < was.maxRetries))
            && now.status == Claimed && now.holder == e.worker
            && now.retries == (if was.status == Pending then was.retries else was.retries + 1)
            && now.doc == was.doc && now.mode == was.mode && now.summarizes == was.summarizes
            && now.batch == was.batch && now.retryable == was.retryable && now.maxRetries == was.maxRetries
    ensures forall k :: k in s.ledger.rows && k != id ==> Step(tree, s, e).ledger.rows[k] == s.ledger.rows[k]
  {
  }

  /** Only a task a worker holds is taken back from it, never one parked with a provider; and
      it can be claimed again if it has a retry left, and not otherwise: nothing active stands
      in its way. */
  lemma ReapReopens(tree: Tree, s: State, id: nat)
    requires Inv(tree, s) && id in s.ledger.rows
    ensures Enabled(tree, s, Reap(id)) <==> s.ledger.rows[id].status == Claimed || s.ledger.rows[id].status == Running
    ensures Enabled(tree, s, Reap(id)) ==>
              (Claimable(Step(tree, s, Reap(id)).ledger.rows, tree, id)
               <==> s.ledger.rows[id].retries < s.ledger.rows[id].maxRetries)
  {
    if Enabled(tree, s, Reap(id)) {
      var rows, after := s.ledger.rows, Step(tree, s, Reap(id)).ledger.rows;
      forall a | a in after && a != id && Active(after[a]) ensures !Conflict(tree, after[a], after[id]) {
        assert !Conflict(tree, rows[a], rows[id]);
      }
    }
  }

  /** So can every task of a batch the provider has lost. */
  lemma DeadReopens(tree: Tree, s: State, batch: nat, results: seq<BatchResult>, fits: string -> bool, id: nat)
    requires Inv(tree, s) && id in ParkedUnder(s.ledger.rows, batch)
    ensures Claimable(Polled(s.ledger, batch, Dead, results, fits).rows, tree, id)
       <==> s.ledger.rows[id].retries < s.ledger.rows[id].maxRetries
  {
    var rows, after := s.ledger.rows, Polled(s.ledger, batch, Dead, results, fits).rows;
    forall a | a in after && a != id && Active(after[a]) ensures !Conflict(tree, after[a], after[id]) {
      assert !Conflict(tree, rows[a], rows[id]);
    }
  }

  /** The task is known, and no longer waits. */
  ghost predicate Taken(s: State, id: nat) {
    id in s.docs && (id in s.ledger.rows ==> s.ledger.rows[id].status != Pending)
  }

  /** The tasks a worker has claimed and not settled. */
  function InHand(phase: Phase): seq<nat> {
    match phase
    case Claiming(claimed) => claimed
    case Preparing(pass) => pass.todo + pass.requests
    case Stumbled(pass, id) => pass.todo + pass.requests + [id]
    case Refused(pass) => pass.requests
    case Submitted(_, pass) => pass.requests
    case _ => []
  }

  ghost predicate HandsTaken(s: State) {
    && (forall id :: id in s.ledger.rows ==> id in s.docs)
    && forall w, id {:trigger id in InHand(PhaseOf(s, w))} :: id in InHand(PhaseOf(s, w)) ==> Taken(s, id)
  }

  // ----- one step ------------------------------------------------------------------------------------

  lemma {:induction false} AppliedMoves(l: Ledger, parked: set<nat>, results: seq<BatchResult>, batch: nat, fits: string -> bool, id: nat)
    requires parked <= l.rows.Keys && forall k :: k in parked ==> l.rows[k].status != Pending
    ensures var after := ApplyAll(l, parked, results, batch, fits);
            after.rows.Keys == l.rows.Keys && (id in l.rows ==> Moved(l.rows[id], after.rows[id], false))
    decreases |results|
  {
    if results != [] {
      var task := TaskIdFrom(results[0].customId);
      var next := if task.Some? && task.value in parked then Settle(l, task.value, results[0].answer, batch, fits) else l;
      AppliedMoves(next, parked, results[1..], batch, fits, id);
    }
  }

  lemma {:induction false} PollMoves(l: Ledger, batch: nat, status: BatchStatus, results: seq<BatchResult>, fits: string -> bool, id: nat)
    ensures var after := Polled(l, batch, status, results, fits);
            after.rows.Keys == l.rows.Keys && (id in l.rows ==> Moved(l.rows[id], after.rows[id], false))
  {
    AppliedMoves(l, ParkedUnder(l.rows, batch), results, batch, fits, id);
  }

  lemma {:induction false} ParkMoves(tree: Tree, s: State, w: nat, id: nat)
    requires Enabled(tree, s, Park(w))
    ensures var t := Step(tree, s, Park(w));
            && t.ledger.rows.Keys == s.ledger.rows.Keys && t.docs == s.docs
            && (id in s.ledger.rows ==> Moved(s.ledger.rows[id], t.ledger.rows[id], false))
  {
    var phase := PhaseOf(s, w);
    if Parked(s.ledger.rows, phase.pass.requests, phase.batch).Some? {
      ParkedIs(s.ledger.rows, phase.pass.requests, phase.batch);
    }
  }

  lemma {:induction false} PrepareMoves(tree: Tree, s: State, w: nat, seen: Seen, id: nat)
    requires HandsTaken(s) && Enabled(tree, s, Prepare(w, seen))
    ensures var t := Step(tree, s, Prepare(w, seen));
            && t.ledger.rows.Keys == s.ledger.rows.Keys && t.docs == s.docs
            && (id in s.ledger.rows ==> Moved(s.ledger.rows[id], t.ledger.rows[id], false))
  {
    assert PhaseOf(s, w).pass.todo[0] in InHand(PhaseOf(s, w));
  }

  lemma {:induction false} FailureMoves(tree: Tree, s: State, e: Event, id: nat)
    requires HandsTaken(s) && (e.FailStumbled? || e.FailNext?) && Enabled(tree, s, e)
    ensures var t := Step(tree, s, e);
            && t.ledger.rows.Keys == s.ledger.rows.Keys && t.docs == s.docs
            && (id in s.ledger.rows ==> Moved(s.ledger.rows[id], t.ledger.rows[id], false))
  {
    var phase := PhaseOf(s, e.worker);
    var failed := if e.FailStumbled? then phase.id else phase.pass.requests[0];
    assert failed in InHand(phase);
  }

  /** What a step makes of the row of a known task. */
  lemma {:induction false} StepMoves(tree: Tree, s: State, e: Event, id: nat)
    requires HandsTaken(s) && Enabled(tree, s, e) && id in s.docs
    ensures var t := Step(tree, s, e);
            && id in t.docs
            && (id in t.ledger.rows ==> id in s.ledger.rows && Moved(s.ledger.rows[id], t.ledger.rows[id], ClaimsIt(e, id)))
            && (ClaimsIt(e, id) ==> id in t.ledger.rows)
  {
    match e
    case Poll(batch, status, results, fits) => PollMoves(s.ledger, batch, status, results, fits, id);
    case Park(w) => ParkMoves(tree, s, w, id);
    case Prepare(w, seen) => PrepareMoves(tree, s, w, seen, id);
    case FailStumbled(_, _) => FailureMoves(tree, s, e, id);
    case FailNext(_, _) => FailureMoves(tree, s, e, id);
    case _ =>
  }

  lemma {:induction false} PreparedHands(s: State, w: nat, seen: Seen, id: nat)
    requires PhaseOf(s, w).Preparing? && PhaseOf(s, w).pass.todo != []
    requires seen.Vanished? <==> PhaseOf(s, w).pass.todo[0] !in s.ledger.rows
    requires id in InHand(PhaseOf(Prepared(s, w, seen), w))
    ensures id in InHand(PhaseOf(s, w))
  {
    var pass := PhaseOf(s, w).pass;
    assert pass.todo == [pass.todo[0]] + pass.todo[1..];
  }

  /** A worker has in hand what it had, and what it has just claimed. */
  lemma {:induction false} HandsGrow(tree: Tree, s: State, e: Event, w: nat, id: nat)
    requires Enabled(tree, s, e) && id in InHand(PhaseOf(Step(tree, s, e), w))
    ensures id in InHand(PhaseOf(s, w)) || ClaimsIt(e, id)
  {
    if e.Prepare? && w == e.worker {
      PreparedHands(s, w, e.seen, id);
    }
  }

  lemma {:induction false} StepKeepsHands(tree: Tree, s: State, e: Event)
    requires HandsTaken(s) && Enabled(tree, s, e)
    ensures HandsTaken(Step(tree, s, e))
  {
    var t := Step(tree, s, e);
    forall id | id in t.ledger.rows ensures id in t.docs {
      if id in s.docs { StepMoves(tree, s, e, id); } else { StrangerComes(tree, s, e, id); }
    }
    forall w, id | id in InHand(PhaseOf(t, w)) ensures Taken(t, id) {
      HandsGrow(tree, s, e, w, id);
      assert id in s.docs;
      StepMoves(tree, s, e, id);
    }
  }

  /** A row not known before is known from the step that enters it. */
  lemma {:induction false} StrangerComes(tree: Tree, s: State, e: Event, id: nat)
    requires HandsTaken(s) && Enabled(tree, s, e) && id !in s.docs && id in Step(tree, s, e).ledger.rows
    ensures id in Step(tree, s, e).docs
  {
    match e
    case Poll(batch, status, results, fits) => PollMoves(s.ledger, batch, status, results, fits, id);
    case Park(w) => ParkMoves(tree, s, w, id);
    case Prepare(w, seen) => PrepareMoves(tree, s, w, seen, id);
    case FailStumbled(_, _) => FailureMoves(tree, s, e, id);
    case FailNext(_, _) => FailureMoves(tree, s, e, id);
    case _ =>
  }

  // ----- every run --------------------------------------------------------------------------------------

  lemma {:induction false} RunKeepsHands(tree: Tree, s: State, events: seq<Event>, t: State)
    requires HandsTaken(s) && Run(tree, s, events, t)
    ensures HandsTaken(t)
    decreases |events|
  {
    if |events| > 0 {
      StepKeepsHands(tree, s, events[0]);
      RunKeepsHands(tree, Step(tree, s, events[0]), events[1..], t);
    }
  }

  lemma {:induction false} GoneForGood(tree: Tree, s: State, events: seq<Event>, t: State, id: nat)
    requires HandsTaken(s) && Run(tree, s, events, t) && id in s.docs && id !in s.ledger.rows
    ensures id !in t.ledger.rows && Claims(events, id) == 0
    decreases |events|
  {
    if |events| > 0 {
      StepMoves(tree, s, events[0], id);
      StepKeepsHands(tree, s, events[0]);
      GoneForGood(tree, Step(tree, s, events[0]), events[1..], t, id);
    }
  }

  /** Whoever claims it and whatever comes of it, a task is claimed no more often than its
      row allows; and while the row is there it has counted every claim. */
  lemma {:induction false} ClaimsCounted(tree: Tree, s: State, events: seq<Event>, t: State, id: nat)
    requires HandsTaken(s) && Run(tree, s, events, t) && id in s.ledger.rows
    ensures Claims(events, id) <= Left(s.ledger.rows[id])
    ensures id in t.ledger.rows ==>
              && Claims(events, id) == Recorded(t.ledger.rows[id]) - Recorded(s.ledger.rows[id])
              && t.ledger.rows[id].maxRetries == s.ledger.rows[id].maxRetries
    decreases |events|
  {
    if |events| > 0 {
      var next := Step(tree, s, events[0]);
      StepMoves(tree, s, events[0], id);
      StepKeepsHands(tree, s, events[0]);
      if id in next.ledger.rows {
        ClaimsCounted(tree, next, events[1..], t, id);
      } else {
        GoneForGood(tree, next, events[1..], t, id);
      }
    }
  }

  /** From the start of any run: a task entered with no retries used is claimed at most once
      more often than the retries it is given. */
  lemma RetriesAreBounded(tree: Tree, s: State, before: seq<Event>, m: State, id: nat, task: Task, events: seq<Event>, t: State)
    requires Initial(s) && Run(tree, s, before, m) && Enabled(tree, m, Enqueue(id, task)) && task.retries == 0
    requires Run(tree, Step(tree, m, Enqueue(id, task)), events, t)
    ensures Claims(events, id) <= task.maxRetries + 1
    ensures id in t.ledger.rows && t.ledger.rows[id].status != Pending ==>
              Claims(events, id) == t.ledger.rows[id].retries + 1
  {
    RunKeepsHands(tree, s, before, m);
    StepKeepsHands(tree, m, Enqueue(id, task));
    ClaimsCounted(tree, Step(tree, m, Enqueue(id, task)), events, t, id);
  }
}
