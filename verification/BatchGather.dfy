// One uninterrupted pass of a batch worker: claim, prepare, submit, park.
module BatchGather {
  import opened Text
  import opened Queue
  import opened BatchRuns
  import opened BatchPasses

  /** What a worker finds of a task, and whether the error, if one comes of it, may be
      retried. */
  datatype Fact = Fact(seen: Seen, retryable: bool)

  /** What becomes of a claimed task nobody else touches: one of the wrong type fails, one
      that cannot be prepared fails, one that needs no model completes, and the rest are
      parked under the batch, or fail when the provider refuses it. */
  function Expected(t: Task, found: Seen, reply: Option<nat>): Outcome {
    if !t.summarizes then Failure
    else
      match found
      case Resolved => Completion
      case NeedsModel => if reply.Some? then Parking(reply.value) else Failure
      case _ => Failure
  }

  /** Its outcome is the expected one, and a failure may be retried when the error says so;
      of a task of the wrong type, always. */
  ghost predicate AsExpected(m: Mark, found: nat -> Fact, reply: Option<nat>) {
    && m.before.Some? && m.outcome == Expected(m.before.value, found(m.id).seen, reply)
    && (m.outcome.Failure? ==>
          m.after.Some? && (m.after.value.retryable <==> (m.before.value.summarizes ==> found(m.id).retryable)))
  }

  ghost predicate AllExpected(marks: seq<Mark>, found: nat -> Fact, reply: Option<nat>) {
    forall i :: 0 <= i < |marks| ==> AsExpected(marks[i], found, reply)
  }

  /** The worker's own steps, and nothing else, lead here, and the pass has not ended. */
  ghost predicate Alone(tree: Tree, s: State, events: seq<Event>, t: State, w: nat) {
    && Run(tree, s, events, t)
    && (forall i :: 0 <= i < |events| ==> Actor(events[i]) == Some(w))
    && t.passes == s.passes
  }

  ghost predicate HeldAs(rows: Rows, ids: seq<nat>, status: Status) {
    Distinct(ids) && forall id :: id in ids ==> id in rows && rows[id].status == status
  }

  ghost predicate Asking(rows: Rows, ids: seq<nat>, found: nat -> Fact) {
    HeldAs(rows, ids, Running) && forall id :: id in ids ==> rows[id].summarizes && found(id).seen == NeedsModel
  }

  /** Between two turns of the preparing loop. */
  ghost predicate Turning(t: State, w: nat, found: nat -> Fact, reply: Option<nat>) {
    && PhaseOf(t, w).Preparing?
    && var p := PhaseOf(t, w).pass;
       && HeldAs(t.ledger.rows, p.todo, Claimed) && Asking(t.ledger.rows, p.requests, found)
       && AllExpected(p.marks, found, reply) && NoneParked(p.marks)
  }

  ghost predicate NoneParked(marks: seq<Mark>) {
    forall i :: 0 <= i < |marks| ==> !marks[i].outcome.Parking?
  }

  /** Between two failures of a refused submission. */
  ghost predicate Refusing(t: State, w: nat, found: nat -> Fact) {
    && PhaseOf(t, w).Refused?
    && var p := PhaseOf(t, w).pass;
       Asking(t.ledger.rows, p.requests, found) && AllExpected(p.marks, found, None)
  }

  /** How the next claimed task is found. */
  function FoundAs(rows: Rows, id: nat, found: nat -> Fact): Seen
    requires id in rows
  {
    if rows[id].summarizes then found(id).seen else WrongType
  }

  ghost predicate Findings(found: nat -> Fact) {
    forall id :: found(id).seen.Unpreparable? || found(id).seen.Resolved? || found(id).seen.NeedsModel?
  }

  /** A whole turn: the preparation and, if it failed, the failure recorded after it. */
  function Turned(tree: Tree, t: State, w: nat, seen: Seen, retryable: bool): State
    requires Enabled(tree, t, Prepare(w, seen))
  {
    var next := Step(tree, t, Prepare(w, seen));
    if seen.Unpreparable? then Step(tree, next, FailStumbled(w, retryable)) else next
  }

  lemma TurnEnabled(tree: Tree, t: State, w: nat, found: nat -> Fact, reply: Option<nat>)
    requires Findings(found) && Turning(t, w, found, reply) && PhaseOf(t, w).pass.todo != []
    ensures PhaseOf(t, w).pass.todo[0] in t.ledger.rows
    ensures Enabled(tree, t, Prepare(w, FoundAs(t.ledger.rows, PhaseOf(t, w).pass.todo[0], found)))
  {
    assert PhaseOf(t, w).pass.todo[0] in PhaseOf(t, w).pass.todo;
  }

  /** What a turn leaves: the row of its task alone is changed, and the task has its outcome
      or is among the requests. */
  ghost predicate TurnOf(t: State, next: State, w: nat, id: nat, seen: Seen, found: nat -> Fact, reply: Option<nat>)
    requires PhaseOf(t, w).Preparing? && id in t.ledger.rows
  {
    var p, rows := PhaseOf(t, w).pass, t.ledger.rows;
    && next.accepted == t.accepted && next.passes == t.passes
    && PhaseOf(next, w).Preparing?
    && next.ledger.rows.Keys == rows.Keys && (forall k :: k in rows && k != id ==> next.ledger.rows[k] == rows[k])
    && var q := PhaseOf(next, w).pass;
       && q.claimed == p.claimed && p.todo != [] && q.todo == p.todo[1..]
       && if seen.NeedsModel? then
            && q.marks == p.marks && q.requests == p.requests + [id]
            && next.ledger.rows[id] == rows[id].(status := Running)
          else
            && q.requests == p.requests && |q.marks| == |p.marks| + 1 && q.marks[..|p.marks|] == p.marks
            && AsExpected(q.marks[|p.marks|], found, reply) && !q.marks[|p.marks|].outcome.Parking?
  }

  /** The turn adds this mark and changes this row. */
  lemma MarkedTurn(t: State, next: State, w: nat, id: nat, m: Mark, after: Task, seen: Seen, found: nat -> Fact, reply: Option<nat>)
    requires PhaseOf(t, w).Preparing? && PhaseOf(t, w).pass.todo != [] && id in t.ledger.rows && !seen.NeedsModel?
    requires var p := PhaseOf(t, w).pass;
             next == WithRow(WithPhase(t, w, Preparing(Noted(p.(todo := p.todo[1..]), m))), id, after)
    requires AsExpected(m, found, reply) && !m.outcome.Parking?
    ensures TurnOf(t, next, w, id, seen, found, reply)
  {
  }

  lemma StrayTurn(tree: Tree, t: State, w: nat, id: nat, found: nat -> Fact, retryable: bool, reply: Option<nat>)
    requires PhaseOf(t, w).Preparing? && PhaseOf(t, w).pass.todo != []
    requires id == PhaseOf(t, w).pass.todo[0] && id in t.ledger.rows && !t.ledger.rows[id].summarizes
    ensures TurnOf(t, Turned(tree, t, w, WrongType, retryable), w, id, WrongType, found, reply)
  {
    var rows, failed := t.ledger.rows, FailedTask(t.ledger.rows[id], true);
    MarkedTurn(t, Prepared(t, w, WrongType), w, id, MarkOf(id, Failure, rows, rows[id := failed]), failed, WrongType, found, reply);
  }

  lemma ResolvedTurn(tree: Tree, t: State, w: nat, id: nat, found: nat -> Fact, retryable: bool, reply: Option<nat>)
    requires PhaseOf(t, w).Preparing? && PhaseOf(t, w).pass.todo != [] && found(id).seen == Resolved
    requires id == PhaseOf(t, w).pass.todo[0] && id in t.ledger.rows && t.ledger.rows[id].summarizes
    requires Enabled(tree, t, Prepare(w, Resolved))
    ensures TurnOf(t, Turned(tree, t, w, Resolved, retryable), w, id, Resolved, found, reply)
  {
    var rows, done := t.ledger.rows, CompletedTask(t.ledger.rows[id]);
    MarkedTurn(t, Prepared(t, w, Resolved), w, id, MarkOf(id, Completion, rows, rows[id := done]), done, Resolved, found, reply);
  }

  lemma {:induction false} StumbledTurn(tree: Tree, t: State, w: nat, id: nat, found: nat -> Fact, retryable: bool, reply: Option<nat>)
    requires PhaseOf(t, w).Preparing? && PhaseOf(t, w).pass.todo != [] && found(id) == Fact(Unpreparable, retryable)
    requires id == PhaseOf(t, w).pass.todo[0] && id in t.ledger.rows && t.ledger.rows[id].summarizes
    requires Enabled(tree, t, Prepare(w, Unpreparable))
    ensures TurnOf(t, Turned(tree, t, w, Unpreparable, retryable), w, id, Unpreparable, found, reply)
  {
    var p, rows, failed := PhaseOf(t, w).pass, t.ledger.rows, FailedTask(t.ledger.rows[id], retryable);
    var m := FailureMark(rows, id, retryable);
    var next := Turned(tree, t, w, Unpreparable, retryable);
    var same := WithRow(WithPhase(t, w, Preparing(Noted(p.(todo := p.todo[1..]), m))), id, failed);
    assert next.workers == same.workers;
    MarkedTurn(t, next, w, id, m, failed, Unpreparable, found, reply);
  }

  lemma AskedTurn(tree: Tree, t: State, w: nat, id: nat, found: nat -> Fact, retryable: bool, reply: Option<nat>)
    requires PhaseOf(t, w).Preparing? && PhaseOf(t, w).pass.todo != []
    requires id == PhaseOf(t, w).pass.todo[0] && id in t.ledger.rows
    requires Enabled(tree, t, Prepare(w, NeedsModel))
    ensures TurnOf(t, Turned(tree, t, w, NeedsModel, retryable), w, id, NeedsModel, found, reply)
  {
  }

  lemma TurnIs(tree: Tree, t: State, w: nat, id: nat, found: nat -> Fact, retryable: bool, reply: Option<nat>)
    requires Findings(found) && PhaseOf(t, w).Preparing? && PhaseOf(t, w).pass.todo != []
    requires id == PhaseOf(t, w).pass.todo[0] && id in t.ledger.rows
    requires Enabled(tree, t, Prepare(w, FoundAs(t.ledger.rows, id, found))) && retryable == found(id).retryable
    ensures var seen := FoundAs(t.ledger.rows, id, found);
            TurnOf(t, Turned(tree, t, w, seen, retryable), w, id, seen, found, reply)
  {
    var seen := FoundAs(t.ledger.rows, id, found);
    match seen
    case WrongType => StrayTurn(tree, t, w, id, found, retryable, reply);
    case Resolved => ResolvedTurn(tree, t, w, id, found, retryable, reply);
    case Unpreparable => StumbledTurn(tree, t, w, id, found, retryable, reply);
    case _ => AskedTurn(tree, t, w, id, found, retryable, reply);
  }

  lemma TurnKeeps(tree: Tree, t: State, next: State, w: nat, id: nat, found: nat -> Fact, reply: Option<nat>)
    requires Turning(t, w, found, reply) && PhaseOf(t, w).pass.todo != []
    requires id == PhaseOf(t, w).pass.todo[0] && id in t.ledger.rows
    requires TurnOf(t, next, w, id, FoundAs(t.ledger.rows, id, found), found, reply)
    ensures Turning(next, w, found, reply)
  {
    var p, q, rows := PhaseOf(t, w).pass, PhaseOf(next, w).pass, t.ledger.rows;
    assert p.todo[0] in p.todo;
    RestHeld(rows, p.todo, Claimed);
    OneRowTurned(rows, next.ledger.rows, id, q.todo, p.requests, found);
    if FoundAs(rows, id, found).NeedsModel? {
      OneMoreAsking(next.ledger.rows, p.requests, id, found);
    } else {
      OneMoreExpected(p.marks, q.marks, found, reply);
      assert forall i :: 0 <= i < |p.marks| ==> q.marks[i] == q.marks[..|p.marks|][i];
    }
  }

  lemma RestHeld(rows: Rows, ids: seq<nat>, status: Status)
    requires ids != [] && HeldAs(rows, ids, status)
    ensures HeldAs(rows, ids[1..], status) && ids[0] !in ids[1..]
  {
    assert forall k :: 0 <= k < |ids[1..]| ==> ids[1..][k] == ids[k + 1] && ids[k + 1] in ids;
  }

  lemma OneMoreExpected(was: seq<Mark>, now: seq<Mark>, found: nat -> Fact, reply: Option<nat>)
    requires AllExpected(was, found, reply) && |now| == |was| + 1 && now[..|was|] == was
    requires AsExpected(now[|was|], found, reply)
    ensures AllExpected(now, found, reply)
  {
    assert forall i :: 0 <= i < |was| ==> now[i] == now[..|was|][i] && AsExpected(was[i], found, reply);
  }

  lemma OneRowTurned(rows: Rows, after: Rows, id: nat, todo: seq<nat>, requests: seq<nat>, found: nat -> Fact)
    requires HeldAs(rows, todo, Claimed) && Asking(rows, requests, found) && id !in todo && id !in requests
    requires after.Keys == rows.Keys && forall k :: k in rows && k != id ==> after[k] == rows[k]
    ensures HeldAs(after, todo, Claimed) && Asking(after, requests, found)
  {
  }

  lemma OneMoreAsking(rows: Rows, requests: seq<nat>, id: nat, found: nat -> Fact)
    requires Asking(rows, requests, found) && id !in requests
    requires id in rows && rows[id].status == Running && rows[id].summarizes && found(id).seen == NeedsModel
    ensures Asking(rows, requests + [id], found)
  {
  }

  // ----- runs of one worker -----------------------------------------------------------------------

  lemma {:induction false} RunJoins(tree: Tree, s: State, first: seq<Event>, t: State, second: seq<Event>, u: State)
    requires Run(tree, s, first, t) && Run(tree, t, second, u)
    ensures Run(tree, s, first + second, u)
    decreases |first|
  {
    if |first| > 0 {
      RunJoins(tree, Step(tree, s, first[0]), first[1..], t, second, u);
      assert (first + second)[1..] == first[1..] + second;
    } else {
      assert first + second == second;
    }
  }

  lemma AloneJoins(tree: Tree, s: State, first: seq<Event>, t: State, second: seq<Event>, u: State, w: nat)
    requires Alone(tree, s, first, t, w) && Alone(tree, t, second, u, w)
    ensures Alone(tree, s, first + second, u, w)
  {
    RunJoins(tree, s, first, t, second, u);
  }

  lemma AloneOn(tree: Tree, s: State, events: seq<Event>, t: State, e: Event, w: nat)
    requires Alone(tree, s, events, t, w) && Enabled(tree, t, e) && Actor(e) == Some(w) && !e.End?
    ensures Alone(tree, s, events + [e], Step(tree, t, e), w)
  {
    RunThen(tree, s, events, t, e);
    SamePasses(tree, t, e);
  }

  lemma {:induction false} SamePasses(tree: Tree, t: State, e: Event)
    requires Enabled(tree, t, e) && !e.End?
    ensures Step(tree, t, e).passes == t.passes
  {
  }

  // ----- claiming -----------------------------------------------------------------------------------

  /** What the queue hands out can be claimed. */
  ghost predicate Hands(tree: Tree, next: Rows -> Option<nat>) {
    forall rows :: next(rows).Some? ==> Claimable(rows, tree, next(rows).value)
  }

  lemma ClaimHeld(tree: Tree, t: State, w: nat, id: nat)
    requires PhaseOf(t, w).Claiming? && HeldAs(t.ledger.rows, PhaseOf(t, w).claimed, Claimed)
    requires Enabled(tree, t, ClaimOne(w, id))
    ensures var after := Step(tree, t, ClaimOne(w, id));
            && PhaseOf(after, w) == Claiming(PhaseOf(t, w).claimed + [id]) && after.accepted == t.accepted
            && HeldAs(after.ledger.rows, PhaseOf(after, w).claimed, Claimed)
  {
    assert id !in PhaseOf(t, w).claimed;
  }

  /** Claim up to `size` tasks, one transaction each, until the queue hands out no more. */
  method ClaimBatch(tree: Tree, s: State, w: nat, size: nat, next: Rows -> Option<nat>)
    returns (t: State, ghost events: seq<Event>)
    requires PhaseOf(s, w) == Idle && Hands(tree, next)
    ensures Alone(tree, s, events, t, w) && t.accepted == s.accepted
    ensures PhaseOf(t, w).Preparing?
    ensures var p := PhaseOf(t, w).pass;
            && p == Pass(p.claimed, p.claimed, [], []) && HeldAs(t.ledger.rows, p.claimed, Claimed)
            && |p.claimed| <= size && (|p.claimed| < size ==> next(t.ledger.rows).None?)
  {
    AloneOn(tree, s, [], s, Begin(w), w);
    t, events := Step(tree, s, Begin(w)), [] + [Begin(w)];
    var k := 0;
    while k < size
      invariant k <= size && Alone(tree, s, events, t, w) && t.accepted == s.accepted
      invariant PhaseOf(t, w).Claiming? && |PhaseOf(t, w).claimed| == k
      invariant HeldAs(t.ledger.rows, PhaseOf(t, w).claimed, Claimed)
    {
      var id := next(t.ledger.rows);
      if id.None? { break; }
      var e := ClaimOne(w, id.value);
      ClaimHeld(tree, t, w, id.value);
      AloneOn(tree, s, events, t, e, w);
      t, events := Step(tree, t, e), events + [e];
      k := k + 1;
    }
    AloneOn(tree, s, events, t, StopClaiming(w), w);
    t, events := Step(tree, t, StopClaiming(w)), events + [StopClaiming(w)];
  }

  // ----- preparing ----------------------------------------------------------------------------------

  lemma AloneTurned(tree: Tree, s: State, events: seq<Event>, t: State, w: nat, seen: Seen, retryable: bool)
    requires Alone(tree, s, events, t, w) && Enabled(tree, t, Prepare(w, seen))
    ensures Alone(tree, s, events + TurnEvents(w, seen, retryable), Turned(tree, t, w, seen, retryable), w)
  {
    var e := Prepare(w, seen);
    AloneOn(tree, s, events, t, e, w);
    if seen.Unpreparable? {
      AloneOn(tree, s, events + [e], Step(tree, t, e), FailStumbled(w, retryable), w);
      assert events + [e] + [FailStumbled(w, retryable)] == events + TurnEvents(w, seen, retryable);
    }
  }

  ghost function TurnEvents(w: nat, seen: Seen, retryable: bool): seq<Event> {
    if seen.Unpreparable? then [Prepare(w, seen), FailStumbled(w, retryable)] else [Prepare(w, seen)]
  }

  /** A turn for every claimed task, in the order of the claims. */
  method PrepareAll(tree: Tree, s: State, w: nat, found: nat -> Fact, ghost reply: Option<nat>)
    returns (t: State, ghost events: seq<Event>)
    requires Findings(found) && Turning(s, w, found, reply)
    ensures Alone(tree, s, events, t, w) && t.accepted == s.accepted
    ensures Turning(t, w, found, reply) && PhaseOf(t, w).pass.todo == []
    ensures PhaseOf(t, w).pass.claimed == PhaseOf(s, w).pass.claimed
  {
    t, events := s, [];
    while PhaseOf(t, w).pass.todo != []
      invariant Alone(tree, s, events, t, w) && t.accepted == s.accepted
      invariant Turning(t, w, found, reply) && PhaseOf(t, w).pass.claimed == PhaseOf(s, w).pass.claimed
      decreases |PhaseOf(t, w).pass.todo|
    {
      TurnEnabled(tree, t, w, found, reply);
      var id := PhaseOf(t, w).pass.todo[0];
      var seen := FoundAs(t.ledger.rows, id, found);
      var after := Turned(tree, t, w, seen, found(id).retryable);
      TurnIs(tree, t, w, id, found, found(id).retryable, reply);
      TurnKeeps(tree, t, after, w, id, found, reply);
      AloneTurned(tree, s, events, t, w, seen, found(id).retryable);
      t, events := after, events + TurnEvents(w, seen, found(id).retryable);
    }
  }

  // ----- submitting ---------------------------------------------------------------------------------

  lemma {:induction false} RefusalKeeps(tree: Tree, t: State, w: nat, found: nat -> Fact, retryable: bool)
    requires Refusing(t, w, found) && PhaseOf(t, w).pass.requests != []
    requires retryable == found(PhaseOf(t, w).pass.requests[0]).retryable
    ensures var after := Step(tree, t, FailNext(w, retryable));
            && Refusing(after, w, found) && after.accepted == t.accepted
            && PhaseOf(after, w).pass.requests == PhaseOf(t, w).pass.requests[1..]
            && PhaseOf(after, w).pass.claimed == PhaseOf(t, w).pass.claimed
            && (NoneParked(PhaseOf(t, w).pass.marks) ==> NoneParked(PhaseOf(after, w).pass.marks))
  {
    var p, rows := PhaseOf(t, w).pass, t.ledger.rows;
    var after := Step(tree, t, FailNext(w, retryable));
    assert p.requests[0] in p.requests;
    RestHeld(rows, p.requests, Running);
    OneRowTurned(rows, after.ledger.rows, p.requests[0], [], p.requests[1..], found);
    OneMoreExpected(p.marks, PhaseOf(after, w).pass.marks, found, None);
  }

  lemma {:induction false} ParkedAsExpected(tree: Tree, t: State, w: nat, found: nat -> Fact)
    requires PhaseOf(t, w).Submitted? && Asking(t.ledger.rows, PhaseOf(t, w).pass.requests, found)
    requires PhaseOf(t, w).pass.requests != [] && AllExpected(PhaseOf(t, w).pass.marks, found, Some(PhaseOf(t, w).batch))
    ensures var after := Step(tree, t, Park(w));
            && PhaseOf(after, w).Finishing? && PhaseOf(after, w).pass.claimed == PhaseOf(t, w).pass.claimed
            && AllExpected(PhaseOf(after, w).pass.marks, found, Some(PhaseOf(t, w).batch))
            && !NoneParked(PhaseOf(after, w).pass.marks)
  {
    var p, rows, batch := PhaseOf(t, w).pass, t.ledger.rows, PhaseOf(t, w).batch;
    assert forall i :: 0 <= i < |p.requests| ==> p.requests[i] in p.requests;
    ParkSucceeds(rows, p.requests, batch);
    var marks := ParkMarks(p.requests, rows, Parked(rows, p.requests, batch).value, batch);
    assert AllExpected(marks, found, Some(batch));
    assert marks[0].outcome.Parking?;
    var now := PhaseOf(Step(tree, t, Park(w)), w).pass.marks;
    assert now == p.marks + marks && now[|p.marks|] == marks[0];
    assert forall i :: 0 <= i < |p.marks| ==> AsExpected(p.marks[i], found, Some(batch));
    assert forall i :: 0 <= i < |marks| ==> AsExpected(marks[i], found, Some(batch));
  }

  /** Hand the requests to the provider and park them, or fail each when it refuses them. */
  method Submitting(tree: Tree, s: State, w: nat, found: nat -> Fact, reply: Option<nat>)
    returns (t: State, ghost events: seq<Event>)
    requires Turning(s, w, found, reply) && PhaseOf(s, w).pass.todo == [] && PhaseOf(s, w).pass.requests != []
    requires reply.Some? ==> reply.value !in s.accepted
    ensures Alone(tree, s, events, t, w) && Ending(PhaseOf(t, w))
    ensures PhaseOf(t, w).pass.claimed == PhaseOf(s, w).pass.claimed
    ensures AllExpected(PhaseOf(t, w).pass.marks, found, reply)
    ensures NoneParked(PhaseOf(t, w).pass.marks) <==> reply.None?
  {
    if reply.Some? {
      var e := Submit(w, reply.value);
      AloneOn(tree, s, [], s, e, w);
      t, events := Step(tree, s, e), [] + [e];
      ParkedAsExpected(tree, t, w, found);
      AloneOn(tree, s, events, t, Park(w), w);
      t, events := Step(tree, t, Park(w)), events + [Park(w)];
    } else {
      AloneOn(tree, s, [], s, Refuse(w), w);
      t, events := Step(tree, s, Refuse(w)), [] + [Refuse(w)];
      while PhaseOf(t, w).pass.requests != []
        invariant Alone(tree, s, events, t, w) && Refusing(t, w, found)
        invariant PhaseOf(t, w).pass.claimed == PhaseOf(s, w).pass.claimed
        invariant NoneParked(PhaseOf(t, w).pass.marks)
        decreases |PhaseOf(t, w).pass.requests|
      {
        var e := FailNext(w, found(PhaseOf(t, w).pass.requests[0]).retryable);
        RefusalKeeps(tree, t, w, found, e.retryable);
        AloneOn(tree, s, events, t, e, w);
        t, events := Step(tree, t, e), events + [e];
      }
    }
  }

  // ----- the whole pass -----------------------------------------------------------------------------

  /** The pass `w` ends at `t` and nothing else: each task claimed is claimed once and comes
      out as expected. */
  ghost predicate PassEnds(s: State, t: State, w: nat, size: nat, found: nat -> Fact, reply: Option<nat>, batch: Option<nat>) {
    && PhaseOf(t, w) == Idle
    && |t.passes| == |s.passes| + 1 && t.passes[..|s.passes|] == s.passes && t.passes[|s.passes|].worker == w
    && var p := t.passes[|s.passes|].pass;
       && Distinct(p.claimed) && |p.claimed| <= size
       && AllExpected(p.marks, found, reply)
       && batch == if NoneParked(p.marks) then None else reply
  }

  lemma EndEnds(tree: Tree, s: State, t: State, w: nat)
    requires Ending(PhaseOf(t, w)) && t.passes == s.passes
    ensures var u := Step(tree, t, End(w));
            && PhaseOf(u, w) == Idle && |u.passes| == |s.passes| + 1 && u.passes[..|s.passes|] == s.passes
            && u.passes[|s.passes|] == Ended(w, PhaseOf(t, w).pass)
  {
  }

  /** Turn to every claimed task, and submit what needs the model, if anything does. */
  method PrepareAndSubmit(tree: Tree, s: State, w: nat, found: nat -> Fact, reply: Option<nat>)
    returns (t: State, batch: Option<nat>, ghost events: seq<Event>)
    requires Findings(found) && Turning(s, w, found, reply)
    requires reply.Some? ==> reply.value !in s.accepted
    ensures Alone(tree, s, events, t, w) && Ending(PhaseOf(t, w))
    ensures PhaseOf(t, w).pass.claimed == PhaseOf(s, w).pass.claimed
    ensures AllExpected(PhaseOf(t, w).pass.marks, found, reply)
    ensures batch == if NoneParked(PhaseOf(t, w).pass.marks) then None else reply
  {
    t, events := PrepareAll(tree, s, w, found, reply);
    batch := None;
    if PhaseOf(t, w).pass.requests != [] {
      ghost var prepared, more := t, [];
      t, more := Submitting(tree, t, w, found, reply);
      AloneJoins(tree, s, events, prepared, more, t, w);
      batch, events := reply, events + more;
    }
  }

  /** One pass with nobody else at the queue, as steps of the state machine. From a state the
      parties can reach, every task it claimed has exactly one outcome. */
  method GatherAndSubmit(tree: Tree, s: State, w: nat, size: nat, next: Rows -> Option<nat>,
                         found: nat -> Fact, reply: Option<nat>)
    returns (t: State, batch: Option<nat>, ghost events: seq<Event>)
    requires PhaseOf(s, w) == Idle && Hands(tree, next) && Findings(found)
    requires reply.Some? ==> reply.value !in s.accepted
    ensures Run(tree, s, events, t) && forall i :: 0 <= i < |events| ==> Actor(events[i]) == Some(w)
    ensures PassEnds(s, t, w, size, found, reply, batch)
    ensures Inv(tree, s) && PassesTrue(s) ==>
              forall id :: id in t.passes[|s.passes|].pass.claimed ==> OneOutcome(t.passes[|s.passes|].pass, id)
  {
    t, events := ClaimBatch(tree, s, w, size, next);
    ghost var claimed, more := t, [];
    t, batch, more := PrepareAndSubmit(tree, t, w, found, reply);
    AloneJoins(tree, s, events, claimed, more, t, w);
    events := events + more;
    PassDone(tree, s, events, t, w);
    t, events := Step(tree, t, End(w)), events + [End(w)];
  }

  /** The pass returns: its last step, and what it leaves. */
  lemma PassDone(tree: Tree, s: State, events: seq<Event>, t: State, w: nat)
    requires Alone(tree, s, events, t, w) && Ending(PhaseOf(t, w)) && Distinct(PhaseOf(t, w).pass.claimed)
    ensures var u := Step(tree, t, End(w));
            && Run(tree, s, events + [End(w)], u)
            && PhaseOf(u, w) == Idle && |u.passes| == |s.passes| + 1 && u.passes[..|s.passes|] == s.passes
            && u.passes[|s.passes|] == Ended(w, PhaseOf(t, w).pass)
            && (Inv(tree, s) && PassesTrue(s) ==>
                  forall id :: id in PhaseOf(t, w).pass.claimed ==> OneOutcome(PhaseOf(t, w).pass, id))
  {
    EndEnds(tree, s, t, w);
    RunThen(tree, s, events, t, End(w));
    EachOutcomeOnce(tree, s, events + [End(w)], Step(tree, t, End(w)), |s.passes|);
  }

  lemma EachOutcomeOnce(tree: Tree, s: State, events: seq<Event>, t: State, n: nat)
    requires Run(tree, s, events, t) && n < |t.passes| && Distinct(t.passes[n].pass.claimed)
    ensures Inv(tree, s) && PassesTrue(s) ==>
              forall id :: id in t.passes[n].pass.claimed ==> OneOutcome(t.passes[n].pass, id)
  {
    if Inv(tree, s) && PassesTrue(s) {
      RunKeepsPasses(tree, s, events, t);
      EachOnce(t, t.passes[n].pass);
    }
  }

  lemma EachOnce(s: State, p: Pass)
    requires EndedTrue(s, p) && Distinct(p.claimed)
    ensures forall id :: id in p.claimed ==> OneOutcome(p, id)
  {
    forall id | id in p.claimed ensures OneOutcome(p, id) {
      DistinctCount(p.claimed, id);
      OneOutcomeExactly(s, p, id);
    }
  }
}
