// Every run of batch workers, direct workers, the lease reaper and the provider, as steps
// that interleave in any order.
module BatchRuns {
  import opened Text
  import opened Queue
  import opened BatchProvider
  import opened BatchProtocol

  /** What a worker finds when it turns to a task it has claimed. */
  datatype Seen = Vanished | WrongType | Unpreparable | Resolved | NeedsModel

  /** What became of a claimed task in one pass. */
  datatype Outcome = Lost | Failure | Completion | Parking(batch: nat)

  /** One outcome, with the task's row just before and just after the transaction it was
      reached in. */
  datatype Mark = Mark(id: nat, outcome: Outcome, before: Option<Task>, after: Option<Task>)

  /** One worker's pass: what it claimed, what it has not yet turned to, what it will ask the
      provider for, and the outcomes so far. */
  datatype Pass = Pass(claimed: seq<nat>, todo: seq<nat>, requests: seq<nat>, marks: seq<Mark>)

  /** Where a batch worker stands between two of its transactions. */
  datatype Phase =
    | Idle
    | Claiming(claimed: seq<nat>)
    | Preparing(pass: Pass)
    | Stumbled(pass: Pass, id: nat)
    | Refused(pass: Pass)
    | Submitted(batch: nat, pass: Pass)
    | Finishing(pass: Pass)

  /** A pass that came to its normal end, and whose it was. */
  datatype Ended = Ended(worker: nat, pass: Pass)

  /** The database, the workers' memories, and what the provider has accepted. `parked`,
      `docs` and `passes` are history: the batches that were ever parked, each task's
      document, and the passes that ended normally. */
  datatype State = State(
    ledger: Ledger,
    workers: map<nat, Phase>,
    accepted: map<nat, seq<nat>>,
    parked: set<nat>,
    docs: map<nat, nat>,
    passes: seq<Ended>)

  /** One committed transaction, one call to the provider, or one crash. */
  datatype Event =
    | Enqueue(id: nat, task: Task)
    | Delete(id: nat)
    | DirectClaim(id: nat, worker: nat)
    | DirectFinish(id: nat, done: bool, retryable: bool)
    | Reap(id: nat)
    | Begin(worker: nat)
    | ClaimOne(worker: nat, id: nat)
    | StopClaiming(worker: nat)
    | Prepare(worker: nat, seen: Seen)
    | FailStumbled(worker: nat, retryable: bool)
    | Submit(worker: nat, batch: nat)
    | Refuse(worker: nat)
    | FailNext(worker: nat, retryable: bool)
    | Park(worker: nat)
    | End(worker: nat)
    | Crash(worker: nat)
    | Poll(batch: nat, status: BatchStatus, results: seq<BatchResult>, fits: string -> bool)

  function PhaseOf(s: State, w: nat): Phase {
    if w in s.workers then s.workers[w] else Idle
  }

  /** No two results of one reply name the same task. */
  predicate OnceEach(results: seq<BatchResult>) {
    forall i, j :: 0 <= i < j < |results| ==>
      var a, b := TaskIdFrom(results[i].customId), TaskIdFrom(results[j].customId);
      a.Some? ==> a != b
  }

  /** Nothing is left to do in the pass but to return. */
  predicate Ending(phase: Phase) {
    match phase
    case Preparing(pass) => pass.todo == [] && pass.requests == []
    case Refused(pass) => pass.requests == []
    case Finishing(_) => true
    case _ => false
  }

  /** When a step may be taken. Ids of tasks and of batches are never reused, a batch worker
      marks a task running only while it is claimed, and a provider answers each request at
      most once. */
  predicate Enabled(tree: Tree, s: State, e: Event) {
    var rows := s.ledger.rows;
    match e
    case Enqueue(id, task) => id !in s.docs && task.status == Pending && task.batch == None
    case Delete(id) => id in rows
    case DirectClaim(id, worker) => Claimable(rows, tree, id)
    case DirectFinish(id, done, retryable) => id in rows && rows[id].status != Pending
    case Reap(id) => id in rows && Reapable(rows[id])
    case Begin(w) => PhaseOf(s, w) == Idle
    case ClaimOne(w, id) => PhaseOf(s, w).Claiming? && Claimable(rows, tree, id)
    case StopClaiming(w) => PhaseOf(s, w).Claiming?
    case Prepare(w, seen) =>
      && PhaseOf(s, w).Preparing? && PhaseOf(s, w).pass.todo != []
      && var id := PhaseOf(s, w).pass.todo[0];
         (seen.Vanished? <==> id !in rows)
         && (id in rows && !seen.WrongType? ==> rows[id].status == Claimed && rows[id].summarizes)
         && (id in rows && seen.WrongType? ==> !rows[id].summarizes)
    case FailStumbled(w, retryable) => PhaseOf(s, w).Stumbled?
    case Submit(w, batch) =>
      && PhaseOf(s, w).Preparing? && PhaseOf(s, w).pass.todo == [] && PhaseOf(s, w).pass.requests != []
      && batch !in s.accepted
    case Refuse(w) => PhaseOf(s, w).Preparing? && PhaseOf(s, w).pass.todo == [] && PhaseOf(s, w).pass.requests != []
    case FailNext(w, retryable) => PhaseOf(s, w).Refused? && PhaseOf(s, w).pass.requests != []
    case Park(w) => PhaseOf(s, w).Submitted?
    case End(w) => Ending(PhaseOf(s, w))
    case Crash(w) => true
    case Poll(batch, status, results, fits) => ParkedUnder(rows, batch) != {} && OnceEach(results)
  }

  function WithRow(s: State, id: nat, task: Task): State {
    s.(ledger := s.ledger.(rows := s.ledger.rows[id := task]))
  }

  function WithPhase(s: State, w: nat, phase: Phase): State {
    s.(workers := s.workers[w := phase])
  }

  function Lookup(rows: Rows, id: nat): Option<Task> {
    if id in rows then Some(rows[id]) else None
  }

  function MarkOf(id: nat, outcome: Outcome, rows: Rows, after: Rows): Mark {
    Mark(id, outcome, Lookup(rows, id), Lookup(after, id))
  }

  function Noted(pass: Pass, mark: Mark): Pass {
    pass.(marks := pass.marks + [mark])
  }

  /** The turn of the next claimed task. A node whose preparation failed has had its
      transaction rolled back, and is failed in one of its own. */
  function Prepared(s: State, w: nat, seen: Seen): State
    requires PhaseOf(s, w).Preparing? && PhaseOf(s, w).pass.todo != []
    requires seen.Vanished? <==> PhaseOf(s, w).pass.todo[0] !in s.ledger.rows
  {
    var pass, rows := PhaseOf(s, w).pass, s.ledger.rows;
    var id, rest := pass.todo[0], pass.(todo := pass.todo[1..]);
    match seen
    case Vanished => WithPhase(s, w, Preparing(Noted(rest, MarkOf(id, Lost, rows, rows))))
    case WrongType =>
      var after := rows[id := FailedTask(rows[id], true)];
      WithRow(WithPhase(s, w, Preparing(Noted(rest, MarkOf(id, Failure, rows, after)))), id, after[id])
    case Unpreparable => WithPhase(s, w, Stumbled(rest, id))
    case Resolved =>
      var after := rows[id := CompletedTask(rows[id])];
      WithRow(WithPhase(s, w, Preparing(Noted(rest, MarkOf(id, Completion, rows, after)))), id, after[id])
    case NeedsModel =>
      WithRow(WithPhase(s, w, Preparing(rest.(requests := pass.requests + [id]))), id, rows[id].(status := Running))
  }

  /** A failure recorded in its own transaction: of the row, if it is still there. */
  function FailureMark(rows: Rows, id: nat, retryable: bool): Mark {
    if id in rows then Mark(id, Failure, Some(rows[id]), Some(FailedTask(rows[id], retryable)))
    else Mark(id, Lost, None, None)
  }

  function WithFailure(s: State, id: nat, retryable: bool): State {
    if id in s.ledger.rows then WithRow(s, id, FailedTask(s.ledger.rows[id], retryable)) else s
  }

  function ParkMarks(ids: seq<nat>, rows: Rows, after: Rows, batch: nat): seq<Mark> {
    seq(|ids|, k requires 0 <= k < |ids| => MarkOf(ids[k], if ids[k] in rows then Parking(batch) else Lost, rows, after))
  }

  function Step(tree: Tree, s: State, e: Event): State
    requires Enabled(tree, s, e)
  {
    var rows := s.ledger.rows;
    match e
    case Enqueue(id, task) => WithRow(s, id, task).(docs := s.docs[id := task.doc])
    case Delete(id) => s.(ledger := s.ledger.(rows := rows - {id}))
    case DirectClaim(id, worker) => WithRow(s, id, ClaimedBy(rows[id], worker))
    case DirectFinish(id, done, retryable) =>
      WithRow(s, id, if done then CompletedTask(rows[id]) else FailedTask(rows[id], retryable))
    case Reap(id) => WithRow(s, id, FailedTask(rows[id], true))
    case Begin(w) => WithPhase(s, w, Claiming([]))
    case ClaimOne(w, id) =>
      WithPhase(WithRow(s, id, ClaimedBy(rows[id], w)), w, Claiming(PhaseOf(s, w).claimed + [id]))
    case StopClaiming(w) => WithPhase(s, w, Preparing(Pass(PhaseOf(s, w).claimed, PhaseOf(s, w).claimed, [], [])))
    case Prepare(w, seen) => Prepared(s, w, seen)
    case FailStumbled(w, retryable) =>
      var phase := PhaseOf(s, w);
      WithFailure(WithPhase(s, w, Preparing(Noted(phase.pass, FailureMark(rows, phase.id, retryable)))), phase.id, retryable)
    case Submit(w, batch) =>
      var pass := PhaseOf(s, w).pass;
      WithPhase(s, w, Submitted(batch, pass)).(accepted := s.accepted[batch := pass.requests])
    case Refuse(w) => WithPhase(s, w, Refused(PhaseOf(s, w).pass))
    case FailNext(w, retryable) =>
      var pass := PhaseOf(s, w).pass;
      var id, rest := pass.requests[0], pass.(requests := pass.requests[1..]);
      WithFailure(WithPhase(s, w, Refused(Noted(rest, FailureMark(rows, id, retryable)))), id, retryable)
    case Park(w) =>
      var phase := PhaseOf(s, w);
      var pass, batch := phase.pass, phase.batch;
      var after := Parked(rows, pass.requests, batch);
      if after.None? then WithPhase(s, w, Idle)
      else
        var done := Pass(pass.claimed, pass.todo, [], pass.marks + ParkMarks(pass.requests, rows, after.value, batch));
        WithPhase(s, w, Finishing(done)).(ledger := s.ledger.(rows := after.value), parked := s.parked + {batch})
    case End(w) => WithPhase(s, w, Idle).(passes := s.passes + [Ended(w, PhaseOf(s, w).pass)])
    case Crash(w) => WithPhase(s, w, Idle)
    case Poll(batch, status, results, fits) =>
      s.(ledger := Polled(s.ledger, batch, status, results, fits))
  }

  // ----- the invariant --------------------------------------------------------------------

  /** A parked row is parked under a batch that was parked, and was among the requests of the
      one submission that batch came from. */
  ghost predicate ParkedRow(s: State, id: nat)
    requires id in s.ledger.rows
  {
    var t := s.ledger.rows[id];
    t.status == Batched ==>
      && t.batch.Some? && t.batch.value in s.parked
      && t.batch.value in s.accepted && id in s.accepted[t.batch.value]
  }

  /** What a log entry says happened: the batch was parked, the task was one of its requests,
      and the document is the task's own. */
  ghost predicate TrueEntry(s: State, a: Applied) {
    && a.batch in s.parked && a.batch in s.accepted && a.task in s.accepted[a.batch]
    && a.task in s.docs && s.docs[a.task] == a.doc
  }

  /** An applied task is no longer parked under the batch it was applied from. */
  ghost predicate Spent(s: State, a: Applied) {
    a.task in s.ledger.rows && s.ledger.rows[a.task].status == Batched ==>
      s.ledger.rows[a.task].batch != Some(a.batch)
  }

  /** A worker holding an accepted batch holds the only copy, not yet parked. */
  ghost predicate HeldOnce(s: State, w: nat) {
    PhaseOf(s, w).Submitted? ==>
      var phase := PhaseOf(s, w);
      && phase.batch in s.accepted && s.accepted[phase.batch] == phase.pass.requests && phase.batch !in s.parked
      && forall v :: v != w && PhaseOf(s, v).Submitted? ==> PhaseOf(s, v).batch != phase.batch
  }

  ghost predicate RowsTrue(s: State) {
    forall id :: id in s.ledger.rows ==>
      && ParkedRow(s, id)
      && id in s.docs && s.docs[id] == s.ledger.rows[id].doc
  }

  ghost predicate LogTrue(s: State) {
    && (forall i :: 0 <= i < |s.ledger.log| ==> TrueEntry(s, s.ledger.log[i]) && Spent(s, s.ledger.log[i]))
    && forall i, j :: 0 <= i < j < |s.ledger.log| ==>
         s.ledger.log[i].task != s.ledger.log[j].task || s.ledger.log[i].batch != s.ledger.log[j].batch
  }

  ghost predicate Inv(tree: Tree, s: State) {
    && Exclusive(s.ledger.rows, tree)
    && RowsTrue(s) && LogTrue(s)
    && (forall w :: HeldOnce(s, w))
    && s.parked <= s.accepted.Keys
  }

  ghost predicate Initial(s: State) {
    && s.ledger == Ledger(map[], []) && s.workers == map[] && s.accepted == map[]
    && s.parked == {} && s.docs == map[] && s.passes == []
  }

  // ----- steps that change one row ------------------------------------------------------------

  /** Nothing is newly parked, and besides rows only the documents of new tasks are new. */
  ghost predicate Calm(s: State, t: State) {
    && t.ledger.log == s.ledger.log && t.workers == s.workers && t.accepted == s.accepted && t.parked == s.parked
    && (forall id :: id in s.docs ==> id in t.docs && t.docs[id] == s.docs[id])
    && (forall id :: id in t.ledger.rows ==> id in t.docs && t.docs[id] == t.ledger.rows[id].doc)
    && forall id :: id in t.ledger.rows && t.ledger.rows[id].status == Batched ==>
         id in s.ledger.rows && t.ledger.rows[id] == s.ledger.rows[id]
  }

  lemma CalmRows(s: State, t: State)
    requires RowsTrue(s) && Calm(s, t)
    ensures RowsTrue(t)
  {
    forall id | id in t.ledger.rows ensures ParkedRow(t, id) {
      assert t.ledger.rows[id].status == Batched ==> ParkedRow(s, id);
    }
  }

  lemma CalmLog(s: State, t: State)
    requires LogTrue(s) && Calm(s, t)
    ensures LogTrue(t)
  {
    forall i | 0 <= i < |t.ledger.log| ensures TrueEntry(t, t.ledger.log[i]) && Spent(t, t.ledger.log[i]) {
      assert TrueEntry(s, s.ledger.log[i]) && Spent(s, s.ledger.log[i]);
    }
  }

  lemma CalmHeld(s: State, t: State)
    requires (forall w :: HeldOnce(s, w)) && Calm(s, t)
    ensures forall w :: HeldOnce(t, w)
  {
    assert forall w :: HeldOnce(s, w) && PhaseOf(t, w) == PhaseOf(s, w);
  }

  lemma CalmStep(s: State, t: State)
    requires RowsTrue(s) && LogTrue(s) && (forall w :: HeldOnce(s, w)) && Calm(s, t)
    ensures RowsTrue(t) && LogTrue(t) && forall w :: HeldOnce(t, w)
  {
    CalmRows(s, t);
    CalmLog(s, t);
    CalmHeld(s, t);
  }

  /** A row that keeps its document and its mode, and is not newly parked, and is active only
      if it was. */
  ghost predicate Quieter(before: Task, after: Task) {
    && after.doc == before.doc && after.mode == before.mode
    && (Active(after) ==> Active(before))
    && (after.status == Batched ==> after == before)
  }

  lemma QuietRow(tree: Tree, s: State, id: nat, after: Task)
    requires Inv(tree, s) && id in s.ledger.rows && Quieter(s.ledger.rows[id], after)
    ensures Inv(tree, WithRow(s, id, after))
  {
    var t := WithRow(s, id, after);
    FewerActive(s.ledger.rows, t.ledger.rows, tree);
    CalmStep(s, t);
  }

  lemma ClaimRow(tree: Tree, s: State, id: nat, worker: nat)
    requires Inv(tree, s) && Claimable(s.ledger.rows, tree, id)
    ensures Inv(tree, WithRow(s, id, ClaimedBy(s.ledger.rows[id], worker)))
  {
    var t := WithRow(s, id, ClaimedBy(s.ledger.rows[id], worker));
    ClaimKeepsExclusive(s.ledger.rows, tree, id, worker);
    CalmStep(s, t);
  }

  /** A worker that lets go of what it held, or moves on without having submitted. */
  lemma QuietPhase(tree: Tree, s: State, w: nat, phase: Phase)
    requires Inv(tree, s) && !phase.Submitted?
    ensures Inv(tree, WithPhase(s, w, phase))
  {
    var t := WithPhase(s, w, phase);
    assert forall k :: k in t.ledger.rows ==> ParkedRow(s, k);
    assert forall i :: 0 <= i < |t.ledger.log| ==> TrueEntry(s, s.ledger.log[i]) && Spent(s, s.ledger.log[i]);
    forall v ensures HeldOnce(t, v) {
      assert HeldOnce(s, v);
      assert v != w ==> PhaseOf(t, v) == PhaseOf(s, v);
      assert forall u :: PhaseOf(t, u).Submitted? ==> PhaseOf(t, u) == PhaseOf(s, u);
    }
  }

  lemma {:induction false} EnqueueKeeps(tree: Tree, s: State, id: nat, task: Task)
    requires Inv(tree, s) && Enabled(tree, s, Enqueue(id, task))
    ensures Inv(tree, Step(tree, s, Enqueue(id, task)))
  {
    var t := Step(tree, s, Enqueue(id, task));
    assert id !in s.ledger.rows;
    CalmStep(s, t);
  }

  lemma DeleteKeeps(tree: Tree, s: State, id: nat)
    requires Inv(tree, s) && Enabled(tree, s, Delete(id))
    ensures Inv(tree, Step(tree, s, Delete(id)))
  {
    var t := Step(tree, s, Delete(id));
    FewerActive(s.ledger.rows, t.ledger.rows, tree);
    CalmStep(s, t);
  }

  lemma {:induction false} SubmitKeeps(tree: Tree, s: State, w: nat, batch: nat)
    requires Inv(tree, s) && Enabled(tree, s, Submit(w, batch))
    ensures Inv(tree, Step(tree, s, Submit(w, batch)))
  {
    var t := Step(tree, s, Submit(w, batch));
    assert forall k :: k in t.ledger.rows ==> ParkedRow(s, k);
    assert forall i :: 0 <= i < |t.ledger.log| ==> TrueEntry(s, s.ledger.log[i]) && Spent(s, s.ledger.log[i]);
    forall v ensures HeldOnce(t, v) {
      assert HeldOnce(s, v);
      assert forall u :: u != w ==> HeldOnce(s, u) && PhaseOf(t, u) == PhaseOf(s, u);
    }
  }

  lemma {:induction false} ParkRows(tree: Tree, s: State, w: nat)
    requires Inv(tree, s) && PhaseOf(s, w).Submitted?
    requires Parked(s.ledger.rows, PhaseOf(s, w).pass.requests, PhaseOf(s, w).batch).Some?
    ensures var t := Step(tree, s, Park(w)); Exclusive(t.ledger.rows, tree) && RowsTrue(t) && LogTrue(t)
  {
    var phase := PhaseOf(s, w);
    var t := Step(tree, s, Park(w));
    assert HeldOnce(s, w);
    ParkedIs(s.ledger.rows, phase.pass.requests, phase.batch);
    FewerActive(s.ledger.rows, t.ledger.rows, tree);
    assert forall k :: k in t.ledger.rows ==> ParkedRow(s, k);
    assert forall i :: 0 <= i < |t.ledger.log| ==> TrueEntry(s, s.ledger.log[i]) && Spent(s, s.ledger.log[i]);
  }

  lemma ParkKeeps(tree: Tree, s: State, w: nat)
    requires Inv(tree, s) && Enabled(tree, s, Park(w))
    ensures Inv(tree, Step(tree, s, Park(w)))
  {
    var phase := PhaseOf(s, w);
    var t := Step(tree, s, Park(w));
    if Parked(s.ledger.rows, phase.pass.requests, phase.batch).None? {
      QuietPhase(tree, s, w, Idle);
    } else {
      ParkRows(tree, s, w);
      assert HeldOnce(s, w);
      forall v ensures HeldOnce(t, v) {
        assert HeldOnce(s, v);
        assert forall u :: PhaseOf(t, u).Submitted? ==> u != w && PhaseOf(t, u) == PhaseOf(s, u);
      }
    }
  }

  // ----- applying results ---------------------------------------------------------------------

  /** Every row these results name, of those that were parked, is parked still. */
  ghost predicate StillParked(rows: Rows, parked: set<nat>, results: seq<BatchResult>, batch: nat) {
    forall i :: 0 <= i < |results| ==>
      var task := TaskIdFrom(results[i].customId);
      task.Some? && task.value in parked ==>
        && task.value in rows && rows[task.value].status == Batched && rows[task.value].batch == Some(batch)
  }

  lemma SettleKeeps(tree: Tree, s: State, task: nat, answer: Answer, batch: nat, fits: string -> bool)
    requires Inv(tree, s) && task in s.ledger.rows
    requires s.ledger.rows[task].status == Batched && s.ledger.rows[task].batch == Some(batch)
    ensures Inv(tree, s.(ledger := Settle(s.ledger, task, answer, batch, fits)))
  {
    var l := Settle(s.ledger, task, answer, batch, fits);
    var t := s.(ledger := s.ledger.(rows := l.rows));
    QuietRow(tree, s, task, l.rows[task]);
    assert t == WithRow(s, task, l.rows[task]);
    if answer.Text? && fits(answer.text) {
      AppendKeeps(tree, s, t, task, batch);
    } else {
      assert l == t.ledger;
    }
  }

  /** Logging an application of a row that was parked and now is not. */
  lemma {:induction false} AppendKeeps(tree: Tree, s: State, t: State, task: nat, batch: nat)
    requires Inv(tree, s) && task in s.ledger.rows
    requires s.ledger.rows[task].status == Batched && s.ledger.rows[task].batch == Some(batch)
    requires Inv(tree, t) && t == WithRow(s, task, CompletedTask(s.ledger.rows[task]))
    ensures var entry := Applied(task, s.ledger.rows[task].doc, batch);
            Inv(tree, t.(ledger := Ledger(t.ledger.rows, s.ledger.log + [entry])))
  {
    var entry := Applied(task, s.ledger.rows[task].doc, batch);
    var n := |s.ledger.log|;
    var u := t.(ledger := Ledger(t.ledger.rows, s.ledger.log + [entry]));
    assert ParkedRow(s, task);
    assert TrueEntry(u, entry) && Spent(u, entry);
    assert forall i :: 0 <= i < n ==> Spent(s, s.ledger.log[i]) && u.ledger.log[i] == t.ledger.log[i];
    assert forall i :: 0 <= i < n ==> TrueEntry(t, t.ledger.log[i]) && Spent(t, t.ledger.log[i]);
    assert forall k :: k in u.ledger.rows ==> ParkedRow(t, k);
    assert forall w :: HeldOnce(t, w) && PhaseOf(u, w) == PhaseOf(t, w);
  }

  lemma {:induction false} ApplyKeeps(tree: Tree, s: State, parked: set<nat>, results: seq<BatchResult>, batch: nat, fits: string -> bool)
    requires Inv(tree, s) && parked <= s.ledger.rows.Keys
    requires OnceEach(results) && StillParked(s.ledger.rows, parked, results, batch)
    ensures Inv(tree, s.(ledger := ApplyAll(s.ledger, parked, results, batch, fits)))
    decreases |results|
  {
    if results == [] {
      assert s.(ledger := s.ledger) == s;
    } else {
      var task := TaskIdFrom(results[0].customId);
      var named := task.Some? && task.value in parked;
      var l := if named then Settle(s.ledger, task.value, results[0].answer, batch, fits) else s.ledger;
      var t := s.(ledger := l);
      if named {
        SettleKeeps(tree, s, task.value, results[0].answer, batch, fits);
      }
      RestParked(s.ledger.rows, l.rows, parked, results, batch);
      ApplyKeeps(tree, t, parked, results[1..], batch, fits);
    }
  }

  /** Settling the first result leaves the rows the others name parked. */
  lemma RestParked(rows: Rows, after: Rows, parked: set<nat>, results: seq<BatchResult>, batch: nat)
    requires results != [] && OnceEach(results) && StillParked(rows, parked, results, batch)
    requires forall id :: id in rows && Some(id) != TaskIdFrom(results[0].customId) ==> id in after && after[id] == rows[id]
    ensures OnceEach(results[1..]) && StillParked(after, parked, results[1..], batch)
  {
    assert forall i :: 0 <= i < |results[1..]| ==> results[1..][i] == results[i + 1];
  }

  lemma {:induction false} PollKeeps(tree: Tree, s: State, batch: nat, status: BatchStatus, results: seq<BatchResult>, fits: string -> bool)
    requires Inv(tree, s) && Enabled(tree, s, Poll(batch, status, results, fits))
    ensures Inv(tree, Step(tree, s, Poll(batch, status, results, fits)))
  {
    var parked := ParkedUnder(s.ledger.rows, batch);
    match status
    case Working => assert s.(ledger := s.ledger) == s;
    case Ready => ApplyKeeps(tree, s, parked, results, batch, fits);
    case Dead =>
      var t := Step(tree, s, Poll(batch, status, results, fits));
      FewerActive(s.ledger.rows, t.ledger.rows, tree);
      CalmStep(s, t);
  }

  // ----- every step, every run ----------------------------------------------------------------

  lemma {:induction false} PrepareKeeps(tree: Tree, s: State, w: nat, seen: Seen)
    requires Inv(tree, s) && Enabled(tree, s, Prepare(w, seen))
    ensures Inv(tree, Step(tree, s, Prepare(w, seen)))
  {
    var rows, id := s.ledger.rows, PhaseOf(s, w).pass.todo[0];
    var next := PhaseOf(Prepared(s, w, seen), w);
    QuietPhase(tree, s, w, next);
    var t := WithPhase(s, w, next);
    match seen
    case Vanished =>
    case WrongType => QuietRow(tree, t, id, FailedTask(rows[id], true));
    case Unpreparable =>
    case Resolved => QuietRow(tree, t, id, CompletedTask(rows[id]));
    case NeedsModel => QuietRow(tree, t, id, rows[id].(status := Running));
  }

  lemma FailureKeeps(tree: Tree, s: State, w: nat, next: Phase, id: nat, retryable: bool)
    requires Inv(tree, s) && !next.Submitted?
    ensures Inv(tree, WithFailure(WithPhase(s, w, next), id, retryable))
  {
    QuietPhase(tree, s, w, next);
    if id in s.ledger.rows {
      QuietRow(tree, WithPhase(s, w, next), id, FailedTask(s.ledger.rows[id], retryable));
    }
  }

  lemma {:induction false} EndKeeps(tree: Tree, s: State, w: nat)
    requires Inv(tree, s) && Enabled(tree, s, End(w))
    ensures Inv(tree, Step(tree, s, End(w)))
  {
    var t, u := WithPhase(s, w, Idle), Step(tree, s, End(w));
    QuietPhase(tree, s, w, Idle);
    assert forall k :: k in t.ledger.rows ==> ParkedRow(t, k);
    assert forall i :: 0 <= i < |t.ledger.log| ==> TrueEntry(t, t.ledger.log[i]) && Spent(t, t.ledger.log[i]);
    assert forall v :: HeldOnce(t, v) && PhaseOf(u, v) == PhaseOf(t, v);
  }

  /** Each step of any party keeps the invariant. */
  lemma {:induction false} StepKeepsInv(tree: Tree, s: State, e: Event)
    requires Inv(tree, s) && Enabled(tree, s, e)
    ensures Inv(tree, Step(tree, s, e))
  {
    var rows := s.ledger.rows;
    match e
    case Enqueue(id, task) => EnqueueKeeps(tree, s, id, task);
    case Delete(id) => DeleteKeeps(tree, s, id);
    case DirectClaim(id, worker) => ClaimRow(tree, s, id, worker);
    case DirectFinish(id, done, retryable) =>
      QuietRow(tree, s, id, if done then CompletedTask(rows[id]) else FailedTask(rows[id], retryable));
    case Reap(id) => QuietRow(tree, s, id, FailedTask(rows[id], true));
    case Begin(w) => QuietPhase(tree, s, w, Claiming([]));
    case ClaimOne(w, id) =>
      ClaimRow(tree, s, id, w);
      QuietPhase(tree, WithRow(s, id, ClaimedBy(rows[id], w)), w, Claiming(PhaseOf(s, w).claimed + [id]));
    case StopClaiming(w) => QuietPhase(tree, s, w, Preparing(Pass(PhaseOf(s, w).claimed, PhaseOf(s, w).claimed, [], [])));
    case Prepare(w, seen) => PrepareKeeps(tree, s, w, seen);
    case FailStumbled(w, retryable) =>
      FailureKeeps(tree, s, w, PhaseOf(Step(tree, s, e), w), PhaseOf(s, w).id, retryable);
    case Submit(w, batch) => SubmitKeeps(tree, s, w, batch);
    case Refuse(w) => QuietPhase(tree, s, w, Refused(PhaseOf(s, w).pass));
    case FailNext(w, retryable) =>
      FailureKeeps(tree, s, w, PhaseOf(Step(tree, s, e), w), PhaseOf(s, w).pass.requests[0], retryable);
    case Park(w) => ParkKeeps(tree, s, w);
    case End(w) => EndKeeps(tree, s, w);
    case Crash(w) => QuietPhase(tree, s, w, Idle);
    case Poll(batch, status, results, fits) => PollKeeps(tree, s, batch, status, results, fits);
  }

  /** These steps, each enabled when its turn comes, lead from `s` to `t`. */
  ghost predicate Run(tree: Tree, s: State, events: seq<Event>, t: State)
    decreases |events|
  {
    if |events| == 0 then s == t
    else Enabled(tree, s, events[0]) && Run(tree, Step(tree, s, events[0]), events[1..], t)
  }

  lemma {:induction false} RunKeepsInv(tree: Tree, s: State, events: seq<Event>, t: State)
    requires Inv(tree, s) && Run(tree, s, events, t)
    ensures Inv(tree, t)
    decreases |events|
  {
    if |events| > 0 {
      StepKeepsInv(tree, s, events[0]);
      RunKeepsInv(tree, Step(tree, s, events[0]), events[1..], t);
    }
  }

  /** Whatever the interleaving, a summary reaches a document only from a batch that was
      parked and asked for that document's own task, and once; the rows parked under a batch
      are among the requests of the submission that returned it; and no two tasks holding a
      reservation conflict. */
  lemma {:induction false} EveryRunIsSafe(tree: Tree, s: State, events: seq<Event>, t: State)
    requires Initial(s) && Run(tree, s, events, t)
    ensures forall i :: 0 <= i < |t.ledger.log| ==> TrueEntry(t, t.ledger.log[i])
    ensures forall i, j :: 0 <= i < j < |t.ledger.log| ==>
              t.ledger.log[i].task != t.ledger.log[j].task || t.ledger.log[i].batch != t.ledger.log[j].batch
    ensures forall batch, id :: id in ParkedUnder(t.ledger.rows, batch) ==>
              batch in t.accepted && id in t.accepted[batch]
    ensures Exclusive(t.ledger.rows, tree)
  {
    RunKeepsInv(tree, s, events, t);
    assert forall id :: id in t.ledger.rows ==> ParkedRow(t, id);
  }

  // ----- orphaned batches ---------------------------------------------------------------------

  /** The provider has the batch and nothing here says so: it was not parked, and no worker
      remembers it. */
  ghost predicate Orphan(s: State, batch: nat) {
    && batch in s.accepted && batch !in s.parked
    && forall w :: PhaseOf(s, w).Submitted? ==> PhaseOf(s, w).batch != batch
  }

  /** A worker that dies in the accepted window leaves its batch an orphan. */
  lemma CrashOrphans(tree: Tree, s: State, w: nat)
    requires Inv(tree, s) && PhaseOf(s, w).Submitted?
    ensures Orphan(Step(tree, s, Crash(w)), PhaseOf(s, w).batch)
  {
    var t := Step(tree, s, Crash(w));
    assert HeldOnce(s, w);
    assert forall u :: PhaseOf(t, u).Submitted? ==> u != w && PhaseOf(t, u) == PhaseOf(s, u);
  }

  lemma {:induction false} OrphanStays(tree: Tree, s: State, e: Event, batch: nat)
    requires Inv(tree, s) && Enabled(tree, s, e) && Orphan(s, batch)
    ensures Orphan(Step(tree, s, e), batch)
  {
    var t := Step(tree, s, e);
    forall w | PhaseOf(t, w).Submitted? ensures PhaseOf(t, w).batch != batch {
      assert PhaseOf(t, w) == PhaseOf(s, w) || (e.Submit? && PhaseOf(t, w).batch == e.batch);
    }
  }

  /** Nothing a provider ever says about an orphaned batch is applied, and no row is ever
      parked under it. */
  lemma {:induction false} OrphanNeverApplied(tree: Tree, s: State, events: seq<Event>, t: State, batch: nat)
    requires Inv(tree, s) && Orphan(s, batch) && Run(tree, s, events, t)
    ensures Orphan(t, batch) && ParkedUnder(t.ledger.rows, batch) == {}
    ensures forall i :: 0 <= i < |t.ledger.log| ==> t.ledger.log[i].batch != batch
    decreases |events|
  {
    if |events| > 0 {
      StepKeepsInv(tree, s, events[0]);
      OrphanStays(tree, s, events[0], batch);
      OrphanNeverApplied(tree, Step(tree, s, events[0]), events[1..], t, batch);
    } else {
      assert forall id :: id in t.ledger.rows ==> ParkedRow(t, id);
      assert forall i :: 0 <= i < |t.ledger.log| ==> TrueEntry(t, t.ledger.log[i]);
    }
  }

  /** The assumption on providers is needed: a reply that answers one request twice is
      applied twice, because the parked tasks are read once, before the first result. */
  lemma AnsweredTwiceAppliedTwice(l: Ledger, task: nat, text: string, batch: nat, fits: string -> bool)
    requires task in ParkedUnder(l.rows, batch) && fits(text)
    ensures var result := BatchResult(CustomIdFor(task), Text(text));
            var entry := Applied(task, l.rows[task].doc, batch);
            Polled(l, batch, Ready, [result, result], fits).log == l.log + [entry, entry]
  {
    CustomIdRoundTrip(task);
    var result := BatchResult(CustomIdFor(task), Text(text));
    var parked := ParkedUnder(l.rows, batch);
    var once := Settle(l, task, Text(text), batch, fits);
    var twice := Settle(once, task, Text(text), batch, fits);
    assert [result, result][1..] == [result] && [result][1..] == [];
    assert ApplyAll(twice, parked, [], batch, fits) == twice;
    assert ApplyAll(once, parked, [result], batch, fits) == twice;
  }
}
