// What a poll makes of each parked task, by the answer it was given.
module BatchSettled {
  import opened Text
  import opened Queue
  import opened BatchProvider
  import opened BatchProtocol
  import opened BatchRuns

  /** The result is this task's. */
  predicate Names(r: BatchResult, task: nat) {
    TaskIdFrom(r.customId) == Some(task)
  }

  /** The task was given this answer. */
  ghost predicate Answered(results: seq<BatchResult>, task: nat, answer: Answer) {
    exists i :: 0 <= i < |results| && Names(results[i], task) && results[i].answer == answer
  }

  ghost predicate Unanswered(results: seq<BatchResult>, task: nat) {
    forall i :: 0 <= i < |results| ==> !Names(results[i], task)
  }

  /** Nothing of the row is changed but how it stands. */
  predicate OnlyStatus(before: Task, after: Task) {
    after.(status := before.status, retryable := before.retryable) == before
  }

  /** What an answer makes of a parked row. */
  predicate SettledBy(before: Task, after: Task, answer: Answer, fits: string -> bool) {
    && OnlyStatus(before, after)
    && match answer
       case Error(retryable) => after.status == Failed && after.retryable == retryable
       case Text(text) => if fits(text) then after.status == Completed else after.status == Failed && !after.retryable
  }

  /** The document's summary was written, from this batch, in this poll. */
  ghost predicate WrittenSince(l: Ledger, after: Ledger, task: nat, batch: nat)
    requires task in l.rows
  {
    exists i :: |l.log| <= i < |after.log| && after.log[i] == Applied(task, l.rows[task].doc, batch)
  }

  /** Something was written for the task in this poll. */
  ghost predicate LoggedSince(l: Ledger, after: Ledger, task: nat) {
    exists i :: |l.log| <= i < |after.log| && after.log[i].task == task
  }

  /** A task that is not parked here, or not answered, is as it was. */
  ghost predicate LeftAlone(l: Ledger, after: Ledger, task: nat) {
    task in l.rows && task in after.rows && after.rows[task] == l.rows[task] && !LoggedSince(l, after, task)
  }

  /** A parked task is settled by its answer, and completed exactly when its summary was
      written. */
  ghost predicate SettledRow(l: Ledger, after: Ledger, task: nat, answer: Answer, batch: nat, fits: string -> bool) {
    && task in l.rows && task in after.rows
    && SettledBy(l.rows[task], after.rows[task], answer, fits)
    && (after.rows[task].status == Completed <==> WrittenSince(l, after, task, batch))
  }

  ghost predicate Settlement(l: Ledger, after: Ledger, parked: set<nat>, results: seq<BatchResult>, batch: nat, fits: string -> bool, task: nat) {
    && (task !in parked || Unanswered(results, task) ==> LeftAlone(l, after, task))
    && (task in parked ==> forall answer :: Answered(results, task, answer) ==> SettledRow(l, after, task, answer, batch, fits))
  }

  // ----- one result at a time -------------------------------------------------------------------

  lemma {:induction false} ApplyGrows(l: Ledger, parked: set<nat>, results: seq<BatchResult>, batch: nat, fits: string -> bool)
    requires parked <= l.rows.Keys
    ensures var after := ApplyAll(l, parked, results, batch, fits);
            after.rows.Keys == l.rows.Keys && l.log <= after.log
    decreases |results|
  {
    if results != [] {
      var task := TaskIdFrom(results[0].customId);
      var next := if task.Some? && task.value in parked then Settle(l, task.value, results[0].answer, batch, fits) else l;
      ApplyGrows(next, parked, results[1..], batch, fits);
    }
  }

  lemma RestAnswers(results: seq<BatchResult>, task: nat)
    requires results != []
    ensures Unanswered(results, task) <==> !Names(results[0], task) && Unanswered(results[1..], task)
    ensures !Names(results[0], task) ==> forall answer :: Answered(results, task, answer) <==> Answered(results[1..], task, answer)
    ensures Names(results[0], task) && Unanswered(results[1..], task) ==>
              forall answer :: Answered(results, task, answer) <==> answer == results[0].answer
  {
    var rest := results[1..];
    assert forall i :: 0 < i < |results| ==> rest[i - 1] == results[i];
    forall answer | Answered(rest, task, answer) ensures Answered(results, task, answer) {
      var i :| 0 <= i < |rest| && Names(rest[i], task) && rest[i].answer == answer;
      assert results[i + 1] == rest[i];
    }
    if Unanswered(results, task) {
      assert Unanswered(rest, task) by {
        assert forall i :: 0 <= i < |rest| ==> rest[i] == results[i + 1];
      }
    }
  }

  /** The first result settles its own task, and no later one names that task. */
  lemma FirstSettles(l: Ledger, next: Ledger, after: Ledger, task: nat, answer: Answer, batch: nat, fits: string -> bool)
    requires task in l.rows && l.rows[task].status == Batched
    requires next == Settle(l, task, answer, batch, fits) && LeftAlone(next, after, task) && next.log <= after.log
    ensures SettledRow(l, after, task, answer, batch, fits)
  {
    var entry := Applied(task, l.rows[task].doc, batch);
    if answer.Text? && fits(answer.text) {
      assert after.log[|l.log|] == next.log[|l.log|] == entry;
    }
  }

  /** It leaves the others to the rest. */
  lemma OthersWait(l: Ledger, next: Ledger, after: Ledger, first: nat, task: nat, answer: Answer, batch: nat, fits: string -> bool)
    requires first in l.rows && first != task && next == Settle(l, first, answer, batch, fits) && next.log <= after.log
    ensures LeftAlone(next, after, task) ==> LeftAlone(l, after, task)
    ensures forall a :: SettledRow(next, after, task, a, batch, fits) ==> SettledRow(l, after, task, a, batch, fits)
  {
    assert forall i :: |l.log| <= i < |next.log| ==> next.log[i].task == first;
    assert forall i :: 0 <= i < |next.log| ==> after.log[i] == next.log[i];
  }

  lemma {:induction false} EachSettled(l: Ledger, parked: set<nat>, results: seq<BatchResult>, batch: nat, fits: string -> bool, task: nat)
    requires parked <= l.rows.Keys && task in l.rows && OnceEach(results)
    requires task in parked && !Unanswered(results, task) ==> l.rows[task].status == Batched
    ensures Settlement(l, ApplyAll(l, parked, results, batch, fits), parked, results, batch, fits, task)
    decreases |results|
  {
    if results != [] {
      var first, answer := TaskIdFrom(results[0].customId), results[0].answer;
      var next := if first.Some? && first.value in parked then Settle(l, first.value, answer, batch, fits) else l;
      var after := ApplyAll(next, parked, results[1..], batch, fits);
      RestAnswers(results, task);
      RestOnce(results, task);
      EachSettled(next, parked, results[1..], batch, fits, task);
      ApplyGrows(next, parked, results[1..], batch, fits);
      if next != l {
        if first == Some(task) {
          FirstSettles(l, next, after, task, answer, batch, fits);
        } else {
          OthersWait(l, next, after, first.value, task, answer, batch, fits);
        }
      }
    }
  }

  lemma RestOnce(results: seq<BatchResult>, task: nat)
    requires results != [] && OnceEach(results)
    ensures OnceEach(results[1..]) && (Names(results[0], task) ==> Unanswered(results[1..], task))
  {
    assert forall i :: 0 <= i < |results[1..]| ==> results[1..][i] == results[i + 1];
  }

  // ----- one poll ---------------------------------------------------------------------------------

  /** What a poll of each kind makes of a task: nothing while the batch is working; a
      retryable failure of each parked task of a dead one; and of a ready one what the
      answers say. */
  ghost predicate PollSettles(l: Ledger, after: Ledger, batch: nat, status: BatchStatus, results: seq<BatchResult>, fits: string -> bool, task: nat)
    requires task in l.rows
  {
    var parked := ParkedUnder(l.rows, batch);
    match status
    case Working => LeftAlone(l, after, task)
    case Dead =>
      if task in parked then
        && task in after.rows && OnlyStatus(l.rows[task], after.rows[task])
        && after.rows[task].status == Failed && after.rows[task].retryable && !LoggedSince(l, after, task)
      else LeftAlone(l, after, task)
    case Ready => Settlement(l, after, parked, results, batch, fits, task)
  }

  /** Every poll of a provider that answers each request at most once settles every task so. */
  lemma PollSettlesEach(l: Ledger, batch: nat, status: BatchStatus, results: seq<BatchResult>, fits: string -> bool, task: nat)
    requires OnceEach(results) && task in l.rows
    ensures PollSettles(l, Polled(l, batch, status, results, fits), batch, status, results, fits, task)
  {
    if status.Ready? { EachSettled(l, ParkedUnder(l.rows, batch), results, batch, fits, task); }
  }

  /** A parked task that is completed by a poll had its summary written by it. */
  lemma CompletedIsWritten(l: Ledger, batch: nat, status: BatchStatus, results: seq<BatchResult>, fits: string -> bool, task: nat)
    requires OnceEach(results) && task in l.rows && l.rows[task].status == Batched
    requires var after := Polled(l, batch, status, results, fits); task in after.rows && after.rows[task].status == Completed
    ensures task in ParkedUnder(l.rows, batch)
    ensures WrittenSince(l, Polled(l, batch, status, results, fits), task, batch)
  {
    PollSettlesEach(l, batch, status, results, fits, task);
    if !Unanswered(results, task) {
      var i :| 0 <= i < |results| && Names(results[i], task);
      assert Answered(results, task, results[i].answer);
    }
  }

  // ----- every run ----------------------------------------------------------------------------------

  lemma {:induction false} StepLogGrows(tree: Tree, s: State, e: Event)
    requires Enabled(tree, s, e)
    ensures s.ledger.log <= Step(tree, s, e).ledger.log
  {
    if e.Poll? && e.status.Ready? {
      ApplyGrows(s.ledger, ParkedUnder(s.ledger.rows, e.batch), e.results, e.batch, e.fits);
    }
  }

  lemma {:induction false} RunLogGrows(tree: Tree, s: State, events: seq<Event>, t: State)
    requires Run(tree, s, events, t)
    ensures s.ledger.log <= t.ledger.log
    decreases |events|
  {
    if |events| > 0 {
      StepLogGrows(tree, s, events[0]);
      RunLogGrows(tree, Step(tree, s, events[0]), events[1..], t);
    }
  }

  /** No summary is lost: wherever in a run a poll completes a task that was parked, the
      task's document has its summary from that batch in the log, then and ever after. */
  lemma {:induction false} NoSummaryLost(tree: Tree, s: State, e: Event, later: seq<Event>, t: State, task: nat)
    requires Enabled(tree, s, e) && e.Poll? && Run(tree, Step(tree, s, e), later, t)
    requires task in s.ledger.rows && s.ledger.rows[task].status == Batched
    requires var after := Step(tree, s, e).ledger; task in after.rows && after.rows[task].status == Completed
    ensures Applied(task, s.ledger.rows[task].doc, e.batch) in t.ledger.log
  {
    var after := Step(tree, s, e).ledger;
    CompletedIsWritten(s.ledger, e.batch, e.status, e.results, e.fits, task);
    RunLogGrows(tree, Step(tree, s, e), later, t);
    var i :| |s.ledger.log| <= i < |after.log| && after.log[i] == Applied(task, s.ledger.rows[task].doc, e.batch);
    assert t.ledger.log[i] == after.log[i];
  }
}
