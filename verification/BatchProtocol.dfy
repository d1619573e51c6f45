// What one poll of one batch makes of the tasks parked under it.
module BatchProtocol {
  import opened Text
  import opened Queue
  import opened BatchProvider

  /** A summary written onto a document, with the task and the batch it came from. */
  datatype Applied = Applied(task: nat, doc: nat, batch: nat)

  datatype Ledger = Ledger(rows: Rows, log: seq<Applied>)

  /** Settle one parked task by its result. A text that does not fit the window is refused
      for good. */
  function Settle(l: Ledger, task: nat, answer: Answer, batch: nat, fits: string -> bool): Ledger
    requires task in l.rows
  {
    match answer
    case Error(retryable) => l.(rows := l.rows[task := FailedTask(l.rows[task], retryable)])
    case Text(text) =>
      if fits(text) then
        Ledger(l.rows[task := CompletedTask(l.rows[task])],
               l.log + [Applied(task, l.rows[task].doc, batch)])
      else l.(rows := l.rows[task := FailedTask(l.rows[task], false)])
  }

  /** Only results that name a task parked here are applied. */
  function ApplyAll(l: Ledger, parked: set<nat>, results: seq<BatchResult>, batch: nat, fits: string -> bool): Ledger
    requires parked <= l.rows.Keys
    decreases |results|
  {
    if results == [] then l
    else
      var task := TaskIdFrom(results[0].customId);
      var next := if task.Some? && task.value in parked then Settle(l, task.value, results[0].answer, batch, fits) else l;
      ApplyAll(next, parked, results[1..], batch, fits)
  }

  function ParkedUnder(rows: Rows, batch: nat): set<nat> {
    set id | id in rows && rows[id].status == Batched && rows[id].batch == Some(batch)
  }

  function FailAll(rows: Rows, ids: set<nat>): Rows {
    map id | id in rows :: if id in ids then FailedTask(rows[id], true) else rows[id]
  }

  /** What a poll makes of what the provider reports. */
  function Polled(l: Ledger, batch: nat, status: BatchStatus, results: seq<BatchResult>, fits: string -> bool): Ledger {
    var parked := ParkedUnder(l.rows, batch);
    match status
    case Working => l
    case Dead => l.(rows := FailAll(l.rows, parked))
    case Ready => ApplyAll(l, parked, results, batch, fits)
  }

  /** The result names a task parked under the batch. */
  predicate Matches(parked: set<nat>, r: BatchResult) {
    var task := TaskIdFrom(r.customId);
    task.Some? && task.value in parked
  }

  /** How many of the results name a parked task. */
  function MatchCount(parked: set<nat>, results: seq<BatchResult>): nat {
    if results == [] then 0
    else
      var k := |results| - 1;
      MatchCount(parked, results[..k]) + if Matches(parked, results[k]) then 1 else 0
  }

  /** One poll under the batch's lock, in one transaction. Returns how many tasks it settled. */
  method PollBatch(l: Ledger, batch: nat, locked: bool, status: BatchStatus, results: seq<BatchResult>, fits: string -> bool)
    returns (after: Ledger, delivered: nat)
    ensures after == if locked then Polled(l, batch, status, results, fits) else l
    ensures delivered == if !locked || status.Working? then 0
                         else if status.Dead? then |ParkedUnder(l.rows, batch)|
                         else MatchCount(ParkedUnder(l.rows, batch), results)
  {
    after, delivered := l, 0;
    if !locked { return; }
    var parked := ParkedUnder(l.rows, batch);
    if parked == {} {
      NothingParked(l, results, batch, fits);
      NothingMatches(results);
      assert FailAll(l.rows, {}) == l.rows;
      return;
    }
    if status.Dead? {
      after := l.(rows := FailAll(l.rows, parked));
      delivered := |parked|;
    } else if status.Ready? {
      for k := 0 to |results|
        invariant parked <= after.rows.Keys && delivered == MatchCount(parked, results[..k])
        invariant ApplyAll(after, parked, results[k..], batch, fits) == ApplyAll(l, parked, results, batch, fits)
      {
        assert results[k..][1..] == results[k + 1..] && results[..k + 1][..k] == results[..k];
        var task := TaskIdFrom(results[k].customId);
        if task.Some? && task.value in parked {
          after := Settle(after, task.value, results[k].answer, batch, fits);
          delivered := delivered + 1;
        }
      }
      assert results[..|results|] == results;
    }
  }

  lemma {:induction false} NothingMatches(results: seq<BatchResult>)
    ensures MatchCount({}, results) == 0
  {
    if results != [] { NothingMatches(results[..|results| - 1]); }
  }

  lemma {:induction false} NothingParked(l: Ledger, results: seq<BatchResult>, batch: nat, fits: string -> bool)
    ensures ApplyAll(l, {}, results, batch, fits) == l
  {
    if results != [] { NothingParked(l, results[1..], batch, fits); }
  }
}
