// The task queue: claims under write-mode conflicts, failure, completion, and parking a set
// of claims against an external batch.
module Queue {
  import opened Text

  datatype Status = Pending | Claimed | Running | Batched | Completed | Failed

  datatype Mode = SelfMode | ChildrenMode | SubtreeMode

  /** One task. `batch` stays on the row after the batch is over, as the record of it. */
  datatype Task = Task(
    doc: nat,
    mode: Mode,
    summarizes: bool,
    status: Status,
    holder: nat,
    batch: Option<nat>,
    retryable: bool,
    retries: nat,
    maxRetries: nat)

  type Rows = map<nat, Task>

  /** The strict ancestors of each document. */
  type Tree = map<nat, set<nat>>

  predicate IsAncestor(tree: Tree, above: nat, below: nat) {
    below in tree && above in tree[below]
  }

  // ----- who may hold what at once ----------------------------------------------------------

  predicate Active(t: Task) {
    t.status == Claimed || t.status == Running || t.status == Batched
  }

  predicate Reapable(t: Task) {
    t.status == Claimed || t.status == Running
  }

  /** The conflict table: one `self` or `children` writer per node, and a `subtree` writer
      excludes everything scoped at or inside its node. */
  predicate Conflict(tree: Tree, a: Task, t: Task) {
    || (a.mode == t.mode && a.mode != SubtreeMode && a.doc == t.doc)
    || (a.mode == SubtreeMode && (a.doc == t.doc || IsAncestor(tree, a.doc, t.doc)))
    || (t.mode == SubtreeMode && (a.doc == t.doc || IsAncestor(tree, t.doc, a.doc)))
  }

  lemma ConflictSymmetric(tree: Tree, a: Task, b: Task)
    ensures Conflict(tree, a, b) <==> Conflict(tree, b, a)
  {
  }

  /** Pending, or failed with retries left; and nothing active in its way. */
  predicate Claimable(rows: Rows, tree: Tree, id: nat) {
    && id in rows
    && (rows[id].status == Pending
        || (rows[id].status == Failed && rows[id].retryable && rows[id].retries < rows[id].maxRetries))
    && forall a :: a in rows && a != id && Active(rows[a]) ==> !Conflict(tree, rows[a], rows[id])
  }

  function ClaimedBy(t: Task, worker: nat): Task {
    t.(status := Claimed, holder := worker, retries := t.retries + if t.status == Failed then 1 else 0)
  }

  function FailedTask(t: Task, retryable: bool): Task {
    t.(status := Failed, retryable := retryable)
  }

  function CompletedTask(t: Task): Task {
    t.(status := Completed)
  }

  /** No two tasks that hold a reservation conflict. */
  ghost predicate Exclusive(rows: Rows, tree: Tree) {
    forall a, b :: a in rows && b in rows && a != b && Active(rows[a]) && Active(rows[b]) ==>
      !Conflict(tree, rows[a], rows[b])
  }

  /** Claiming under the conflict test keeps reservations exclusive. */
  lemma ClaimKeepsExclusive(rows: Rows, tree: Tree, id: nat, worker: nat)
    requires Exclusive(rows, tree) && Claimable(rows, tree, id)
    ensures Exclusive(rows[id := ClaimedBy(rows[id], worker)], tree)
  {
    var after := rows[id := ClaimedBy(rows[id], worker)];
    forall a, b | a in after && b in after && a != b && Active(after[a]) && Active(after[b])
      ensures !Conflict(tree, after[a], after[b])
    {
      if a == id {
        ConflictSymmetric(tree, rows[b], rows[id]);
      }
    }
  }

  /** Rows whose scope and mode are as before and of which no more are active stay
      exclusive. */
  lemma FewerActive(rows: Rows, after: Rows, tree: Tree)
    requires Exclusive(rows, tree)
    requires forall id :: id in after ==>
               && id in rows && after[id].doc == rows[id].doc && after[id].mode == rows[id].mode
               && (Active(after[id]) ==> Active(rows[id]))
    ensures Exclusive(after, tree)
  {
  }

  // ----- parking ------------------------------------------------------------------------------

  function ParkedTask(t: Task, batch: nat): Task {
    t.(status := Batched, batch := Some(batch))
  }

  /** Park the tasks that still exist; None when one of them is not held by a worker, in
      which case the transaction writes nothing. */
  function Parked(rows: Rows, ids: seq<nat>, batch: nat): Option<Rows> {
    if ids == [] then Some(rows)
    else if ids[0] !in rows then Parked(rows, ids[1..], batch)
    else if !Reapable(rows[ids[0]]) then None
    else Parked(rows[ids[0] := ParkedTask(rows[ids[0]], batch)], ids[1..], batch)
  }

  method MarkBatched(rows: Rows, ids: seq<nat>, batch: nat) returns (after: Option<Rows>)
    ensures after == Parked(rows, ids, batch)
  {
    var current := rows;
    for k := 0 to |ids|
      invariant Parked(current, ids[k..], batch) == Parked(rows, ids, batch)
    {
      var id := ids[k];
      assert ids[k..][1..] == ids[k + 1..];
      if id in current {
        if !Reapable(current[id]) { return None; }
        current := current[id := ParkedTask(current[id], batch)];
      }
    }
    after := Some(current);
  }

  /** What parking does to each row: those named and still there are parked under this batch
      and were held by a worker; every other row is as it was. */
  lemma {:induction false} ParkedIs(rows: Rows, ids: seq<nat>, batch: nat)
    requires Parked(rows, ids, batch).Some?
    ensures var after := Parked(rows, ids, batch).value;
            && after.Keys == rows.Keys
            && (forall id :: id in rows && id !in ids ==> after[id] == rows[id])
            && (forall id :: id in rows && id in ids ==>
                  Reapable(rows[id]) && after[id] == ParkedTask(rows[id], batch))
    decreases ids
  {
    if ids != [] {
      var id := ids[0];
      if id in rows {
        var once := rows[id := ParkedTask(rows[id], batch)];
        ParkedIs(once, ids[1..], batch);
        assert !Reapable(once[id]);
      } else {
        ParkedIs(rows, ids[1..], batch);
      }
    }
  }

  /** Every named row that is there is held by a worker, and is named once. */
  ghost predicate Parkable(rows: Rows, ids: seq<nat>) {
    && (forall i :: 0 <= i < |ids| && ids[i] in rows ==> Reapable(rows[ids[i]]))
    && forall i, j :: 0 <= i < j < |ids| && ids[i] in rows ==> ids[i] != ids[j]
  }

  /** It succeeds exactly then. */
  lemma {:induction false} ParksExactly(rows: Rows, ids: seq<nat>, batch: nat)
    ensures Parked(rows, ids, batch).Some? <==> Parkable(rows, ids)
    decreases ids
  {
    if ids != [] {
      var id, rest := ids[0], ids[1..];
      assert forall i :: 0 <= i < |rest| ==> rest[i] == ids[i + 1];
      if id !in rows {
        ParksExactly(rows, rest, batch);
        ParkableCons(rows, rows, ids);
      } else if Reapable(rows[id]) {
        var once := rows[id := ParkedTask(rows[id], batch)];
        ParksExactly(once, rest, batch);
        ParkableCons(rows, once, ids);
      }
    }
  }

  /** The rest can be parked after the first, if it can. */
  lemma ParkableCons(rows: Rows, once: Rows, ids: seq<nat>)
    requires ids != []
    requires if ids[0] in rows then Reapable(rows[ids[0]]) && once.Keys == rows.Keys && !Reapable(once[ids[0]])
             else once == rows
    requires forall id :: id in rows && id != ids[0] ==> id in once && once[id] == rows[id]
    ensures Parkable(once, ids[1..]) <==> Parkable(rows, ids)
  {
    var rest := ids[1..];
    assert forall i :: 0 <= i < |rest| ==> rest[i] == ids[i + 1];
    if Parkable(rows, ids) {
      assert forall i :: 0 <= i < |rest| && rest[i] in once ==> rest[i] != ids[0] && Reapable(rows[ids[i + 1]]);
    }
    if Parkable(once, rest) {
      forall i | 0 <= i < |ids| && ids[i] in rows ensures Reapable(rows[ids[i]]) {
        assert i > 0 ==> rest[i - 1] == ids[i];
      }
      forall i, j | 0 <= i < j < |ids| && ids[i] in rows ensures ids[i] != ids[j] {
        assert rest[j - 1] == ids[j] && (i > 0 ==> rest[i - 1] == ids[i]);
      }
    }
  }

  lemma ParkSucceeds(rows: Rows, ids: seq<nat>, batch: nat)
    requires forall i, j :: 0 <= i < j < |ids| ==> ids[i] != ids[j]
    requires forall i :: 0 <= i < |ids| && ids[i] in rows ==> Reapable(rows[ids[i]])
    ensures Parked(rows, ids, batch).Some?
  {
    ParksExactly(rows, ids, batch);
  }
}
