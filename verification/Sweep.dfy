/**
 internal/job/expire.go: one sweep reclaims a batch of leases from rows read before its loop.
 */
module Sweep {
  import opened States
  import opened Rows
  import opened Protocol
  import opened Invariant
  import opened Preservation

  /**
   What the sweep's query may return: live attempts past their deadline, each once, oldest deadline first,
   at most `limit` of them. SKIP LOCKED may leave any of them out.
   */
  ghost predicate Batch(db: DB, limit: nat, batch: seq<AttemptId>) {
    && |batch| <= limit
    && (forall i | 0 <= i < |batch| :: Expired(db, batch[i]))
    && (forall i, k | 0 <= i < k < |batch| :: batch[i] != batch[k])
    && (forall i, k | 0 <= i < k < |batch| ::
          db.attempts[batch[i]].leaseExpiresAt <= db.attempts[batch[k]].leaseExpiresAt)
  }

  function ReadRows(db: DB, batch: seq<AttemptId>): (rows: seq<SweepRow>)
    requires forall i | 0 <= i < |batch| :: Expired(db, batch[i])
  {
    seq(|batch|, i requires 0 <= i < |batch| => ReadRow(db, batch[i]))
  }

  predicate RowsExist(db: DB, rows: seq<SweepRow>) {
    forall i | 0 <= i < |rows| :: rows[i].attempt in db.attempts && rows[i].task in db.tasks
  }

  /** The sweep's loop. An illegal transition anywhere abandons the whole batch. */
  function ReclaimRows(db: DB, rows: seq<SweepRow>): Tx<seq<bool>>
    requires RowsExist(db, rows)
    decreases |rows|
  {
    if rows == [] then Commit(db, [])
    else match ReclaimRow(db, rows[0])
      case Rollback(e) => Rollback(e)
      case Commit(db1, requeued) =>
        match ReclaimRows(db1, rows[1..])
        case Rollback(e) => Rollback(e)
        case Commit(db2, rest) => Commit(db2, [requeued] + rest)
  }

  function ExpireLeases(db: DB, batch: seq<AttemptId>): Tx<seq<bool>>
    requires forall i | 0 <= i < |batch| :: Expired(db, batch[i])
  {
    ReclaimRows(db, ReadRows(db, batch))
  }

  /** The simple form: reclaim the leases one transaction at a time, each looking at the state it finds. */
  function ReclaimEach(db: DB, batch: seq<AttemptId>): DB
    decreases |batch|
  {
    if batch == [] then db
    else if Expired(db, batch[0]) then
      ReclaimEach(ReclaimRow(db, ReadRow(db, batch[0])).After(db), batch[1..])
    else ReclaimEach(db, batch[1..])
  }

  /** No two rows of a batch belong to one task, and none is a finished task other than a cancelled one. */
  lemma BatchRows(db: DB, limit: nat, batch: seq<AttemptId>)
    requires Inv(db) && Batch(db, limit, batch)
    ensures forall i, k | 0 <= i < k < |batch| :: db.attempts[batch[i]].task != db.attempts[batch[k]].task
    ensures forall i | 0 <= i < |batch| ::
              ReadRows(db, batch)[i].taskState in {TaskLeased, TaskRunning, TaskCancelled}
  {
    forall i | 0 <= i < |batch| ensures ReadRows(db, batch)[i].taskState in {TaskLeased, TaskRunning, TaskCancelled} {
      LiveAttempt(db, batch[i]);
    }
    forall i, k | 0 <= i < k < |batch| ensures db.attempts[batch[i]].task != db.attempts[batch[k]].task {
      LiveAttempt(db, batch[i]);
      LiveAttempt(db, batch[k]);
      assert !SameNumber(db.attempts, batch[i], batch[k]);
    }
  }

  /** Reclaiming one lease leaves the rows of every other task in the batch as they were read. */
  lemma ReclaimLeavesOthers(db: DB, a: AttemptId, b: AttemptId)
    requires Expired(db, a) && Expired(db, b) && a != b && db.attempts[a].task != db.attempts[b].task
    ensures var db' := ReclaimRow(db, ReadRow(db, a)).After(db);
            && Expired(db', b) && ReadRow(db', b) == ReadRow(db, b)
            && db'.attempts[b] == db.attempts[b]
            && db'.tasks[db.attempts[b].task] == db.tasks[db.attempts[b].task]
  {
  }

  /** After one turn the rest of the batch is a batch still, of rows as they were read. */
  lemma RestOfBatch(db: DB, limit: nat, batch: seq<AttemptId>)
    requires Inv(db) && Batch(db, limit, batch) && batch != []
    ensures var db1 := ReclaimRow(db, ReadRow(db, batch[0])).After(db);
            && Batch(db1, limit, batch[1..])
            && ReadRows(db, batch)[1..] == ReadRows(db1, batch[1..])
            && (forall i | 1 <= i < |batch| ::
                  && db1.attempts[batch[i]] == db.attempts[batch[i]]
                  && db1.tasks[db.attempts[batch[i]].task] == db.tasks[db.attempts[batch[i]].task])
  {
    var a, rest := batch[0], batch[1..];
    var db1 := ReclaimRow(db, ReadRow(db, a)).After(db);
    BatchRows(db, limit, batch);
    forall i | 1 <= i < |batch|
      ensures Expired(db1, batch[i]) && ReadRow(db1, batch[i]) == ReadRow(db, batch[i])
      ensures db1.attempts[batch[i]] == db.attempts[batch[i]]
      ensures db1.tasks[db.attempts[batch[i]].task] == db.tasks[db.attempts[batch[i]].task]
    {
      ReclaimLeavesOthers(db, a, batch[i]);
    }
    forall i | 0 <= i < |rest| ensures rest[i] == batch[i + 1] {}
  }

  /**
   The batch, deciding everything from rows that are stale by the time they are used, commits and ends exactly
   where reclaiming the same leases one at a time from the current state ends.
   */
  lemma {:induction false} BatchIsSequential(db: DB, limit: nat, batch: seq<AttemptId>)
    requires Inv(db) && Batch(db, limit, batch)
    ensures ExpireLeases(db, batch).Commit?
    ensures ExpireLeases(db, batch).db == ReclaimEach(db, batch)
    ensures Inv(ExpireLeases(db, batch).db)
    decreases |batch|
  {
    if batch != [] {
      ReclaimKeeps(db, batch[0]);
      RestOfBatch(db, limit, batch);
      BatchIsSequential(ReclaimRow(db, ReadRow(db, batch[0])).After(db), limit, batch[1..]);
    }
  }

  lemma {:induction false} SweepAddsNoAttempt(db: DB, batch: seq<AttemptId>)
    ensures ReclaimEach(db, batch).attempts.Keys == db.attempts.Keys
    decreases |batch|
  {
    if batch != [] {
      if Expired(db, batch[0]) {
        SweepAddsNoAttempt(ReclaimRow(db, ReadRow(db, batch[0])).After(db), batch[1..]);
      } else {
        SweepAddsNoAttempt(db, batch[1..]);
      }
    }
  }
}
