/**
 What each transaction of internal/job does, row by row and answer by answer: for every input, which requests are refused
 and with what, which rows change, what they become, and that nothing else does.
 */
module Outcomes {
  import opened States
  import opened Rows
  import opened Protocol
  import opened Invariant
  import opened Preservation
  import opened Sweep
  import opened Steps
  import opened Progression
  import opened Leases
  import opened Creation
  import opened Deadlock

  /** The worker is the attempt's own, and the attempt has not ended. */
  ghost predicate Current(db: DB, a: AttemptId, w: WorkerId) {
    && a in db.attempts && db.attempts[a].worker == w
    && (db.attempts[a].state == AttemptLeased || db.attempts[a].state == AttemptRunning)
  }

  /** ... and its task has not been cancelled. */
  ghost predicate Wanted(db: DB, a: AttemptId, w: WorkerId) {
    Current(db, a, w) && db.attempts[a].task in db.tasks && db.tasks[db.attempts[a].task].state != TaskCancelled
  }

  lemma CurrentHolds(db: DB, a: AttemptId, w: WorkerId)
    requires Inv(db)
    ensures Holds(db, a, w) <==> Current(db, a, w)
    ensures Current(db, a, w) ==> db.attempts[a].task in db.tasks && db.tasks[db.attempts[a].task].job in db.jobs
  {
    if Current(db, a, w) { LiveAttempt(db, a); }
  }

  /** No row of another job changes, and of its own job nothing but the state. */
  ghost predicate OnlyJob(db: DB, db': DB, j: JobId) {
    && db'.now == db.now && db'.jobs.Keys == db.jobs.Keys
    && (forall i | i in db.jobs :: db'.jobs[i] == db.jobs[i].(state := db'.jobs[i].state))
    && (forall i | i in db.jobs && i != j :: db'.jobs[i] == db.jobs[i])
  }

  // ---- Start ----

  lemma StartOutcome(db: DB, a: AttemptId, w: WorkerId, ttl: nat)
    requires Inv(db)
    ensures var tx := Start(db, a, w, ttl);
            && (!Current(db, a, w) ==> tx == Rollback(ErrStaleAttempt))
            && (Current(db, a, w) && !Wanted(db, a, w) ==>
                tx == Commit(db.(attempts := db.attempts[a := db.attempts[a].(state := AttemptCancelled)]), ()))
            && (Wanted(db, a, w) && db.attempts[a].state == AttemptRunning ==> tx == Rollback(ErrIllegalTransition))
            && (Wanted(db, a, w) && db.attempts[a].state == AttemptLeased ==>
                var t := db.attempts[a].task;
                tx == Commit(db.(attempts := db.attempts[a := db.attempts[a].(state := AttemptRunning, leaseExpiresAt := db.now + ttl)],
                                 tasks := db.tasks[t := db.tasks[t].(state := TaskRunning)]), ()))
  {
    CurrentHolds(db, a, w);
    if Current(db, a, w) { LiveAttempt(db, a); }
  }

  // ---- Progress ----

  /** The answer tells a worker that its task was cancelled; then, and only then, its lease is not renewed. */
  lemma ProgressOutcome(db: DB, a: AttemptId, w: WorkerId, pct: real, ttl: nat)
    requires Inv(db)
    ensures var tx := Progress(db, a, w, pct, ttl);
            && (!Current(db, a, w) ==> tx == Rollback(ErrStaleAttempt))
            && (Current(db, a, w) && !Wanted(db, a, w) ==> tx == Commit(db, true))
            && (Wanted(db, a, w) ==>
                tx == Commit(db.(attempts := db.attempts[a := db.attempts[a].(progressPct := Some(pct), leaseExpiresAt := db.now + ttl)]), false))
  {
    CurrentHolds(db, a, w);
  }

  // ---- AuthorizeAttempt ----

  lemma AuthorizeOutcome(db: DB, a: AttemptId, w: WorkerId)
    requires Inv(db)
    ensures AuthorizeAttempt(db, a, w) ==
            if Wanted(db, a, w) then Commit(db, db.tasks[db.attempts[a].task].job) else Rollback(ErrStaleAttempt)
  {
    CurrentHolds(db, a, w);
  }

  // ---- Complete ----

  /** Who is refused: a stale worker, and a success reported before Start. */
  lemma CompleteRefusals(db: DB, a: AttemptId, w: WorkerId, report: Report)
    requires Inv(db)
    ensures var tx := Complete(db, a, w, report);
            && (!Current(db, a, w) <==> tx == Rollback(ErrStaleAttempt))
            && (Wanted(db, a, w) && report.success && db.attempts[a].state == AttemptLeased <==> tx == Rollback(ErrIllegalTransition))
            && (tx.Rollback? ==> tx.error == ErrStaleAttempt || tx.error == ErrIllegalTransition)
  {
    CurrentHolds(db, a, w);
    if Current(db, a, w) { LiveAttempt(db, a); }
  }

  /** A report on a cancelled task ends its attempt and is answered as no success and no retry. */
  lemma CancelledOutcome(db: DB, a: AttemptId, w: WorkerId, report: Report)
    requires Inv(db) && Current(db, a, w) && !Wanted(db, a, w)
    ensures db.attempts[a].task in db.tasks && db.tasks[db.attempts[a].task].job in db.jobs
    ensures var task := db.tasks[db.attempts[a].task];
            Complete(db, a, w, report) ==
            Commit(db.(attempts := db.attempts[a := db.attempts[a].(state := AttemptCancelled)]),
                   Completion(task.operation, db.attempts[a].task, task.job, false, false, db.jobs[task.job].state))
  {
    CurrentHolds(db, a, w);
  }

  /** The failures that may pass if the work is tried again; a class nobody knows is given the benefit of the doubt. */
  ghost predicate MayPass(c: FailureClass) {
    match c
    case ClassTransient => true
    case ClassResource => true
    case ClassInfrastructure => true
    case ClassUnknown => true
    case ClassOther(_) => true
    case ClassPermanentInput => false
    case ClassPermanentConfig => false
  }

  /**
   The retry policy: a failed attempt's task is queued again exactly if the failure may pass and budget is left, and has
   failed otherwise; the answer says which.
   */
  lemma FailureOutcome(db: DB, a: AttemptId, w: WorkerId, report: Report)
    requires Inv(db) && Wanted(db, a, w) && !report.success
    ensures var t, tx := db.attempts[a].task, Complete(db, a, w, report);
            var task := db.tasks[t];
            var again := MayPass(report.failureClass) && task.attemptCount < task.maxAttempts;
            && tx.Commit?
            && tx.db.tasks == db.tasks[t := if again then task.(state := TaskQueued, queuedAt := db.now) else task.(state := TaskFailed)]
            && tx.db.attempts == db.attempts[a := db.attempts[a].(state := AttemptFailed, progressPct := None)]
            && OnlyJob(db, tx.db, task.job)
            && task.job in tx.db.jobs
            && tx.value == Completion(task.operation, t, task.job, false, again, tx.db.jobs[task.job].state)
            && (!again ==> tx.value.jobState == JobFailed)
  {
    CurrentHolds(db, a, w);
    LiveAttempt(db, a);
    CompleteKeeps(db, a, w, report);
    var t, tx := db.attempts[a].task, Complete(db, a, w, report);
    DerivedMeaning(tx.db.tasks, db.tasks[t].job);
  }

  /** After a success each task that waited for it is queued if that was the last it waited for; the rest stay put. */
  ghost predicate Releases(tasks: map<TaskId, Task>, tasks': map<TaskId, Task>, t: TaskId, now: int) {
    && t in tasks && tasks'.Keys == tasks.Keys
    && tasks'[t] == tasks[t].(state := TaskSucceeded)
    && (forall u | u in tasks && u != t ::
          var ready := tasks[u].job == tasks[t].job && tasks[u].state == TaskPending && t in tasks[u].dependsOn
                       && forall d | d in tasks[u].dependsOn && d in tasks && d != t :: tasks[d].state == TaskSucceeded;
          tasks'[u] == if ready then tasks[u].(state := TaskQueued, queuedAt := now) else tasks[u])
  }

  lemma SuccessOutcome(db: DB, a: AttemptId, w: WorkerId, report: Report)
    requires Inv(db) && Wanted(db, a, w) && report.success && db.attempts[a].state == AttemptRunning
    ensures var t, tx := db.attempts[a].task, Complete(db, a, w, report);
            && tx.Commit?
            && Releases(db.tasks, tx.db.tasks, t, db.now)
            && tx.db.attempts == db.attempts[a := db.attempts[a].(state := AttemptSucceeded, progressPct := Some(100.0))]
            && OnlyJob(db, tx.db, db.tasks[t].job)
            && db.tasks[t].job in tx.db.jobs
            && tx.value == Completion(db.tasks[t].operation, t, db.tasks[t].job, true, false, tx.db.jobs[db.tasks[t].job].state)
            && (tx.value.jobState == JobSucceeded <==> AllSucceeded(tx.db.tasks, db.tasks[t].job))
  {
    CurrentHolds(db, a, w);
    LiveAttempt(db, a);
    var t, tx := db.attempts[a].task, Complete(db, a, w, report);
    var j := db.tasks[t].job;
    DerivedMeaning(tx.db.tasks, j);
    SuccessReleases(db, t, a);
  }

  lemma SuccessReleases(db: DB, t: TaskId, a: AttemptId)
    requires t in db.tasks && a in db.attempts && db.tasks[t].state == TaskRunning
    ensures var moved := SetTask(EndAttempt(db, a, AttemptSucceeded), t, TaskSucceeded).tasks;
            Releases(db.tasks, ReleaseDependents(moved, db.tasks[t].job, t, db.now), t, db.now)
  {
    var moved := SetTask(EndAttempt(db, a, AttemptSucceeded), t, TaskSucceeded).tasks;
    assert t in moved && moved[t].state == TaskSucceeded;
    forall u | u in db.tasks && u != t
      ensures DependenciesMet(moved, db.tasks[u].dependsOn) <==>
              forall d | d in db.tasks[u].dependsOn && d in db.tasks && d != t :: db.tasks[d].state == TaskSucceeded
    {
      forall d | d in db.tasks && d != t ensures moved[d] == db.tasks[d] {}
    }
  }

  // ---- Cancel ----

  /** Whether the job is the tenant's, and whether it has ended. */
  ghost predicate Owns(db: DB, tenant: TenantId, j: JobId) {
    j in db.jobs && db.jobs[j].tenant == tenant
  }

  ghost predicate Ended(db: DB, j: JobId)
    requires j in db.jobs
  {
    db.jobs[j].state == JobSucceeded || db.jobs[j].state == JobFailed || db.jobs[j].state == JobCancelled
  }

  /** The job and what is left of it are cancelled; what has succeeded, and every other job, is left alone. */
  ghost predicate Cancelled(db: DB, db': DB, j: JobId)
    requires j in db.jobs
  {
    && db'.attempts == db.attempts && db'.now == db.now
    && db'.jobs == db.jobs[j := db.jobs[j].(state := JobCancelled)]
    && db'.tasks.Keys == db.tasks.Keys
    && (forall t | t in db.tasks ::
          db'.tasks[t] == if db.tasks[t].job == j && db.tasks[t].state != TaskSucceeded
                          then db.tasks[t].(state := TaskCancelled) else db.tasks[t])
  }

  /** Cancel cancels: every unfinished job of the caller's, and no other. */
  lemma CancelOutcome(db: DB, tenant: TenantId, j: JobId)
    requires Inv(db)
    ensures var tx := Cancel(db, tenant, j);
            && (!Owns(db, tenant, j) ==> tx == Rollback(ErrNotFound))
            && (Owns(db, tenant, j) && Ended(db, j) ==> tx == Commit(db, ()))
            && (Owns(db, tenant, j) && !Ended(db, j) ==> tx.Commit? && Cancelled(db, tx.db, j))
  {
    if Owns(db, tenant, j) && !Ended(db, j) {
      assert JobOk(db.jobs, db.tasks, j);
      DerivedMeaning(db.tasks, j);
    }
  }

  /** ... and from then on it stays cancelled: the same tasks, none of them leased again, no deadline moved. */
  lemma CancelStops(r: Run, i: nat, k: nat, j: JobId)
    requires FromEmpty(r) && i < k < |r.states| && r.events[i].Stop? && r.events[i].job == j
    requires Owns(r.states[i], r.events[i].tenant, j) && !Ended(r.states[i], j)
    ensures var x, y := r.states[i], r.states[k];
            && j in y.jobs && y.jobs[j].state == JobCancelled
            && (forall t | t in y.tasks && y.tasks[t].job == j ::
                  t in x.tasks && y.tasks[t] == if x.tasks[t].state == TaskSucceeded then x.tasks[t] else x.tasks[t].(state := TaskCancelled))
            && (forall a | a in y.attempts && y.attempts[a].task in y.tasks && y.tasks[y.attempts[a].task].job == j ::
                  a in x.attempts && y.attempts[a].leaseExpiresAt == x.attempts[a].leaseExpiresAt)
  {
    ReachableInv(r, i);
    assert StepOf(r, i);
    CancelOutcome(r.states[i], r.events[i].tenant, j);
    CancelIsFinal(r, i + 1, k, j);
    RunAdvances(r, i + 1, k);
    assert JobAdvances(r.states[i + 1], r.states[k], j);
  }

  // ---- Lease ----

  /** A lease of a queued task: one new attempt, numbered next, due one time-to-live from now. */
  lemma LeaseOutcome(db: DB, t: TaskId, a: AttemptId, w: WorkerId, ttl: nat)
    requires Inv(db) && t in db.tasks && db.tasks[t].state == TaskQueued
    ensures var n := db.tasks[t].attemptCount + 1;
            var tx := LeaseWrites(db, t, n, a, w, ttl);
            && (a in db.attempts ==> tx == Rollback(ErrUniqueViolation))
            && (a !in db.attempts ==>
                && tx.Commit? && tx.value == a
                && tx.db.tasks == db.tasks[t := db.tasks[t].(state := TaskLeased, attemptCount := n)]
                && tx.db.attempts == db.attempts[a := Attempt(t, n, w, AttemptLeased, db.now + ttl, None)]
                && OnlyJob(db, tx.db, db.tasks[t].job)
                && db.tasks[t].job in tx.db.jobs && tx.db.jobs[db.tasks[t].job].state ==
                   if Has(db.tasks, db.tasks[t].job, TaskFailed) then JobFailed else JobRunning)
  {
    if a !in db.attempts {
      LeaseKeeps(db, t, a, w, ttl);
      var db' := LeaseWrites(db, t, db.tasks[t].attemptCount + 1, a, w, ttl).db;
      LeasedJobRuns(db, db', t);
    }
  }

  lemma LeasedJobRuns(db: DB, db': DB, t: TaskId)
    requires Inv(db) && Inv(db') && t in db.tasks && db.tasks[t].state == TaskQueued
    requires db'.tasks == db.tasks[t := db.tasks[t].(state := TaskLeased, attemptCount := db.tasks[t].attemptCount + 1)]
    requires db'.jobs.Keys == db.jobs.Keys
    ensures var j := db.tasks[t].job;
            j in db'.jobs && db'.jobs[j].state == if Has(db.tasks, j, TaskFailed) then JobFailed else JobRunning
  {
    var j := db.tasks[t].job;
    assert TaskOk(db, t);
    assert JobOk(db'.jobs, db'.tasks, j);
    DerivedMeaning(db'.tasks, j);
    assert t in db'.tasks && db'.tasks[t].job == j && db'.tasks[t].state == TaskLeased;
    if f :| f in db.tasks && db.tasks[f].job == j && db.tasks[f].state == TaskFailed {
      assert f in db'.tasks && db'.tasks[f] == db.tasks[f];
    }
    if c :| c in db'.tasks && db'.tasks[c].job == j && db'.tasks[c].state == TaskCancelled {
      assert CancelOk(db'.tasks, c, t);
    }
  }

  // ---- the sweep ----

  /** What becomes of an attempt past its deadline, and of its task. */
  ghost predicate Reclaimed(db: DB, db': DB, a: AttemptId, requeued: bool)
    requires a in db.attempts
  {
    var t := db.attempts[a].task;
    && a in db'.attempts && db'.attempts[a] == db.attempts[a].(state := AttemptExpired)
    && t in db.tasks && t in db'.tasks
    && (requeued <==> db.tasks[t].state != TaskCancelled && db.tasks[t].attemptCount < db.tasks[t].maxAttempts)
    && db'.tasks[t] ==
       (if db.tasks[t].state == TaskCancelled then db.tasks[t]
        else if requeued then db.tasks[t].(state := TaskQueued, queuedAt := db.now)
        else db.tasks[t].(state := TaskFailed))
  }

  ghost predicate InBatch(db: DB, batch: seq<AttemptId>, t: TaskId) {
    exists i :: 0 <= i < |batch| && batch[i] in db.attempts && db.attempts[batch[i]].task == t
  }

  /** Nothing but the batch's attempts and their tasks changes. */
  ghost predicate OnlyBatch(db: DB, db': DB, batch: seq<AttemptId>) {
    && db'.now == db.now && db'.tasks.Keys == db.tasks.Keys && db'.attempts.Keys == db.attempts.Keys
    && db'.jobs.Keys == db.jobs.Keys
    && (forall t | t in db.tasks && !InBatch(db, batch, t) :: db'.tasks[t] == db.tasks[t])
    && (forall a | a in db.attempts && a !in batch :: db'.attempts[a] == db.attempts[a])
  }

  /** One turn of the loop. */
  lemma ReclaimOutcome(db: DB, a: AttemptId)
    requires Inv(db) && Expired(db, a)
    ensures var tx := ReclaimRow(db, ReadRow(db, a));
            tx.Commit? && Reclaimed(db, tx.db, a, tx.value) && OnlyBatch(db, tx.db, [a])
  {
    LiveAttempt(db, a);
    var t := db.attempts[a].task;
    assert TaskOk(db, t);
    assert InBatch(db, [a], t) by { assert [a][0] == a; }
  }

  /** What the query may return: any attempt that has not ended and is past its deadline. */
  lemma OverdueMayBeSwept(db: DB, a: AttemptId)
    requires Inv(db)
    ensures Batch(db, 1, [a]) <==>
            && a in db.attempts && (db.attempts[a].state == AttemptLeased || db.attempts[a].state == AttemptRunning)
            && db.attempts[a].leaseExpiresAt < db.now
  {
    assert [a][0] == a;
    if a in db.attempts { assert AttemptOk(db, a); }
  }

  /** What the answers say about the i-th lease of the batch. */
  ghost predicate Answered(db: DB, db': DB, batch: seq<AttemptId>, answers: seq<bool>, i: nat)
    requires i < |batch| == |answers|
  {
    batch[i] in db.attempts && Reclaimed(db, db', batch[i], answers[i])
  }

  ghost predicate AllAnswered(db: DB, db': DB, batch: seq<AttemptId>, answers: seq<bool>) {
    && |batch| == |answers|
    && forall i: nat {:trigger Answered(db, db', batch, answers, i)} | i < |batch| :: Answered(db, db', batch, answers, i)
  }

  /**
   The sweep: every lease of the batch is expired; its task is queued again while budget is left and has failed otherwise,
   unless it was cancelled; the answers say which were queued again; and nothing else changes.
   */
  lemma {:induction false} SweepOutcome(db: DB, limit: nat, batch: seq<AttemptId>)
    requires Inv(db) && Batch(db, limit, batch)
    ensures var tx := ExpireLeases(db, batch);
            tx.Commit? && AllAnswered(db, tx.db, batch, tx.value) && OnlyBatch(db, tx.db, batch)
    decreases |batch|
  {
    BatchIsSequential(db, limit, batch);
    if batch != [] {
      var a, rest := batch[0], batch[1..];
      var one := ReclaimRow(db, ReadRow(db, a));
      ReclaimOutcome(db, a);
      ReclaimKeeps(db, a);
      RestOfBatch(db, limit, batch);
      SweepOutcome(one.db, limit, rest);
      var more := ExpireLeases(one.db, rest);
      BatchRows(db, limit, batch);
      forall i: nat | 1 <= i < |batch| ensures Apart(db, one.db, batch, i) {
        assert batch[i] != batch[0] && db.attempts[batch[0]].task != db.attempts[batch[i]].task;
      }
      SweepComposes(db, one.db, more.db, batch, one.value, more.value);
      OnlyBatches(db, one.db, more.db, batch);
    }
  }

  /** A later lease of a batch is another task's, and its attempt is as it was. */
  ghost predicate Apart(db: DB, db1: DB, batch: seq<AttemptId>, i: nat)
    requires 1 <= i < |batch|
  {
    && batch[0] in db.attempts && batch[i] in db.attempts && batch[i] in db1.attempts
    && db1.attempts[batch[i]] == db.attempts[batch[i]]
    && batch[i] != batch[0] && db.attempts[batch[i]].task != db.attempts[batch[0]].task
  }

  ghost predicate AllApart(db: DB, db1: DB, batch: seq<AttemptId>) {
    && batch != [] && batch[0] in db.attempts
    && forall i: nat {:trigger Apart(db, db1, batch, i)} | 1 <= i < |batch| :: Apart(db, db1, batch, i)
  }

  lemma SweepComposes(db: DB, db1: DB, db2: DB, batch: seq<AttemptId>, first: bool, more: seq<bool>)
    requires AllApart(db, db1, batch) && Reclaimed(db, db1, batch[0], first) && OnlyBatch(db, db1, [batch[0]])
    requires AllAnswered(db1, db2, batch[1..], more) && OnlyBatch(db1, db2, batch[1..])
    ensures AllAnswered(db, db2, batch, [first] + more)
  {
    forall i: nat | i < |batch| ensures Answered(db, db2, batch, [first] + more, i) {
      if i == 0 {
        FirstStays(db, db1, db2, batch, first);
      } else {
        assert Answered(db1, db2, batch[1..], more, i - 1);
        assert batch[1..][i - 1] == batch[i] && ([first] + more)[i] == more[i - 1];
        LaterReclaimed(db, db1, db2, batch, i, more[i - 1]);
      }
    }
  }

  lemma RestOutside(db: DB, db1: DB, batch: seq<AttemptId>, t: TaskId)
    requires AllApart(db, db1, batch)
    requires t == db.attempts[batch[0]].task || !InBatch(db, batch, t)
    ensures !InBatch(db1, batch[1..], t)
  {
    forall i: nat | i < |batch| - 1 ensures !(batch[1..][i] in db1.attempts && db1.attempts[batch[1..][i]].task == t) {
      assert batch[1..][i] == batch[i + 1] && Apart(db, db1, batch, i + 1);
    }
  }

  lemma FirstStays(db: DB, db1: DB, db2: DB, batch: seq<AttemptId>, first: bool)
    requires AllApart(db, db1, batch) && Reclaimed(db, db1, batch[0], first) && OnlyBatch(db1, db2, batch[1..])
    ensures Reclaimed(db, db2, batch[0], first)
  {
    RestOutside(db, db1, batch, db.attempts[batch[0]].task);
    forall i: nat | i < |batch| - 1 ensures batch[1..][i] != batch[0] {
      assert batch[1..][i] == batch[i + 1] && Apart(db, db1, batch, i + 1);
    }
  }

  lemma LaterReclaimed(db: DB, db1: DB, db2: DB, batch: seq<AttemptId>, i: nat, requeued: bool)
    requires AllApart(db, db1, batch) && 1 <= i < |batch| && batch[i] in db1.attempts
    requires OnlyBatch(db, db1, [batch[0]]) && Reclaimed(db1, db2, batch[i], requeued)
    ensures batch[i] in db.attempts && Reclaimed(db, db2, batch[i], requeued)
  {
    assert Apart(db, db1, batch, i);
    assert !InBatch(db, [batch[0]], db.attempts[batch[i]].task);
  }

  lemma OnlyBatches(db: DB, db1: DB, db2: DB, batch: seq<AttemptId>)
    requires AllApart(db, db1, batch) && OnlyBatch(db, db1, [batch[0]]) && OnlyBatch(db1, db2, batch[1..])
    ensures OnlyBatch(db, db2, batch)
  {
    forall t | t in db.tasks && !InBatch(db, batch, t) ensures db2.tasks[t] == db.tasks[t] {
      RestOutside(db, db1, batch, t);
      assert db.attempts[batch[0]].task != t;
      assert !InBatch(db, [batch[0]], t);
    }
    forall a | a in db.attempts && a !in batch ensures db2.attempts[a] == db.attempts[a] {
      assert a !in [batch[0]] && a !in batch[1..];
    }
  }

  // ---- Create ----

  /** The operations a task may have. */
  lemma OperationsAre(operation: string)
    ensures KnownOperation(operation) <==>
            || operation == "probe" || operation == "plan" || operation == "encode" || operation == "package"
            || operation == "protect" || operation == "thumbnail" || operation == "subtitle" || operation == "audio"
            || operation == "transcribe" || operation == "clip" || operation == "watermark" || operation == "validate"
  {
  }

  /** A dependency that no spec of the list provides. */
  ghost predicate Dangling(specs: seq<NewTask>) {
    exists i, d :: 0 <= i < |specs| && d in specs[i].dependsOn && forall k | 0 <= k < |specs| :: specs[k].key != d
  }

  lemma CreateRefusals(db: DB, tenant: TenantId, key: Option<string>, priority: int,
                       specs: seq<NewTask>, j: JobId, uuids: seq<TaskId>)
    requires |specs| == |uuids|
    ensures var tx := Create(db, tenant, key, priority, specs, j, uuids);
            && (specs == [] <==> tx == Rollback(ErrNoTasks))
            && (specs != [] && Dangling(specs) <==> tx == Rollback(ErrBadDepend))
  {
    KeyIdsDomain(specs, uuids);
    var ids := KeyIds(specs, uuids);
    if Dangling(specs) {
      var i, d :| 0 <= i < |specs| && d in specs[i].dependsOn && forall k | 0 <= k < |specs| :: specs[k].key != d;
      assert d !in ids;
    }
    if !DependenciesKnown(specs, ids) {
      var i, d :| 0 <= i < |specs| && d in specs[i].dependsOn && d !in ids;
      assert forall k | 0 <= k < |specs| :: specs[k].key != d;
    }
  }

  /** What an accepted submission makes of its i-th spec. */
  ghost predicate Made(row: Task, spec: NewTask, deps: seq<TaskId>, j: JobId, tenant: TenantId, priority: int, now: int) {
    && row.job == j && row.tenant == tenant && row.operation == spec.operation && row.requirements == spec.requirements
    && row.priority == (if spec.priority > 0 then spec.priority else priority)
    && row.attemptCount == 0 && row.maxAttempts == (if spec.maxAttempts > 0 then spec.maxAttempts else 3)
    && row.dependsOn == deps && row.queuedAt == now
    && row.state == (if |spec.dependsOn| == 0 then TaskQueued else TaskPending)
  }

  /** A spec of this name was given this identifier. */
  ghost predicate Provides(specs: seq<NewTask>, uuids: seq<TaskId>, name: string, t: TaskId)
    requires |specs| == |uuids|
  {
    exists k :: 0 <= k < |specs| && specs[k].key == name && uuids[k] == t
  }

  /** `deps` are the identifiers of the specs that `names` names, in the same order. */
  ghost predicate Translates(specs: seq<NewTask>, uuids: seq<TaskId>, names: seq<string>, deps: seq<TaskId>)
    requires |specs| == |uuids|
  {
    && |deps| == |names|
    && forall n | 0 <= n < |names| :: Provides(specs, uuids, names[n], deps[n])
  }

  ghost predicate MadeFrom(tasks: map<TaskId, Task>, specs: seq<NewTask>, uuids: seq<TaskId>, i: nat,
                           j: JobId, tenant: TenantId, priority: int, now: int)
    requires i < |specs| == |uuids|
  {
    && uuids[i] in tasks
    && var row := tasks[uuids[i]];
    && Made(row, specs[i], row.dependsOn, j, tenant, priority, now)
    && Translates(specs, uuids, specs[i].dependsOn, row.dependsOn)
  }

  /** An accepted submission that is no repeat: one pending job, and one row for each spec under the identifier drawn for it. */
  lemma CreateOutcome(db: DB, tenant: TenantId, key: Option<string>, priority: int,
                      specs: seq<NewTask>, j: JobId, uuids: seq<TaskId>)
    requires |specs| == |uuids| && Create(db, tenant, key, priority, specs, j, uuids).After(db) != db
    ensures var tx := Create(db, tenant, key, priority, specs, j, uuids);
            && tx.Commit? && tx.value == j && tx.db.attempts == db.attempts && tx.db.now == db.now
            && tx.db.jobs == db.jobs[j := Job(tenant, key, priority, JobPending)] && j !in db.jobs
            && (forall t :: t in tx.db.tasks <==> t in db.tasks || t in uuids)
            && (forall t | t in db.tasks :: t !in uuids && tx.db.tasks[t] == db.tasks[t])
            && (forall i: nat | i < |specs| :: MadeFrom(tx.db.tasks, specs, uuids, i, j, tenant, priority, db.now))
  {
    var db' := Create(db, tenant, key, priority, specs, j, uuids).db;
    CreatesJob(db, tenant, key, priority, specs, j, uuids);
    assert Inserted(db, db', specs, KeyIds(specs, uuids), j, tenant, priority) by {
      CreateInserts(db, tenant, key, priority, specs, j, uuids);
    }
    KeysAreDistinct(db, tenant, key, priority, specs, j, uuids);
    KeyIdsGive(specs, uuids);
    TasksMade(db, db', specs, KeyIds(specs, uuids), j, tenant, priority, uuids);
  }

  lemma CreatesJob(db: DB, tenant: TenantId, key: Option<string>, priority: int,
                   specs: seq<NewTask>, j: JobId, uuids: seq<TaskId>)
    requires |specs| == |uuids| && Create(db, tenant, key, priority, specs, j, uuids).After(db) != db
    ensures var tx := Create(db, tenant, key, priority, specs, j, uuids);
            && tx.Commit? && tx.value == j && tx.db.attempts == db.attempts && tx.db.now == db.now && j !in db.jobs
            && tx.db.jobs == db.jobs[j := Job(tenant, key, priority, JobPending)]
            && DependenciesKnown(specs, KeyIds(specs, uuids))
            && (forall t | t in db.tasks :: t in tx.db.tasks && tx.db.tasks[t] == db.tasks[t])
  {
    CreateInserts(db, tenant, key, priority, specs, j, uuids);
  }

  /** `ids` gives every spec's key the identifier drawn for it. */
  ghost predicate Gives(ids: map<string, TaskId>, specs: seq<NewTask>, uuids: seq<TaskId>)
    requires |specs| == |uuids|
  {
    && (forall i | 0 <= i < |specs| :: specs[i].key in ids && ids[specs[i].key] == uuids[i])
    && (forall name | name in ids :: Provides(specs, uuids, name, ids[name]))
  }

  lemma KeyIdsGive(specs: seq<NewTask>, uuids: seq<TaskId>)
    requires |specs| == |uuids| && DistinctKeys(specs)
    ensures Gives(KeyIds(specs, uuids), specs, uuids)
  {
    KeyIdsDomain(specs, uuids);
    forall i: nat | i < |specs| ensures specs[i].key in KeyIds(specs, uuids) && KeyIds(specs, uuids)[specs[i].key] == uuids[i] {
      DistinctKeyIds(specs, uuids, i);
    }
  }

  lemma TasksMade(db: DB, db': DB, specs: seq<NewTask>, ids: map<string, TaskId>, j: JobId, tenant: TenantId, priority: int,
                  uuids: seq<TaskId>)
    requires |specs| == |uuids| && Gives(ids, specs, uuids) && DependenciesKnown(specs, ids)
    requires Inserted(db, db', specs, ids, j, tenant, priority)
    ensures forall t :: t in db'.tasks <==> t in db.tasks || t in uuids
    ensures forall t | t in uuids :: t !in db.tasks
    ensures forall i: nat | i < |specs| :: MadeFrom(db'.tasks, specs, uuids, i, j, tenant, priority, db.now)
  {
    forall i: nat | i < |specs|
      ensures uuids[i] !in db.tasks && MadeFrom(db'.tasks, specs, uuids, i, j, tenant, priority, db.now)
    {
      assert IsNewRow(uuids[i], db'.tasks[uuids[i]], specs, i, ids, j, tenant, priority, db.now);
      NewRowMade(specs, ids, uuids, i, j, tenant, priority, db.now);
    }
    forall t | t in db'.tasks && t !in db.tasks ensures t in uuids {
      assert AmongNewRows(t, db'.tasks[t], specs, ids, j, tenant, priority, db.now);
      var i: nat :| IsNewRow(t, db'.tasks[t], specs, i, ids, j, tenant, priority, db.now);
      assert uuids[i] == t;
    }
  }

  lemma NewRowMade(specs: seq<NewTask>, ids: map<string, TaskId>, uuids: seq<TaskId>, i: nat,
                   j: JobId, tenant: TenantId, priority: int, now: int)
    requires i < |specs| == |uuids| && Gives(ids, specs, uuids) && DependenciesKnown(specs, ids)
    ensures var row := NewRow(specs[i], ids, j, tenant, priority, now);
            Made(row, specs[i], row.dependsOn, j, tenant, priority, now)
            && Translates(specs, uuids, specs[i].dependsOn, row.dependsOn)
  {
    var names := specs[i].dependsOn;
    forall n | 0 <= n < |names| ensures names[n] in ids && Provides(specs, uuids, names[n], ids[names[n]]) {
      assert names[n] in names;
    }
  }

  lemma KeysAreDistinct(db: DB, tenant: TenantId, key: Option<string>, priority: int,
                        specs: seq<NewTask>, j: JobId, uuids: seq<TaskId>)
    requires |specs| == |uuids| && Create(db, tenant, key, priority, specs, j, uuids).After(db) != db
    ensures DistinctKeys(specs)
  {
    KeyIdsDomain(specs, uuids);
    if !DistinctKeys(specs) {
      var i, k :| 0 <= i < k < |specs| && specs[i].key == specs[k].key;
      RepeatedKeyAborts(db.tasks, specs, KeyIds(specs, uuids), j, tenant, priority, db.now, i, k);
    }
  }
}
