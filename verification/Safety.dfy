/**
 The promises of the lease protocol, for every state of every run.
 */
module Safety {
  import opened States
  import opened Rows
  import opened Protocol
  import opened Sweep
  import opened Invariant
  import opened Preservation
  import opened Creation
  import opened Steps
  import opened Progression

  // ---- one live attempt at most ----

  ghost function LiveOf(db: DB, t: TaskId): set<AttemptId> {
    set a | a in db.attempts && db.attempts[a].task == t && db.attempts[a].state.IsLive()
  }

  /** The attempt numbered attempt_count. */
  ghost predicate IsLatest(db: DB, t: TaskId, a: AttemptId) {
    && t in db.tasks && a in db.attempts
    && db.attempts[a].task == t && db.attempts[a].number == db.tasks[t].attemptCount
  }

  lemma LiveIsLatest(db: DB, t: TaskId, a: AttemptId)
    requires Inv(db) && t in db.tasks && a in LiveOf(db, t)
    ensures IsLatest(db, t, a) && db.tasks[t].state in {TaskLeased, TaskRunning, TaskCancelled}
  {
    LiveAttempt(db, a);
  }

  lemma LatestExists(db: DB, t: TaskId) returns (a: AttemptId)
    requires Inv(db) && t in db.tasks && db.tasks[t].attemptCount >= 1
    ensures IsLatest(db, t, a) && Coupled(db.tasks[t].state, db.attempts[a].state)
  {
    assert TaskOk(db, t);
    assert NumberTaken(db.attempts, t, db.tasks[t].attemptCount);
    a :| a in db.attempts && db.attempts[a].task == t && db.attempts[a].number == db.tasks[t].attemptCount;
    assert AttemptOk(db, a);
  }

  lemma LatestUnique(db: DB, t: TaskId, a: AttemptId, b: AttemptId)
    requires Inv(db) && IsLatest(db, t, a) && IsLatest(db, t, b)
    ensures a == b
  {
    assert SameNumber(db.attempts, a, b);
  }

  /** Task and attempt states are coupled in every reachable state, so no task ever has two live attempts. */
  lemma StatesCoupled(r: Run, i: nat, t: TaskId)
    requires FromEmpty(r) && i < |r.states| && t in r.states[i].tasks
    ensures var db := r.states[i];
            match db.tasks[t].state
            case TaskLeased => exists a :: LiveOf(db, t) == {a} && IsLatest(db, t, a) && db.attempts[a].state == AttemptLeased
            case TaskRunning => exists a :: LiveOf(db, t) == {a} && IsLatest(db, t, a) && db.attempts[a].state == AttemptRunning
            case TaskCancelled => |LiveOf(db, t)| <= 1
            case _ => LiveOf(db, t) == {}
  {
    ReachableInv(r, i);
    var db := r.states[i];
    assert TaskOk(db, t);
    forall a | a in LiveOf(db, t) ensures IsLatest(db, t, a) && db.tasks[t].state in {TaskLeased, TaskRunning, TaskCancelled} {
      LiveIsLatest(db, t, a);
    }
    if db.tasks[t].state == TaskLeased || db.tasks[t].state == TaskRunning {
      var a := LatestExists(db, t);
      forall b | b in LiveOf(db, t) ensures b == a { LatestUnique(db, t, a, b); }
      assert LiveOf(db, t) == {a};
    } else if a :| a in LiveOf(db, t) {
      forall b | b in LiveOf(db, t) ensures b == a { LatestUnique(db, t, a, b); }
      assert LiveOf(db, t) == {a};
    }
  }

  // ---- retry budget and numbering ----

  /**
   Lease never looks at max_attempts, yet the count never passes it, a queued task always has budget left,
   and the attempt rows of a task are numbered exactly 1..attempt_count.
   */
  lemma BudgetHolds(r: Run, i: nat, t: TaskId)
    requires FromEmpty(r) && i < |r.states| && t in r.states[i].tasks
    ensures var db := r.states[i];
            && db.tasks[t].attemptCount <= db.tasks[t].maxAttempts
            && (db.tasks[t].state == TaskQueued ==> db.tasks[t].attemptCount < db.tasks[t].maxAttempts)
            && (forall n: nat :: NumberTaken(db.attempts, t, n) <==> 1 <= n <= db.tasks[t].attemptCount)
  {
    ReachableInv(r, i);
    var db := r.states[i];
    assert TaskOk(db, t);
    forall n: nat | NumberTaken(db.attempts, t, n) ensures 1 <= n <= db.tasks[t].attemptCount {
      var a :| a in db.attempts && db.attempts[a].task == t && db.attempts[a].number == n;
      assert AttemptOk(db, a);
    }
  }

  // ---- work starts exactly when its dependencies are done ----

  /** Outside cancelled jobs, a task is pending exactly while some dependency has not succeeded. */
  lemma PendingExactlyWhileBlocked(r: Run, i: nat, t: TaskId)
    requires FromEmpty(r) && i < |r.states| && t in r.states[i].tasks
    requires r.states[i].tasks[t].state != TaskCancelled
    ensures var tasks := r.states[i].tasks;
            tasks[t].state == TaskPending <==>
            exists d :: d in tasks[t].dependsOn && d in tasks && tasks[d].state != TaskSucceeded
  {
    ReachableInv(r, i);
    assert WaitsExactly(r.states[i].tasks, t);
  }

  // ---- one success, and none after it ----

  /** At most one attempt of a task ever succeeds, and a task is succeeded exactly when its latest attempt is. */
  lemma OneSuccess(r: Run, i: nat, t: TaskId)
    requires FromEmpty(r) && i < |r.states| && t in r.states[i].tasks
    ensures var db := r.states[i];
            && (forall a, b | a in db.attempts && b in db.attempts
                  && db.attempts[a].task == t && db.attempts[b].task == t
                  && db.attempts[a].state == AttemptSucceeded && db.attempts[b].state == AttemptSucceeded :: a == b)
            && (db.tasks[t].state == TaskSucceeded <==>
                exists a :: IsLatest(db, t, a) && db.attempts[a].state == AttemptSucceeded)
  {
    ReachableInv(r, i);
    var db := r.states[i];
    assert TaskOk(db, t);
    forall a | a in db.attempts && db.attempts[a].task == t && db.attempts[a].state == AttemptSucceeded
      ensures IsLatest(db, t, a) && db.tasks[t].state == TaskSucceeded
    {
      assert AttemptOk(db, a);
    }
    forall a, b | a in db.attempts && b in db.attempts
                  && db.attempts[a].task == t && db.attempts[b].task == t
                  && db.attempts[a].state == AttemptSucceeded && db.attempts[b].state == AttemptSucceeded
      ensures a == b
    {
      LatestUnique(db, t, a, b);
    }
    if db.tasks[t].state == TaskSucceeded {
      var a := LatestExists(db, t);
    }
  }

  /** Ended, or overtaken by a later attempt of the same task. */
  ghost predicate Fenced(db: DB, a: AttemptId) {
    && a in db.attempts && db.attempts[a].task in db.tasks
    && (db.attempts[a].state.IsTerminal() || db.attempts[a].number < db.tasks[db.attempts[a].task].attemptCount)
  }

  ghost predicate ReportsOn(e: Event, a: AttemptId) {
    (e.Started? || e.Heartbeat? || e.Finished?) && e.attempt == a
  }

  /** Once an attempt is fenced it stays fenced, and no report that names it changes anything, ever. */
  lemma StaleReportsIgnored(r: Run, i: nat, k: nat, a: AttemptId)
    requires FromEmpty(r) && i <= k < |r.events| && Fenced(r.states[i], a)
    ensures Fenced(r.states[k], a)
    ensures ReportsOn(r.events[k], a) ==> r.states[k + 1] == r.states[k]
    ensures forall w :: AuthorizeAttempt(r.states[k], a, w) == Rollback(ErrStaleAttempt)
  {
    ReachableInv(r, i);
    ReachableInv(r, k);
    RunAdvances(r, i, k);
    assert AttemptOk(r.states[i], a);
    assert AttemptAdvances(r.states[i], r.states[k], a);
    assert AttemptOk(r.states[k], a);
    assert r.states[k].attempts[a].state.IsTerminal();
    assert StepOf(r, k);
  }

  // ---- job states ----

  /** A stored job state is always what its tasks imply, in the terms a reader would use. */
  lemma JobStateIsDerived(r: Run, i: nat, j: JobId)
    requires FromEmpty(r) && i < |r.states| && j in r.states[i].jobs
    ensures var db := r.states[i];
            && db.jobs[j].state == DerivedJobState(db.tasks, j)
            && (db.jobs[j].state == JobFailed <==> Has(db.tasks, j, TaskFailed))
            && (db.jobs[j].state == JobCancelled <==> Has(db.tasks, j, TaskCancelled))
            && (db.jobs[j].state == JobSucceeded <==> AllSucceeded(db.tasks, j))
            && TasksOf(db.tasks, j) != {}
  {
    ReachableInv(r, i);
    var db := r.states[i];
    assert JobOk(db.jobs, db.tasks, j);
    DerivedMeaning(db.tasks, j);
    var t :| t in db.tasks && db.tasks[t].job == j;
    assert t in TasksOf(db.tasks, j);
    if c :| c in db.tasks && db.tasks[c].job == j && db.tasks[c].state == TaskCancelled {
      forall u | u in db.tasks && db.tasks[u].job == j ensures db.tasks[u].state != TaskFailed {
        assert CancelOk(db.tasks, c, u);
      }
    }
  }

  /** Succeeded, failed and cancelled are absorbing for jobs, and finished tasks never change again. */
  lemma FinishedStaysFinished(r: Run, i: nat, k: nat)
    requires FromEmpty(r) && i <= k < |r.states|
    ensures var x, y := r.states[i], r.states[k];
            && (forall j | j in x.jobs && x.jobs[j].state.IsTerminal() :: j in y.jobs && y.jobs[j].state == x.jobs[j].state)
            && (forall t | t in x.tasks && x.tasks[t].state.IsTerminal() :: t in y.tasks && y.tasks[t] == x.tasks[t])
            && (forall a | a in x.attempts && x.attempts[a].state.IsTerminal() :: a in y.attempts && y.attempts[a] == x.attempts[a])
  {
    RunAdvances(r, i, k);
    var x, y := r.states[i], r.states[k];
    forall j | j in x.jobs && x.jobs[j].state.IsTerminal() ensures j in y.jobs && y.jobs[j].state == x.jobs[j].state {
      assert JobAdvances(x, y, j);
    }
    forall t | t in x.tasks && x.tasks[t].state.IsTerminal() ensures t in y.tasks && y.tasks[t] == x.tasks[t] {
      assert TaskAdvances(x, y, t);
    }
    forall a | a in x.attempts && x.attempts[a].state.IsTerminal() ensures a in y.attempts && y.attempts[a] == x.attempts[a] {
      assert AttemptAdvances(x, y, a);
    }
  }

  // ---- every change of state is in the tables ----

  ghost predicate TaskMoveLegal(db: DB, db': DB, t: TaskId)
    requires t in db.tasks
  {
    t in db'.tasks &&
    (db'.tasks[t].state == db.tasks[t].state ||
     (CanTransitionTask(db.tasks[t].state, db'.tasks[t].state) && db.tasks[t].state != TaskFailed))
  }

  ghost predicate AttemptMoveLegal(db: DB, db': DB, a: AttemptId)
    requires a in db.attempts
  {
    a in db'.attempts &&
    (db'.attempts[a].state == db.attempts[a].state ||
     CanTransitionAttempt(db.attempts[a].state, db'.attempts[a].state))
  }

  ghost predicate LegalStep(db: DB, db': DB) {
    && (forall t {:trigger TaskMoveLegal(db, db', t)} | t in db.tasks :: TaskMoveLegal(db, db', t))
    && (forall a {:trigger AttemptMoveLegal(db, db', a)} | a in db.attempts :: AttemptMoveLegal(db, db', a))
  }

  lemma OneTaskLegal(db: DB, db': DB, t: TaskId, a: AttemptId)
    requires OneTask(db, db', t, a)
    ensures LegalStep(db, db')
  {
    forall u | u in db.tasks ensures TaskMoveLegal(db, db', u) {}
    forall b | b in db.attempts ensures AttemptMoveLegal(db, db', b) {}
  }

  /** What a sweep may touch: the batch's attempts, and their tasks. */
  ghost predicate SweepTouches(db: DB, db': DB, batch: seq<AttemptId>) {
    && LegalStep(db, db')
    && (forall t | t in db.tasks && t in db'.tasks && db'.tasks[t] != db.tasks[t] ::
          exists i :: 0 <= i < |batch| && batch[i] in db.attempts && db.attempts[batch[i]].task == t)
    && (forall a | a in db.attempts && a in db'.attempts && db'.attempts[a] != db.attempts[a] :: a in batch)
  }

  lemma {:induction false} SweepLegal(db: DB, limit: nat, batch: seq<AttemptId>)
    requires Inv(db) && Batch(db, limit, batch)
    ensures SweepTouches(db, ReclaimEach(db, batch), batch)
    decreases |batch|
  {
    if batch == [] {
      forall u | u in db.tasks ensures TaskMoveLegal(db, db, u) {}
      forall b | b in db.attempts ensures AttemptMoveLegal(db, db, b) {}
    } else {
      var a, rest := batch[0], batch[1..];
      var t := db.attempts[a].task;
      var db1 := ReclaimRow(db, ReadRow(db, a)).After(db);
      ReclaimKeeps(db, a);
      ReclaimIsOneTask(db, a);
      ReclaimLeavesTasks(db, a);
      BatchRows(db, limit, batch);
      forall i | 0 <= i < |rest|
        ensures Expired(db1, rest[i]) && db1.attempts[rest[i]] == db.attempts[rest[i]] && db.attempts[rest[i]].task != t
      {
        assert rest[i] == batch[i + 1];
        ReclaimLeavesOthers(db, a, rest[i]);
      }
      SweepLegal(db1, limit, rest);
      SweepCompose(db, db1, ReclaimEach(db1, rest), batch);
    }
  }

  lemma ReclaimLeavesTasks(db: DB, a: AttemptId)
    requires Expired(db, a)
    ensures var db' := ReclaimRow(db, ReadRow(db, a)).After(db);
            forall u | u in db.tasks && u != db.attempts[a].task :: u in db'.tasks && db'.tasks[u] == db.tasks[u]
  {
  }

  lemma SweepCompose(db: DB, db1: DB, db2: DB, batch: seq<AttemptId>)
    requires batch != [] && batch[0] in db.attempts
    requires var t := db.attempts[batch[0]].task;
             && OneTask(db, db1, t, batch[0]) && SweepTouches(db1, db2, batch[1..])
             && (forall u | u in db.tasks && u != t :: db1.tasks[u] == db.tasks[u])
    requires forall i | 1 <= i < |batch| ::
               && batch[i] in db.attempts && batch[i] in db1.attempts && db1.attempts[batch[i]] == db.attempts[batch[i]]
               && db.attempts[batch[i]].task != db.attempts[batch[0]].task && batch[i] != batch[0]
    ensures SweepTouches(db, db2, batch)
  {
    var a, rest := batch[0], batch[1..];
    var t := db.attempts[a].task;
    OneTaskLegal(db, db1, t, a);
    forall u | u in db.tasks
      ensures TaskMoveLegal(db, db2, u)
      ensures db2.tasks[u] != db.tasks[u] ==>
                exists i :: 0 <= i < |batch| && batch[i] in db.attempts && db.attempts[batch[i]].task == u
    {
      assert TaskMoveLegal(db, db1, u) && TaskMoveLegal(db1, db2, u);
      if db2.tasks[u] != db1.tasks[u] {
        var i :| 0 <= i < |rest| && rest[i] in db1.attempts && db1.attempts[rest[i]].task == u;
        assert batch[i + 1] == rest[i];
      }
    }
    forall b | b in db.attempts ensures AttemptMoveLegal(db, db2, b) && (db2.attempts[b] != db.attempts[b] ==> b in batch) {
      assert AttemptMoveLegal(db, db1, b) && AttemptMoveLegal(db1, db2, b);
      assert b in rest ==> b in batch;
      if db2.attempts[b] != db1.attempts[b] {
        var i :| 0 <= i < |rest| && rest[i] == b;
        assert batch[i + 1] == b;
      }
    }
  }

  lemma AssignIsLegal(db: DB, db': DB, t: TaskId, a: AttemptId, w: WorkerId, ttl: nat)
    requires t in db.tasks && db.tasks[t].state == TaskQueued
    requires LeaseWrites(db, t, db.tasks[t].attemptCount + 1, a, w, ttl) == Commit(db', a)
    ensures LegalStep(db, db')
  {
    assert OneTask(db, db', t, a) by {
      AssignIsOneTask(db, t, a, w, ttl);
    }
    OneTaskLegal(db, db', t, a);
  }

  lemma StartIsLegal(db: DB, db': DB, a: AttemptId, w: WorkerId, ttl: nat)
    requires Inv(db) && Start(db, a, w, ttl) == Commit(db', ())
    ensures LegalStep(db, db')
  {
    assert OneTask(db, db', db.attempts[a].task, a) by {
      StartIsOneTask(db, a, w, ttl);
    }
    OneTaskLegal(db, db', db.attempts[a].task, a);
  }

  lemma ProgressIsLegal(db: DB, db': DB, a: AttemptId, w: WorkerId, pct: real, ttl: nat)
    requires Inv(db) && Holds(db, a, w) && Progress(db, a, w, pct, ttl).After(db) == db'
    ensures LegalStep(db, db')
  {
    assert OneTask(db, db', db.attempts[a].task, a) by {
      ProgressIsOneTask(db, a, w, pct, ttl);
    }
    OneTaskLegal(db, db', db.attempts[a].task, a);
  }

  lemma CompleteIsLegal(db: DB, db': DB, a: AttemptId, w: WorkerId, report: Report)
    requires Inv(db) && Holds(db, a, w) && Complete(db, a, w, report).Commit? && Complete(db, a, w, report).db == db'
    ensures LegalStep(db, db')
  {
    assert OneTask(db, db', db.attempts[a].task, a) by {
      CompleteIsOneTask(db, a, w, report);
    }
    OneTaskLegal(db, db', db.attempts[a].task, a);
  }

  lemma SubmitIsLegal(db: DB, e: Event)
    requires e.Submit? && Enabled(db, e) && Apply(db, e) != db
    ensures LegalStep(db, Apply(db, e))
  {
    var db' := Apply(db, e);
    CreateInserts(db, e.tenant, e.key, e.priority, e.specs, e.newJob, e.uuids);
    forall u | u in db.tasks ensures TaskMoveLegal(db, db', u) {}
    forall b | b in db.attempts ensures AttemptMoveLegal(db, db', b) {}
  }

  /**
   Every step moves tasks and attempts only along the legal tables, although Cancel and Lease move tasks, and the sweep
   and the closing of cancelled attempts end attempts, without consulting them; and a failed task is never requeued.
   */
  lemma StepIsLegal(db: DB, e: Event)
    requires Inv(db) && Enabled(db, e)
    ensures LegalStep(db, Apply(db, e))
  {
    var db' := Apply(db, e);
    if db' == db || e.Tick? || e.Stop? {
      forall u | u in db.tasks ensures TaskMoveLegal(db, db', u) {}
      forall b | b in db.attempts ensures AttemptMoveLegal(db, db', b) {}
    } else {
      match e
      case Submit(_, _, _, _, _, _) =>
        SubmitIsLegal(db, e);
      case Swept(limit, batch) =>
        BatchIsSequential(db, limit, batch);
        SweepLegal(db, limit, batch);
      case Assign(w, t, a, ttl) => AssignIsLegal(db, db', t, a, w.id, ttl);
      case Started(a, w, ttl) => StartIsLegal(db, db', a, w, ttl);
      case Heartbeat(a, w, pct, ttl) => ProgressIsLegal(db, db', a, w, pct, ttl);
      case Finished(a, w, report) => CompleteIsLegal(db, db', a, w, report);
      case _ =>
    }
  }
}
