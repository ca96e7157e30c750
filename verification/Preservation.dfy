/**
 Every transaction of Protocol keeps Invariant.Inv, whatever the caller passes.
 */
module Preservation {
  import opened States
  import opened Rows
  import opened Protocol
  import opened Invariant

  /** Facts about the task of a live attempt that every report starts from. */
  lemma LiveAttempt(db: DB, a: AttemptId)
    requires Inv(db) && a in db.attempts && db.attempts[a].state.IsLive()
    ensures db.attempts[a].task in db.tasks
    ensures var task := db.tasks[db.attempts[a].task];
            && db.attempts[a].number == task.attemptCount
            && task.job in db.jobs
            && (|| (task.state == TaskLeased && db.attempts[a].state == AttemptLeased)
                || (task.state == TaskRunning && db.attempts[a].state == AttemptRunning)
                || task.state == TaskCancelled)
  {
    assert AttemptOk(db, a);
    assert TaskOk(db, db.attempts[a].task);
  }

  /** A move that ends in reconcileJob keeps the whole invariant, unless it is a success. */
  lemma ReconciledMove(db: DB, mid: DB, t: TaskId, a: AttemptId)
    requires Inv(db) && Move(db, mid, t, a) && mid.jobs == db.jobs
    requires mid.tasks[t].state != TaskSucceeded
    ensures Inv(Reconcile(mid, db.tasks[t].job))
    ensures SameJobRows(db.jobs, Reconcile(mid, db.tasks[t].job).jobs)
  {
    assert TaskOk(db, t);
    var j := db.tasks[t].job;
    assert t in mid.tasks && mid.tasks[t].job == j;
    forall i | i in db.jobs && i != j ensures SameKinds(db.tasks, mid.tasks, i) {}
    ReconcileKeepsJobs(db.jobs, db.tasks, mid, j);
    var db' := Reconcile(mid, j);
    assert Move(db, db', t, a);
    MoveKeepsRows(db, db', t, a);
    MoveKeepsGraph(db, db', t, a);
    MoveKeepsCancel(db, db', t, a);
  }

  /** A move that leaves every task's kind alone needs no reconcile. */
  lemma QuietMove(db: DB, db': DB, t: TaskId, a: AttemptId)
    requires Inv(db) && Move(db, db', t, a) && db'.jobs == db.jobs
    requires Kind(db'.tasks[t].state) == Kind(db.tasks[t].state) && db'.tasks[t].state != TaskSucceeded
    ensures Inv(db')
  {
    MoveKeepsRows(db, db', t, a);
    MoveKeepsGraph(db, db', t, a);
    MoveKeepsCancel(db, db', t, a);
    forall i | i in db.jobs ensures SameKinds(db.tasks, db'.tasks, i) {}
    FrameKeepsJobs(db.jobs, db.tasks, db'.tasks);
  }

  lemma LeaseKeeps(db: DB, t: TaskId, a: AttemptId, w: WorkerId, ttl: nat)
    requires Inv(db) && t in db.tasks && db.tasks[t].state == TaskQueued && a !in db.attempts
    ensures var tx := LeaseWrites(db, t, db.tasks[t].attemptCount + 1, a, w, ttl);
            tx.Commit? && Inv(tx.db)
  {
    var n := db.tasks[t].attemptCount + 1;
    forall b | b in db.attempts ensures !(db.attempts[b].task == t && db.attempts[b].number == n) {
      assert AttemptOk(db, b);
    }
    assert TaskOk(db, t);
    var mid := db.(
      tasks := db.tasks[t := db.tasks[t].(state := TaskLeased, attemptCount := n)],
      attempts := db.attempts[a := Attempt(t, n, w, AttemptLeased, db.now + ttl, None)]);
    assert Move(db, mid, t, a);
    ReconciledMove(db, mid, t, a);
  }

  /** closeAttemptCancelled, wherever it is called from. */
  lemma CloseCancelledKeeps(db: DB, a: AttemptId, to: AttemptState)
    requires Inv(db) && a in db.attempts && db.attempts[a].state.IsLive()
    requires db.attempts[a].task in db.tasks && db.tasks[db.attempts[a].task].state == TaskCancelled
    requires to == AttemptCancelled || to == AttemptExpired
    ensures Inv(SetAttempt(db, a, to))
  {
    LiveAttempt(db, a);
    var db' := SetAttempt(db, a, to);
    var t := db.attempts[a].task;
    assert db'.tasks == db.tasks[t := db'.tasks[t]];
    assert Move(db, db', t, a);
    QuietMove(db, db', t, a);
  }

  lemma StartKeeps(db: DB, a: AttemptId, w: WorkerId, ttl: nat)
    requires Inv(db)
    ensures Inv(Start(db, a, w, ttl).After(db))
  {
    if Holds(db, a, w) {
      LiveAttempt(db, a);
      var t := db.attempts[a].task;
      if db.tasks[t].state == TaskCancelled {
        CloseCancelledKeeps(db, a, AttemptCancelled);
      } else if db.attempts[a].state == AttemptLeased {
        var db' := Start(db, a, w, ttl).After(db);
        assert Move(db, db', t, a);
        QuietMove(db, db', t, a);
      }
    }
  }

  lemma ProgressKeeps(db: DB, a: AttemptId, w: WorkerId, pct: real, ttl: nat)
    requires Inv(db)
    ensures Inv(Progress(db, a, w, pct, ttl).After(db))
  {
    if Holds(db, a, w) {
      LiveAttempt(db, a);
      var t := db.attempts[a].task;
      if db.tasks[t].state != TaskCancelled {
        var db' := Progress(db, a, w, pct, ttl).After(db);
        assert db'.tasks == db.tasks[t := db'.tasks[t]];
        assert Move(db, db', t, a);
        QuietMove(db, db', t, a);
      }
    }
  }

  /** The parts of a successful completion: the move, the release, the reconcile. */
  lemma SuccessKeeps(db: DB, a: AttemptId, w: WorkerId, res: Report)
    requires Inv(db) && Holds(db, a, w) && res.success
    requires db.attempts[a].state == AttemptRunning && db.tasks[db.attempts[a].task].state == TaskRunning
    ensures Inv(Complete(db, a, w, res).After(db))
  {
    LiveAttempt(db, a);
    var t := db.attempts[a].task;
    var j := db.tasks[t].job;
    var mid := SetTask(EndAttempt(db, a, AttemptSucceeded), t, TaskSucceeded);
    var rel := mid.(tasks := ReleaseDependents(mid.tasks, j, t, db.now));
    assert Move(db, mid, t, a);
    MoveKeepsRows(db, mid, t, a);
    MoveKeepsCancel(db, mid, t, a);
    ReleaseKeepsRows(mid, rel, t);
    SuccessKeepsGraph(db, mid, rel, t, a);
    forall u | u in mid.tasks && mid.tasks[u].job == j ensures mid.tasks[u].state != TaskCancelled {
      assert CancelOk(db.tasks, u, t);
    }
    ReleaseKeepsCancel(mid, rel, t);
    assert t in rel.tasks && rel.tasks[t].job == j;
    forall i | i in db.jobs && i != j ensures SameKinds(db.tasks, rel.tasks, i) {}
    ReconcileKeepsJobs(db.jobs, db.tasks, rel, j);
    var final := Reconcile(rel, j);
    JobStateOnly(rel, final);
    assert Complete(db, a, w, res).After(db) == final;
  }

  /** RowsInv reads nothing of a job that reconcileJob can change. */
  lemma JobStateOnly(db: DB, db': DB)
    requires RowsInv(db) && db'.tasks == db.tasks && db'.attempts == db.attempts && SameJobRows(db.jobs, db'.jobs)
    ensures RowsInv(db')
  {
    forall t | t in db'.tasks ensures TaskOk(db', t) { assert TaskOk(db, t); }
    forall a | a in db'.attempts ensures AttemptOk(db', a) { assert AttemptOk(db, a); }
  }

  lemma FailureKeeps(db: DB, a: AttemptId, w: WorkerId, res: Report)
    requires Inv(db) && Holds(db, a, w) && !res.success
    requires db.tasks[db.attempts[a].task].state != TaskCancelled
    ensures Inv(Complete(db, a, w, res).After(db))
  {
    LiveAttempt(db, a);
    var t := db.attempts[a].task;
    var to := if Retries(db.tasks[t], res.failureClass) then TaskQueued else TaskFailed;
    var mid := SetTask(EndAttempt(db, a, AttemptFailed), t, to);
    assert Move(db, mid, t, a);
    ReconciledMove(db, mid, t, a);
  }

  lemma CompleteKeeps(db: DB, a: AttemptId, w: WorkerId, res: Report)
    requires Inv(db)
    ensures Inv(Complete(db, a, w, res).After(db))
  {
    if Holds(db, a, w) {
      LiveAttempt(db, a);
      if db.tasks[db.attempts[a].task].state == TaskCancelled {
        CloseCancelledKeeps(db, a, AttemptCancelled);
      } else if !res.success {
        FailureKeeps(db, a, w, res);
      } else if db.attempts[a].state == AttemptRunning {
        SuccessKeeps(db, a, w, res);
      }
    }
  }

  /** Reclaiming a lease from a row read in the current state: it commits, and keeps the invariant. */
  lemma ReclaimKeeps(db: DB, a: AttemptId)
    requires Inv(db) && Expired(db, a)
    ensures var tx := ReclaimRow(db, ReadRow(db, a)); tx.Commit? && Inv(tx.db)
  {
    LiveAttempt(db, a);
    var t := db.attempts[a].task;
    if db.tasks[t].state == TaskCancelled {
      CloseCancelledKeeps(db, a, AttemptExpired);
    } else {
      var to := if db.tasks[t].attemptCount < db.tasks[t].maxAttempts then TaskQueued else TaskFailed;
      var mid := SetTask(SetAttempt(db, a, AttemptExpired), t, to);
      assert Move(db, mid, t, a);
      ReconciledMove(db, mid, t, a);
    }
  }

  // ---- Cancel ----

  lemma CancelKeeps(db: DB, tenant: TenantId, j: JobId)
    requires Inv(db)
    ensures Inv(Cancel(db, tenant, j).After(db))
  {
    var db' := Cancel(db, tenant, j).After(db);
    if j in db.jobs && db.jobs[j].tenant == tenant && !db.jobs[j].state.IsTerminal() {
      forall t | t in db'.tasks ensures TaskOk(db', t) { assert TaskOk(db, t); }
      forall a | a in db'.attempts ensures AttemptOk(db', a) { assert AttemptOk(db, a); }
      assert JobOk(db.jobs, db.tasks, j);
      DerivedMeaning(db.tasks, j);
      CancelKeepsGraph(db.tasks, j);
      CancelKeepsJobs(db.jobs, db.tasks, j);
    }
  }

  lemma CancelKeepsJobs(jobs: map<JobId, Job>, tasks: map<TaskId, Task>, j: JobId)
    requires JobInv(jobs, tasks) && j in jobs && !jobs[j].state.IsTerminal()
    ensures JobInv(jobs[j := jobs[j].(state := JobCancelled)], CancelTasks(tasks, j))
  {
    var jobs', tasks' := jobs[j := jobs[j].(state := JobCancelled)], CancelTasks(tasks, j);
    assert JobOk(jobs, tasks, j);
    CancelDerives(tasks, j);
    forall i | i in jobs' ensures JobOk(jobs', tasks', i) {
      assert JobOk(jobs, tasks, i);
      if i != j {
        DerivedFrame(tasks, tasks', i);
      }
      var t :| t in tasks && tasks[t].job == i;
      assert t in tasks' && tasks'[t].job == i;
    }
  }

  lemma CancelKeepsGraph(tasks: map<TaskId, Task>, j: JobId)
    requires GraphInv(tasks) && CancelInv(tasks) && !Has(tasks, j, TaskFailed)
    ensures GraphInv(CancelTasks(tasks, j)) && CancelInv(CancelTasks(tasks, j))
  {
    var tasks' := CancelTasks(tasks, j);
    assert forall d | d in tasks :: (tasks'[d].state == TaskSucceeded) == (tasks[d].state == TaskSucceeded);
    forall u, v | u in tasks' && v in tasks' ensures CancelOk(tasks', u, v) {
      assert CancelOk(tasks, u, v);
    }
    forall u | u in tasks' ensures DependenciesInJob(tasks', u) && WaitsExactly(tasks', u) {
      assert WaitsExactly(tasks, u) && DependenciesInJob(tasks, u);
      assert DependenciesMet(tasks', tasks'[u].dependsOn) == DependenciesMet(tasks, tasks[u].dependsOn);
    }
  }

  /** The direct write of 'cancelled' is what reconcileJob would have derived. */
  lemma CancelDerives(tasks: map<TaskId, Task>, j: JobId)
    requires !DerivedJobState(tasks, j).IsTerminal()
    ensures DerivedJobState(CancelTasks(tasks, j), j) == JobCancelled
  {
    var tasks' := CancelTasks(tasks, j);
    DerivedMeaning(tasks, j);
    DerivedMeaning(tasks', j);
    var t :| t in tasks && tasks[t].job == j && tasks[t].state != TaskSucceeded;
    assert !Has(tasks, j, TaskFailed) && !Has(tasks, j, TaskCancelled);
    assert t in tasks' && tasks'[t].job == j && tasks'[t].state == TaskCancelled;
  }
}
