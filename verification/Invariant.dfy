/**
 The inductive invariant of the lease protocol, and the proof that every transaction keeps it.
 */
module Invariant {
  import opened States
  import opened Rows
  import opened Protocol

  // ---- what holds between the tables ----

  /** How an attempt looks once its task has gone back to the queue or failed for good. */
  predicate GaveBack(s: AttemptState) {
    s == AttemptFailed || s == AttemptExpired
  }

  /** The states a task's latest attempt may have, given the state of the task. */
  predicate Coupled(ts: TaskState, at: AttemptState) {
    match ts
    case TaskPending => false
    case TaskQueued => GaveBack(at)
    case TaskLeased => at == AttemptLeased
    case TaskRunning => at == AttemptRunning
    case TaskSucceeded => at == AttemptSucceeded
    case TaskFailed => GaveBack(at)
    case TaskCancelled => at != AttemptSucceeded
  }

  ghost predicate AttemptOk(db: DB, a: AttemptId)
    requires a in db.attempts
  {
    var at := db.attempts[a];
    && at.task in db.tasks
    && 1 <= at.number <= db.tasks[at.task].attemptCount
    && (if at.number < db.tasks[at.task].attemptCount
        then GaveBack(at.state)
        else Coupled(db.tasks[at.task].state, at.state))
  }

  ghost predicate TaskOk(db: DB, t: TaskId)
    requires t in db.tasks
  {
    var task := db.tasks[t];
    && task.job in db.jobs
    && task.tenant == db.jobs[task.job].tenant
    && 1 <= task.maxAttempts
    && task.attemptCount <= task.maxAttempts
    && (task.state == TaskQueued ==> task.attemptCount < task.maxAttempts)
    && (task.state == TaskPending ==> task.attemptCount == 0)
    && (task.state in {TaskLeased, TaskRunning, TaskSucceeded, TaskFailed} ==> 1 <= task.attemptCount)
    && (forall n | 1 <= n <= task.attemptCount :: NumberTaken(db.attempts, t, n))
  }

  ghost predicate SameNumber(attempts: map<AttemptId, Attempt>, a: AttemptId, b: AttemptId)
    requires a in attempts && b in attempts
  {
    attempts[a].task == attempts[b].task && attempts[a].number == attempts[b].number
  }

  ghost predicate NumbersUnique(attempts: map<AttemptId, Attempt>) {
    forall a, b {:trigger SameNumber(attempts, a, b)} | a in attempts && b in attempts ::
      SameNumber(attempts, a, b) ==> a == b
  }

  ghost predicate RowsInv(db: DB) {
    && (forall a {:trigger AttemptOk(db, a)} | a in db.attempts :: AttemptOk(db, a))
    && NumbersUnique(db.attempts)
    && (forall t {:trigger TaskOk(db, t)} | t in db.tasks :: TaskOk(db, t))
  }

  ghost predicate DependenciesInJob(tasks: map<TaskId, Task>, t: TaskId)
    requires t in tasks
  {
    forall d | d in tasks[t].dependsOn :: d in tasks && tasks[d].job == tasks[t].job
  }

  ghost predicate WaitsExactly(tasks: map<TaskId, Task>, t: TaskId)
    requires t in tasks
  {
    tasks[t].state != TaskCancelled ==>
      (tasks[t].state == TaskPending <==> !DependenciesMet(tasks, tasks[t].dependsOn))
  }

  ghost predicate GraphInv(tasks: map<TaskId, Task>) {
    forall t {:trigger WaitsExactly(tasks, t)} | t in tasks :: DependenciesInJob(tasks, t) && WaitsExactly(tasks, t)
  }

  /** A job with a cancelled task has nothing else left but finished work. */
  ghost predicate CancelOk(tasks: map<TaskId, Task>, t: TaskId, u: TaskId)
    requires t in tasks && u in tasks
  {
    tasks[t].job == tasks[u].job && tasks[t].state == TaskCancelled ==>
      tasks[u].state == TaskCancelled || tasks[u].state == TaskSucceeded
  }

  ghost predicate CancelInv(tasks: map<TaskId, Task>) {
    forall t, u {:trigger CancelOk(tasks, t, u)} | t in tasks && u in tasks :: CancelOk(tasks, t, u)
  }

  ghost predicate JobOk(jobs: map<JobId, Job>, tasks: map<TaskId, Task>, j: JobId)
    requires j in jobs
  {
    && jobs[j].state == DerivedJobState(tasks, j)
    && (exists t :: t in tasks && tasks[t].job == j)
  }

  ghost predicate JobInv(jobs: map<JobId, Job>, tasks: map<TaskId, Task>) {
    forall j {:trigger JobOk(jobs, tasks, j)} | j in jobs :: JobOk(jobs, tasks, j)
  }

  ghost predicate Inv(db: DB) {
    && RowsInv(db)
    && GraphInv(db.tasks)
    && CancelInv(db.tasks)
    && JobInv(db.jobs, db.tasks)
  }

  const EmptyDB := DB(map[], map[], map[], 0)

  // ---- one task and its latest attempt move together ----

  ghost predicate SameTask(x: Task, y: Task) {
    y == x.(state := y.state, attemptCount := y.attemptCount, queuedAt := y.queuedAt)
  }

  ghost predicate SameJobRows(jobs: map<JobId, Job>, jobs': map<JobId, Job>) {
    && jobs'.Keys == jobs.Keys
    && forall j | j in jobs :: jobs'[j] == jobs[j].(state := jobs'[j].state)
  }

  predicate Active(s: TaskState) {
    s == TaskQueued || s == TaskLeased || s == TaskRunning
  }

  /** The shape shared by Lease, Start, Complete and one reclaim: task `t` and its latest attempt `a`. */
  ghost predicate Move(db: DB, db': DB, t: TaskId, a: AttemptId) {
    && t in db.tasks
    && t in db'.tasks
    && a in db'.attempts
    && db'.tasks == db.tasks[t := db'.tasks[t]]
    && db'.attempts == db.attempts[a := db'.attempts[a]]
    && SameTask(db.tasks[t], db'.tasks[t])
    && SameJobRows(db.jobs, db'.jobs)
    && var x, y, at := db.tasks[t], db'.tasks[t], db'.attempts[a];
    && at.task == t
    && at.number == y.attemptCount
    && Coupled(y.state, at.state)
    && (if a in db.attempts
        then db.attempts[a].task == t && db.attempts[a].number == at.number && y.attemptCount == x.attemptCount
        else x.state == TaskQueued && y.attemptCount == x.attemptCount + 1)
    && (y.state == TaskQueued ==> y.attemptCount < y.maxAttempts)
    && (|| (x.state == TaskCancelled && y.state == TaskCancelled)
        || (Active(x.state) && y.state in {TaskQueued, TaskLeased, TaskRunning, TaskFailed, TaskSucceeded}))
  }

  lemma MoveKeepsNumbers(db: DB, db': DB, t: TaskId, a: AttemptId)
    requires RowsInv(db) && Move(db, db', t, a)
    ensures NumbersUnique(db'.attempts)
    ensures forall u, n | NumberTaken(db.attempts, u, n) :: NumberTaken(db'.attempts, u, n)
    ensures NumberTaken(db'.attempts, t, db'.tasks[t].attemptCount)
  {
    forall b | b in db.attempts ensures db.attempts[b].task == t ==> db.attempts[b].number <= db.tasks[t].attemptCount {
      assert AttemptOk(db, b);
    }
    forall b, c | b in db'.attempts && c in db'.attempts && SameNumber(db'.attempts, b, c) ensures b == c {
      if b in db.attempts && c in db.attempts {
        assert SameNumber(db.attempts, b, c);
      }
    }
    forall u, n | NumberTaken(db.attempts, u, n) ensures NumberTaken(db'.attempts, u, n) {
      var b :| b in db.attempts && db.attempts[b].task == u && db.attempts[b].number == n;
      assert b in db'.attempts && db'.attempts[b].task == u && db'.attempts[b].number == n;
    }
    assert a in db'.attempts && db'.attempts[a].task == t;
  }

  lemma MoveKeepsRows(db: DB, db': DB, t: TaskId, a: AttemptId)
    requires RowsInv(db) && Move(db, db', t, a)
    ensures RowsInv(db')
  {
    MoveKeepsNumbers(db, db', t, a);
    assert TaskOk(db, t);
    assert a in db.attempts ==> AttemptOk(db, a);
    forall u | u in db'.tasks ensures TaskOk(db', u) {
      assert TaskOk(db, u);
    }
    forall b | b in db'.attempts ensures AttemptOk(db', b) {
      if b in db.attempts {
        assert AttemptOk(db, b);
        assert a in db.attempts ==> (SameNumber(db.attempts, a, b) ==> a == b);
      }
    }
  }

  lemma MoveKeepsGraph(db: DB, db': DB, t: TaskId, a: AttemptId)
    requires GraphInv(db.tasks) && Move(db, db', t, a)
    requires db'.tasks[t].state != TaskSucceeded
    ensures GraphInv(db'.tasks)
  {
    forall u | u in db'.tasks ensures DependenciesInJob(db'.tasks, u) && WaitsExactly(db'.tasks, u) {
      assert WaitsExactly(db.tasks, u) && DependenciesInJob(db.tasks, u);
      assert DependenciesMet(db'.tasks, db'.tasks[u].dependsOn) == DependenciesMet(db.tasks, db.tasks[u].dependsOn) by {
        assert forall d | d in db.tasks :: (db'.tasks[d].state == TaskSucceeded) == (db.tasks[d].state == TaskSucceeded);
      }
    }
  }

  lemma MoveKeepsCancel(db: DB, db': DB, t: TaskId, a: AttemptId)
    requires CancelInv(db.tasks) && Move(db, db', t, a)
    ensures CancelInv(db'.tasks)
  {
    forall u, v | u in db'.tasks && v in db'.tasks ensures CancelOk(db'.tasks, u, v) {
      assert CancelOk(db.tasks, u, v);
    }
  }

  // ---- a success releases its dependents in the same transaction ----

  ghost predicate Released(db: DB, db': DB, t: TaskId) {
    && t in db.tasks
    && db'.jobs == db.jobs
    && db'.attempts == db.attempts
    && db'.tasks == ReleaseDependents(db.tasks, db.tasks[t].job, t, db.now)
  }

  lemma ReleaseKeepsRows(db: DB, db': DB, t: TaskId)
    requires RowsInv(db) && Released(db, db', t)
    ensures RowsInv(db')
  {
    forall u | u in db'.tasks ensures TaskOk(db', u) {
      assert TaskOk(db, u);
    }
    forall b | b in db'.attempts ensures AttemptOk(db', b) {
      assert AttemptOk(db, b);
      assert TaskOk(db, db.attempts[b].task);
    }
  }

  lemma SuccessKeepsGraph(db: DB, mid: DB, db': DB, t: TaskId, a: AttemptId)
    requires GraphInv(db.tasks) && Move(db, mid, t, a) && Released(mid, db', t)
    requires mid.tasks[t].state == TaskSucceeded
    ensures GraphInv(db'.tasks)
  {
    assert forall d | d in mid.tasks :: (db'.tasks[d].state == TaskSucceeded) == (mid.tasks[d].state == TaskSucceeded);
    forall u | u in db'.tasks ensures DependenciesInJob(db'.tasks, u) && WaitsExactly(db'.tasks, u) {
      assert WaitsExactly(db.tasks, u) && DependenciesInJob(db.tasks, u);
      SuccessWaits(db, mid, db', t, a, u);
    }
  }

  lemma SuccessWaits(db: DB, mid: DB, db': DB, t: TaskId, a: AttemptId, u: TaskId)
    requires Move(db, mid, t, a) && Released(mid, db', t)
    requires mid.tasks[t].state == TaskSucceeded
    requires u in db.tasks && DependenciesInJob(db.tasks, u) && WaitsExactly(db.tasks, u)
    ensures DependenciesInJob(db'.tasks, u) && WaitsExactly(db'.tasks, u)
  {
    var deps := db.tasks[u].dependsOn;
    assert DependenciesMet(db'.tasks, deps) == DependenciesMet(mid.tasks, deps);
    if t !in deps {
      assert DependenciesMet(mid.tasks, deps) == DependenciesMet(db.tasks, deps);
    } else {
      assert t in db.tasks;
      assert u == t || mid.tasks[u] == db.tasks[u];
    }
  }

  lemma ReleaseKeepsCancel(db: DB, db': DB, t: TaskId)
    requires CancelInv(db.tasks) && Released(db, db', t) && db.tasks[t].state == TaskSucceeded
    requires forall u | u in db.tasks && db.tasks[u].job == db.tasks[t].job :: db.tasks[u].state != TaskCancelled
    ensures CancelInv(db'.tasks)
  {
    forall u, v | u in db'.tasks && v in db'.tasks ensures CancelOk(db'.tasks, u, v) {
      assert CancelOk(db.tasks, u, v);
    }
  }

  // ---- job states ----

  lemma ReconcileKeepsJobs(jobs: map<JobId, Job>, tasks: map<TaskId, Task>, db: DB, j: JobId)
    requires JobInv(jobs, tasks) && j in jobs && db.jobs == jobs
    requires forall i | i in jobs && i != j :: SameKinds(tasks, db.tasks, i)
    requires exists t :: t in db.tasks && db.tasks[t].job == j
    ensures var r := Reconcile(db, j);
            JobInv(r.jobs, r.tasks) && r.tasks == db.tasks && r.attempts == db.attempts && SameJobRows(jobs, r.jobs)
  {
    var r := Reconcile(db, j);
    forall i | i in r.jobs ensures JobOk(r.jobs, r.tasks, i) {
      if i != j {
        assert JobOk(jobs, tasks, i);
        DerivedFrame(tasks, db.tasks, i);
      }
    }
  }

  lemma FrameKeepsJobs(jobs: map<JobId, Job>, tasks: map<TaskId, Task>, tasks': map<TaskId, Task>)
    requires JobInv(jobs, tasks)
    requires forall j | j in jobs :: SameKinds(tasks, tasks', j)
    ensures JobInv(jobs, tasks')
  {
    forall j | j in jobs ensures JobOk(jobs, tasks', j) {
      assert JobOk(jobs, tasks, j);
      DerivedFrame(tasks, tasks', j);
    }
  }
}
