/**
 What a step can do to rows that already exist: rows persist, finished work stays finished,
 and every change of state is one the tables of internal/job/state.go allow.
 */
module Progression {
  import opened States
  import opened Rows
  import opened Protocol
  import opened Sweep
  import opened Invariant
  import opened Preservation
  import opened Creation
  import opened Steps

  ghost predicate TaskAdvances(db: DB, db': DB, t: TaskId)
    requires t in db.tasks
  {
    && t in db'.tasks
    && SameTask(db.tasks[t], db'.tasks[t])
    && db.tasks[t].attemptCount <= db'.tasks[t].attemptCount
    && (db.tasks[t].state.IsTerminal() ==> db'.tasks[t] == db.tasks[t])
  }

  ghost predicate AttemptAdvances(db: DB, db': DB, a: AttemptId)
    requires a in db.attempts
  {
    && a in db'.attempts
    && var x, y := db.attempts[a], db'.attempts[a];
    && y.task == x.task && y.number == x.number && y.worker == x.worker
    && (x.state.IsTerminal() ==> y == x)
  }

  /** No task is ever added to a job that already exists. */
  ghost predicate TaskIsOld(db: DB, db': DB, t: TaskId)
    requires t in db'.tasks
  {
    t in db.tasks || db'.tasks[t].job !in db.jobs
  }

  ghost predicate RowsAdvance(db: DB, db': DB) {
    && (forall t {:trigger TaskAdvances(db, db', t)} | t in db.tasks :: TaskAdvances(db, db', t))
    && (forall t {:trigger TaskIsOld(db, db', t)} | t in db'.tasks :: TaskIsOld(db, db', t))
    && (forall a {:trigger AttemptAdvances(db, db', a)} | a in db.attempts :: AttemptAdvances(db, db', a))
    && db.jobs.Keys <= db'.jobs.Keys
    && db.now <= db'.now
  }

  ghost predicate JobAdvances(db: DB, db': DB, j: JobId)
    requires j in db.jobs
  {
    && j in db'.jobs
    && (db.jobs[j].state.IsTerminal() ==> db'.jobs[j].state == db.jobs[j].state)
  }

  /** The order of time on databases: reflexive, transitive, and respected by every step. */
  ghost predicate Advances(db: DB, db': DB) {
    && RowsAdvance(db, db')
    && (forall j {:trigger JobAdvances(db, db', j)} | j in db.jobs :: JobAdvances(db, db', j))
  }

  lemma AdvancesTransitive(x: DB, y: DB, z: DB)
    requires Advances(x, y) && Advances(y, z)
    ensures Advances(x, z)
  {
    forall t | t in x.tasks ensures TaskAdvances(x, z, t) { assert TaskAdvances(x, y, t) && TaskAdvances(y, z, t); }
    forall a | a in x.attempts ensures AttemptAdvances(x, z, a) { assert AttemptAdvances(x, y, a) && AttemptAdvances(y, z, a); }
    forall j | j in x.jobs ensures JobAdvances(x, z, j) { assert JobAdvances(x, y, j) && JobAdvances(y, z, j); }
    forall t | t in z.tasks ensures TaskIsOld(x, z, t) {
      assert TaskIsOld(y, z, t);
      if t in y.tasks {
        assert TaskIsOld(x, y, t);
        assert TaskAdvances(y, z, t);
      }
    }
  }

  // ---- job states follow from their tasks ----

  /** Succeeded, failed and cancelled jobs stay what they are. */
  lemma TerminalJobsStay(db: DB, db': DB)
    requires Inv(db) && Inv(db') && RowsAdvance(db, db')
    ensures Advances(db, db')
  {
    forall j | j in db.jobs ensures JobAdvances(db, db', j) {
      assert JobOk(db.jobs, db.tasks, j) && JobOk(db'.jobs, db'.tasks, j);
      DerivedMeaning(db.tasks, j);
      DerivedMeaning(db'.tasks, j);
      forall t | t in db.tasks && db.tasks[t].job == j
        ensures t in db'.tasks && db'.tasks[t].job == j
        ensures db.tasks[t].state.IsTerminal() ==> db'.tasks[t].state == db.tasks[t].state
      {
        assert TaskAdvances(db, db', t);
      }
      if db.jobs[j].state == JobSucceeded || db.jobs[j].state == JobCancelled {
        forall t | t in db.tasks && db.tasks[t].job == j ensures db.tasks[t].state.IsTerminal() {
          if u :| u in db.tasks && db.tasks[u].job == j && db.tasks[u].state == TaskCancelled {
            assert CancelOk(db.tasks, u, t);
          }
        }
        forall t | t in db'.tasks && db'.tasks[t].job == j ensures t in db.tasks && db.tasks[t].job == j {
          assert TaskIsOld(db, db', t);
          if t in db.tasks { assert TaskAdvances(db, db', t); }
        }
        DerivedFrame(db.tasks, db'.tasks, j);
      }
    }
  }

  // ---- single-task steps ----

  /** A step that writes one task and one attempt, neither of them finished. */
  ghost predicate OneTask(db: DB, db': DB, t: TaskId, a: AttemptId) {
    && t in db.tasks && t in db'.tasks && a in db'.attempts
    && db'.tasks.Keys == db.tasks.Keys
    && (forall u | u in db.tasks && u != t :: db'.tasks[u] == db.tasks[u] || ReleasedRow(db.tasks[u], db'.tasks[u], db.now))
    && SameTask(db.tasks[t], db'.tasks[t])
    && db'.attempts == db.attempts[a := db'.attempts[a]]
    && db'.jobs.Keys == db.jobs.Keys
    && db'.now == db.now
    && (db'.tasks[t] == db.tasks[t] ||
        (db.tasks[t].attemptCount <= db'.tasks[t].attemptCount && Active(db.tasks[t].state)
         && CanTransitionTask(db.tasks[t].state, db'.tasks[t].state)))
    && db'.attempts[a].task == t
    && (a in db.attempts ==>
          var x, y := db.attempts[a], db'.attempts[a];
          && y.task == x.task && y.number == x.number && y.worker == x.worker && x.state.IsLive()
          && (y.state == x.state || CanTransitionAttempt(x.state, y.state)))
    && (a !in db.attempts ==>
          db'.attempts[a].state == AttemptLeased && db'.attempts[a].number == db.tasks[t].attemptCount + 1)
  }

  ghost predicate ReleasedRow(x: Task, y: Task, now: int) {
    x.state == TaskPending && y == x.(state := TaskQueued, queuedAt := now)
  }

  lemma OneTaskAdvances(db: DB, db': DB, t: TaskId, a: AttemptId)
    requires OneTask(db, db', t, a)
    ensures RowsAdvance(db, db')
  {
    forall u | u in db.tasks ensures TaskAdvances(db, db', u) {}
    forall b | b in db.attempts ensures AttemptAdvances(db, db', b) {}
    forall u | u in db'.tasks ensures TaskIsOld(db, db', u) {}
  }

  lemma AssignIsOneTask(db: DB, t: TaskId, a: AttemptId, w: WorkerId, ttl: nat)
    requires t in db.tasks && db.tasks[t].state == TaskQueued
    requires LeaseWrites(db, t, db.tasks[t].attemptCount + 1, a, w, ttl).Commit?
    ensures OneTask(db, LeaseWrites(db, t, db.tasks[t].attemptCount + 1, a, w, ttl).db, t, a)
  {
  }

  lemma StartIsOneTask(db: DB, a: AttemptId, w: WorkerId, ttl: nat)
    requires Inv(db) && Holds(db, a, w) && Start(db, a, w, ttl).Commit?
    ensures OneTask(db, Start(db, a, w, ttl).db, db.attempts[a].task, a)
  {
    LiveAttempt(db, a);
  }

  lemma ProgressIsOneTask(db: DB, a: AttemptId, w: WorkerId, pct: real, ttl: nat)
    requires Inv(db) && Holds(db, a, w)
    ensures OneTask(db, Progress(db, a, w, pct, ttl).After(db), db.attempts[a].task, a)
  {
    LiveAttempt(db, a);
  }

  lemma CompleteIsOneTask(db: DB, a: AttemptId, w: WorkerId, res: Report)
    requires Inv(db) && Holds(db, a, w) && Complete(db, a, w, res).Commit?
    ensures OneTask(db, Complete(db, a, w, res).db, db.attempts[a].task, a)
  {
    LiveAttempt(db, a);
    var t, db' := db.attempts[a].task, Complete(db, a, w, res).db;
    if db.tasks[t].state != TaskCancelled && res.success {
      assert forall u | u in db.tasks && u != t :: db'.tasks[u] == db.tasks[u] || ReleasedRow(db.tasks[u], db'.tasks[u], db.now);
    } else {
      assert db'.tasks == db.tasks[t := db'.tasks[t]];
    }
  }

  lemma ReclaimIsOneTask(db: DB, a: AttemptId)
    requires Inv(db) && Expired(db, a)
    ensures ReclaimRow(db, ReadRow(db, a)).Commit?
    ensures OneTask(db, ReclaimRow(db, ReadRow(db, a)).db, db.attempts[a].task, a)
  {
    LiveAttempt(db, a);
  }

  // ---- every step ----

  lemma CancelAdvances(db: DB, tenant: TenantId, j: JobId)
    ensures RowsAdvance(db, Cancel(db, tenant, j).After(db))
  {
    var db' := Cancel(db, tenant, j).After(db);
    forall u | u in db.tasks ensures TaskAdvances(db, db', u) {}
    forall b | b in db.attempts ensures AttemptAdvances(db, db', b) {}
    forall u | u in db'.tasks ensures TaskIsOld(db, db', u) {}
  }

  lemma SubmitAdvances(db: DB, tenant: TenantId, key: Option<string>, priority: int,
                       specs: seq<NewTask>, j: JobId, uuids: seq<TaskId>)
    requires |specs| == |uuids|
    ensures RowsAdvance(db, Create(db, tenant, key, priority, specs, j, uuids).After(db))
  {
    var db' := Create(db, tenant, key, priority, specs, j, uuids).After(db);
    if db' != db {
      CreateInserts(db, tenant, key, priority, specs, j, uuids);
      InsertedAdvances(db, db', specs, KeyIds(specs, uuids), j, tenant, priority);
    } else {
      SameAdvances(db);
    }
  }

  lemma InsertedAdvances(db: DB, db': DB, specs: seq<NewTask>, ids: map<string, TaskId>,
                         j: JobId, tenant: TenantId, priority: int)
    requires DependenciesKnown(specs, ids) && Inserted(db, db', specs, ids, j, tenant, priority)
    ensures RowsAdvance(db, db')
  {
    forall u | u in db.tasks ensures TaskAdvances(db, db', u) {}
    forall b | b in db.attempts ensures AttemptAdvances(db, db', b) {}
    forall u | u in db'.tasks ensures TaskIsOld(db, db', u) {}
  }

  lemma SameAdvances(db: DB)
    ensures Advances(db, db)
  {
    forall u | u in db.tasks ensures TaskAdvances(db, db, u) && TaskIsOld(db, db, u) {}
    forall b | b in db.attempts ensures AttemptAdvances(db, db, b) {}
    forall j | j in db.jobs ensures JobAdvances(db, db, j) {}
  }

  lemma {:induction false} SweepAdvances(db: DB, batch: seq<AttemptId>)
    requires Inv(db)
    ensures Inv(ReclaimEach(db, batch)) && Advances(db, ReclaimEach(db, batch))
    decreases |batch|
  {
    SameAdvances(db);
    if batch != [] {
      if Expired(db, batch[0]) {
        var db1 := ReclaimRow(db, ReadRow(db, batch[0])).After(db);
        ReclaimKeeps(db, batch[0]);
        ReclaimIsOneTask(db, batch[0]);
        OneTaskAdvances(db, db1, db.attempts[batch[0]].task, batch[0]);
        TerminalJobsStay(db, db1);
        SweepAdvances(db1, batch[1..]);
        AdvancesTransitive(db, db1, ReclaimEach(db1, batch[1..]));
      } else {
        SweepAdvances(db, batch[1..]);
      }
    }
  }

  lemma AssignAdvances(db: DB, db': DB, t: TaskId, a: AttemptId, w: WorkerId, ttl: nat)
    requires t in db.tasks && db.tasks[t].state == TaskQueued
    requires LeaseWrites(db, t, db.tasks[t].attemptCount + 1, a, w, ttl) == Commit(db', a)
    ensures RowsAdvance(db, db')
  {
    assert OneTask(db, db', t, a) by {
      AssignIsOneTask(db, t, a, w, ttl);
    }
    OneTaskAdvances(db, db', t, a);
  }

  lemma StartAdvances(db: DB, a: AttemptId, w: WorkerId, ttl: nat)
    requires Inv(db) && Holds(db, a, w) && Start(db, a, w, ttl).Commit?
    ensures RowsAdvance(db, Start(db, a, w, ttl).db)
  {
    StartIsOneTask(db, a, w, ttl);
    OneTaskAdvances(db, Start(db, a, w, ttl).db, db.attempts[a].task, a);
  }

  lemma CompleteAdvances(db: DB, a: AttemptId, w: WorkerId, res: Report)
    requires Inv(db) && Holds(db, a, w) && Complete(db, a, w, res).Commit?
    ensures RowsAdvance(db, Complete(db, a, w, res).db)
  {
    CompleteIsOneTask(db, a, w, res);
    OneTaskAdvances(db, Complete(db, a, w, res).db, db.attempts[a].task, a);
  }

  /** A report either changes nothing or touches exactly one task and one live attempt. */
  lemma ReportAdvances(db: DB, e: Event)
    requires Inv(db) && (e.Assign? || e.Started? || e.Heartbeat? || e.Finished?) && Enabled(db, e)
    ensures RowsAdvance(db, Apply(db, e))
  {
    SameAdvances(db);
    match e
    case Assign(w, t, a, ttl) =>
      var tx := LeaseWrites(db, t, db.tasks[t].attemptCount + 1, a, w.id, ttl);
      if tx.Commit? { AssignAdvances(db, tx.db, t, a, w.id, ttl); }
    case Started(a, w, ttl) =>
      if Holds(db, a, w) && Start(db, a, w, ttl).Commit? { StartAdvances(db, a, w, ttl); }
    case Heartbeat(a, w, pct, ttl) =>
      if Holds(db, a, w) {
        ProgressIsOneTask(db, a, w, pct, ttl);
        OneTaskAdvances(db, Progress(db, a, w, pct, ttl).After(db), db.attempts[a].task, a);
      }
    case Finished(a, w, report) =>
      if Holds(db, a, w) && Complete(db, a, w, report).Commit? { CompleteAdvances(db, a, w, report); }
  }

  /** Every step respects the order of time. */
  lemma StepAdvances(db: DB, e: Event)
    requires Inv(db) && Enabled(db, e)
    ensures Advances(db, Apply(db, e))
  {
    var db' := Apply(db, e);
    StepKeeps(db, e);
    match e
    case Submit(tenant, key, priority, specs, j, uuids) =>
      SubmitAdvances(db, tenant, key, priority, specs, j, uuids);
      TerminalJobsStay(db, db');
    case Stop(tenant, j) =>
      CancelAdvances(db, tenant, j);
      TerminalJobsStay(db, db');
    case Swept(limit, batch) =>
      BatchIsSequential(db, limit, batch);
      SweepAdvances(db, batch);
    case Tick(ms) =>
      SameAdvances(db);
      forall u | u in db.tasks ensures TaskAdvances(db, db', u) { assert TaskAdvances(db, db, u); }
      forall b | b in db.attempts ensures AttemptAdvances(db, db', b) { assert AttemptAdvances(db, db, b); }
      forall u | u in db'.tasks ensures TaskIsOld(db, db', u) {}
      TerminalJobsStay(db, db');
    case _ =>
      ReportAdvances(db, e);
      TerminalJobsStay(db, db');
  }

  /** ... and so does every stretch of every run. */
  lemma {:induction false} RunAdvances(r: Run, i: nat, k: nat)
    requires IsRun(r) && Inv(r.states[0]) && i <= k < |r.states|
    ensures Advances(r.states[i], r.states[k])
    decreases k
  {
    if i == k {
      SameAdvances(r.states[i]);
    } else {
      RunAdvances(r, i, k - 1);
      RunKeeps(r, k - 1);
      assert StepOf(r, k - 1);
      StepAdvances(r.states[k - 1], r.events[k - 1]);
      AdvancesTransitive(r.states[i], r.states[k - 1], r.states[k]);
    }
  }
}
