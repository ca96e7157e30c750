/**
 The job store as internal/job runs it: tables updated in place, statement by statement, inside one transaction per
 operation. Every method is proved to commit or roll back exactly as the transaction function of Protocol says, and so
 keeps the protocol's invariant.
 */
module Stores {
  import opened States
  import opened Rows
  import P = Protocol
  import opened Scheduling
  import opened Sweep
  import opened Invariant
  import opened Preservation
  import opened Creation
  import opened Steps

  datatype Result<+T> = Ok(value: T) | Err(error: P.Error)

  datatype Assignment = Assignment(task: TaskId, attempt: AttemptId, job: JobId, tenant: TenantId, operation: string, number: nat)

  class Store {
    var jobs: map<JobId, Job>
    var tasks: map<TaskId, Task>
    var attempts: map<AttemptId, Attempt>
    var now: int

    function Db(): DB
      reads this
    {
      DB(jobs, tasks, attempts, now)
    }

    ghost predicate Valid()
      reads this
    {
      Inv(Db())
    }

    constructor ()
      ensures Valid() && Db() == EmptyDB
    {
      jobs, tasks, attempts, now := map[], map[], map[], 0;
    }

    /** Time passes between transactions. */
    method Wait(ms: nat)
      requires Valid()
      modifies `now
      ensures Valid() && now == old(now) + ms
    {
      TickKeeps(Db(), ms);
      now := now + ms;
    }

    // ---- pieces shared by the operations ----

    method ReconcileJob(j: JobId)
      modifies `jobs
      ensures Db() == P.Reconcile(old(Db()), j)
    {
      var total := |TasksOf(tasks, j)|;
      var succeeded := |TasksIn(tasks, j, {TaskSucceeded})|;
      var failed := |TasksIn(tasks, j, {TaskFailed})|;
      var cancelled := |TasksIn(tasks, j, {TaskCancelled})|;
      var active := |TasksIn(tasks, j, {TaskLeased, TaskRunning})|;
      var next := JobPending;
      if failed > 0 {
        next := JobFailed;
      } else if cancelled > 0 {
        next := JobCancelled;
      } else if succeeded == total {
        next := JobSucceeded;
      } else if active > 0 || succeeded > 0 {
        next := JobRunning;
      }
      if j in jobs {
        jobs := jobs[j := jobs[j].(state := next)];
      }
    }

    method ReleaseDependents(j: JobId, done: TaskId)
      modifies `tasks
      ensures tasks == P.ReleaseDependents(old(tasks), j, done, now)
      ensures tasks.Keys == old(tasks).Keys
      ensures forall t | t in tasks && tasks[t] != old(tasks)[t] ::
                && tasks[t] == old(tasks)[t].(state := TaskQueued, queuedAt := now)
                && old(tasks)[t].state == TaskPending && tasks[t].job == j && DependenciesMet(tasks, tasks[t].dependsOn)
      ensures forall t | t in tasks && tasks[t].job == j && tasks[t].state == TaskPending && done in tasks[t].dependsOn ::
                !DependenciesMet(tasks, tasks[t].dependsOn)
    {
      ReleaseKeepsMet(tasks, j, done, now);
      tasks := map t | t in tasks ::
        if P.Releasable(tasks, j, done, t) then tasks[t].(state := TaskQueued, queuedAt := now) else tasks[t];
    }

    method TransitionTx(t: TaskId, to: TaskState) returns (r: Result<JobId>)
      modifies `tasks
      ensures var tx := P.TransitionTx(old(Db()), t, to);
              && Db() == tx.After(old(Db()))
              && r == (if tx.Commit? then Ok(tx.value) else Err(tx.error))
    {
      if t !in tasks {
        return Err(P.ErrNotFound);
      }
      var j := tasks[t].job;
      if !CanTransitionTask(tasks[t].state, to) {
        return Err(P.ErrIllegalTransition);
      }
      tasks := tasks[t := tasks[t].(state := to, queuedAt := if to == TaskQueued then now else tasks[t].queuedAt)];
      if to == TaskSucceeded {
        ReleaseDependents(j, t);
      }
      return Ok(j);
    }

    method CloseAttempt(a: AttemptId, to: AttemptState)
      requires a in attempts
      modifies `attempts
      ensures Db() == P.SetAttempt(old(Db()), a, to)
    {
      attempts := attempts[a := attempts[a].(state := to)];
    }

    // ---- job.go ----

    method Create(tenant: TenantId, key: Option<string>, priority: int, specs: seq<P.NewTask>, j: JobId, uuids: seq<TaskId>)
      returns (r: Result<JobId>)
      requires Valid() && |specs| == |uuids|
      modifies `jobs, `tasks
      ensures Valid()
      ensures var tx := P.Create(old(Db()), tenant, key, priority, specs, j, uuids);
              && Db() == tx.After(old(Db()))
              && (r.Ok? <==> tx.Commit?)
              && (r.Err? ==> r.error == tx.error)
              && (r.Ok? ==> r.value in jobs && (r.value == tx.value || P.SameSubmission(jobs[r.value], tenant, key)))
    {
      CreateKeeps(Db(), tenant, key, priority, specs, j, uuids);
      if |specs| == 0 {
        return Err(P.ErrNoTasks);
      }
      var ids := KeyIds(specs, uuids);
      if !P.DependenciesKnown(specs, ids) {
        return Err(P.ErrBadDepend);
      }
      if k :| k in jobs && P.SameSubmission(jobs[k], tenant, key) {
        return Ok(k);
      }
      if j in jobs {
        return Err(P.ErrUniqueViolation);
      }
      P.KeyIdsDomain(specs, uuids);
      var inserted := InsertTasks(specs, ids, j, tenant, priority);
      if !inserted {
        return Err(P.ErrTaskRejected);
      }
      jobs := jobs[j := Job(tenant, key, priority, JobPending)];
      return Ok(j);
    }

    /** Create's first loop: an identifier for every key. */
    method KeyIds(specs: seq<P.NewTask>, uuids: seq<TaskId>) returns (ids: map<string, TaskId>)
      requires |specs| == |uuids|
      ensures ids == P.KeyIds(specs, uuids)
    {
      ids := map[];
      for i := 0 to |specs|
        invariant ids == P.KeyIds(specs[..i], uuids[..i])
      {
        assert specs[..i + 1][..i] == specs[..i] && uuids[..i + 1][..i] == uuids[..i];
        ids := ids[specs[i].key := uuids[i]];
      }
      assert specs[..|specs|] == specs && uuids[..|specs|] == uuids;
    }

    /** Create's last loop: a primary key collision undoes the inserts made so far. */
    method InsertTasks(specs: seq<P.NewTask>, ids: map<string, TaskId>, j: JobId, tenant: TenantId, priority: int)
      returns (ok: bool)
      requires forall i | 0 <= i < |specs| :: specs[i].key in ids
      requires P.DependenciesKnown(specs, ids)
      modifies `tasks
      ensures var r := P.InsertTasks(old(tasks), specs, ids, j, tenant, priority, now);
              ok == r.Some? && tasks == (if ok then r.value else old(tasks))
    {
      var saved := tasks;
      for i := 0 to |specs|
        invariant P.InsertTasks(saved, specs[..i], ids, j, tenant, priority, now) == Some(tasks)
      {
        assert specs[..i + 1][..i] == specs[..i];
        if ids[specs[i].key] in tasks || !P.KnownOperation(specs[i].operation) {
          InsertStops(saved, specs, ids, j, tenant, priority, now, i);
          tasks := saved;
          return false;
        }
        tasks := tasks[ids[specs[i].key] := P.NewRow(specs[i], ids, j, tenant, priority, now)];
      }
      assert specs[..|specs|] == specs;
      return true;
    }

    method Cancel(tenant: TenantId, j: JobId) returns (r: Result<()>)
      requires Valid()
      modifies `jobs, `tasks
      ensures Valid()
      ensures var tx := P.Cancel(old(Db()), tenant, j);
              Db() == tx.After(old(Db())) && r == (if tx.Commit? then Ok(()) else Err(tx.error))
    {
      CancelKeeps(Db(), tenant, j);
      if j !in jobs || jobs[j].tenant != tenant {
        return Err(P.ErrNotFound);
      }
      if jobs[j].state.IsTerminal() {
        return Ok(());
      }
      tasks := map t | t in tasks ::
        if tasks[t].job == j && P.Cancellable(tasks[t].state) then tasks[t].(state := TaskCancelled) else tasks[t];
      jobs := jobs[j := jobs[j].(state := JobCancelled)];
      return Ok(());
    }

    // ---- lease.go ----

    method Start(a: AttemptId, w: WorkerId, ttl: nat) returns (r: Result<()>)
      requires Valid()
      modifies `tasks, `attempts
      ensures Valid()
      ensures var tx := P.Start(old(Db()), a, w, ttl);
              Db() == tx.After(old(Db())) && r == (if tx.Commit? then Ok(()) else Err(tx.error))
    {
      StartKeeps(Db(), a, w, ttl);
      if !P.Holds(Db(), a, w) {
        return Err(P.ErrStaleAttempt);
      }
      var at := attempts[a];
      if tasks[at.task].state == TaskCancelled {
        CloseAttempt(a, AttemptCancelled);
        return Ok(());
      }
      if !CanTransitionAttempt(at.state, AttemptRunning) {
        return Err(P.ErrIllegalTransition);
      }
      var saved := attempts;
      attempts := attempts[a := at.(state := AttemptRunning, leaseExpiresAt := now + ttl)];
      var moved := TransitionTx(at.task, TaskRunning);
      if moved.Err? {
        attempts := saved;
        return Err(moved.error);
      }
      return Ok(());
    }

    /** The answer says whether the task was cancelled. */
    method Progress(a: AttemptId, w: WorkerId, pct: real, ttl: nat) returns (r: Result<bool>)
      requires Valid()
      modifies `attempts
      ensures Valid()
      ensures var tx := P.Progress(old(Db()), a, w, pct, ttl);
              Db() == tx.After(old(Db())) && r == (if tx.Commit? then Ok(tx.value) else Err(tx.error))
    {
      ProgressKeeps(Db(), a, w, pct, ttl);
      if !P.Holds(Db(), a, w) {
        return Err(P.ErrStaleAttempt);
      }
      if tasks[attempts[a].task].state == TaskCancelled {
        return Ok(true);
      }
      attempts := attempts[a := attempts[a].(progressPct := Some(pct), leaseExpiresAt := now + ttl)];
      return Ok(false);
    }

    method Complete(a: AttemptId, w: WorkerId, res: P.Report) returns (r: Result<P.Completion>)
      requires Valid()
      modifies `jobs, `tasks, `attempts
      ensures Valid()
      ensures var tx := P.Complete(old(Db()), a, w, res);
              Db() == tx.After(old(Db())) && r == (if tx.Commit? then Ok(tx.value) else Err(tx.error))
    {
      CompleteKeeps(Db(), a, w, res);
      if !P.Holds(Db(), a, w) {
        return Err(P.ErrStaleAttempt);
      }
      var at := attempts[a];
      var t := at.task;
      if tasks[t].state == TaskCancelled {
        CloseAttempt(a, AttemptCancelled);
        return Ok(P.CompletionOf(Db(), t, false, false));
      }
      var attemptTo := if res.success then AttemptSucceeded else AttemptFailed;
      if !CanTransitionAttempt(at.state, attemptTo) {
        return Err(P.ErrIllegalTransition);
      }
      var saved := attempts;
      attempts := attempts[a := at.(state := attemptTo, progressPct := if res.success then Some(100.0) else None)];
      if res.success {
        var moved := TransitionTx(t, TaskSucceeded);
        if moved.Err? {
          attempts := saved;
          return Err(moved.error);
        }
        ReconcileJob(moved.value);
        return Ok(P.CompletionOf(Db(), t, true, false));
      }
      var retrying := P.Retries(tasks[t], res.failureClass);
      var to := if retrying then TaskQueued else TaskFailed;
      if !CanTransitionTask(tasks[t].state, to) {
        attempts := saved;
        return Err(P.ErrIllegalTransition);
      }
      tasks := tasks[t := tasks[t].(state := to, queuedAt := if to == TaskQueued then now else tasks[t].queuedAt)];
      ReconcileJob(tasks[t].job);
      return Ok(P.CompletionOf(Db(), t, false, retrying));
    }

    // ---- expire.go ----

    /** Reclaims the batch its query returned; the answer says, lease by lease, whether the task was requeued. */
    method ExpireLeases(limit: nat, batch: seq<AttemptId>) returns (requeued: seq<bool>)
      requires Valid() && Batch(Db(), limit, batch)
      modifies `jobs, `tasks, `attempts
      ensures Valid()
      ensures Db() == ReclaimEach(old(Db()), batch)
      ensures Sweep.ExpireLeases(old(Db()), batch) == P.Commit(Db(), requeued)
    {
      BatchIsSequential(Db(), limit, batch);
      var found := ReadBatch(batch);
      requeued := ReclaimFound(found);
    }

    method ReclaimFound(found: seq<P.SweepRow>) returns (requeued: seq<bool>)
      requires RowsExist(Db(), found) && ReclaimRows(Db(), found).Commit?
      modifies `jobs, `tasks, `attempts
      ensures ReclaimRows(old(Db()), found) == P.Commit(Db(), requeued)
    {
      ghost var all := ReclaimRows(Db(), found);
      requeued := [];
      assert found[0..] == found;
      for i := 0 to |found|
        invariant now == old(now) && Remaining(Db(), found[i..], requeued, all)
      {
        ghost var before := Db();
        assert found[i..][0] == found[i];
        var requeue := Reclaim(found[i]);
        OneReclaimed(before, found, i, requeued, all);
        requeued := requeued + [requeue];
      }
      assert found[|found|..] == [] && requeued + [] == requeued;
    }

    /** The rows are read once, before any of them is acted on. */
    method ReadBatch(batch: seq<AttemptId>) returns (found: seq<P.SweepRow>)
      requires forall i | 0 <= i < |batch| :: P.Expired(Db(), batch[i])
      ensures found == ReadRows(Db(), batch)
    {
      found := [];
      for i := 0 to |batch|
        invariant |found| == i && forall k | 0 <= k < i :: found[k] == P.ReadRow(Db(), batch[k])
      {
        found := found + [P.ReadRow(Db(), batch[i])];
      }
    }

    /** One turn of the sweep's loop, for a row whose transition is legal. */
    method Reclaim(r: P.SweepRow) returns (requeue: bool)
      requires r.attempt in attempts && r.task in tasks && P.ReclaimRow(Db(), r).Commit?
      modifies `jobs, `tasks, `attempts
      ensures P.ReclaimRow(old(Db()), r) == P.Commit(Db(), requeue)
    {
      attempts := attempts[r.attempt := attempts[r.attempt].(state := AttemptExpired)];
      if r.taskState == TaskCancelled || r.taskState.IsTerminal() {
        return false;
      }
      requeue := r.attemptCount < r.maxAttempts;
      var to := if requeue then TaskQueued else TaskFailed;
      tasks := tasks[r.task := tasks[r.task].(state := to, queuedAt := if to == TaskQueued then now else tasks[r.task].queuedAt)];
      ReconcileJob(r.job);
    }

    // ---- schedule.go ----

    method FreeSlotClasses(w: WorkerFacts) returns (free: set<string>)
      ensures forall c :: c in free <==> SlotFree(Db(), w, c)
    {
      free := {};
      var todo := w.slotCapacity.Keys;
      while todo != {}
        invariant todo <= w.slotCapacity.Keys
        invariant forall c :: c in free <==> c !in todo && SlotFree(Db(), w, c)
        decreases todo
      {
        var c :| c in todo;
        if |HeldSlots(Db(), w.id, c)| < w.slotCapacity[c] {
          free := free + {c};
        }
        todo := todo - {c};
      }
    }

    /** leaseQuery: a candidate no other candidate outranks. */
    method LeaseQuery(w: WorkerFacts, quotas: map<TenantId, int>, free: set<string>) returns (r: Option<TaskId>)
      requires forall c :: c in free <==> SlotFree(Db(), w, c)
      ensures r.None? <==> forall t :: !Candidate(Db(), quotas, w, t)
      ensures r.Some? ==> Candidate(Db(), quotas, w, r.value)
                          && forall u | Candidate(Db(), quotas, w, u) :: Ranks(Db(), w, r.value, u)
    {
      var candidates := set t | t in tasks && tasks[t].state == TaskQueued && Fits(w, tasks[t])
                                && tasks[t].SlotClass() in free
                                && TenantActive(Db(), tasks[t].tenant) < Quota(quotas, tasks[t].tenant);
      assert forall t :: t in candidates <==> Candidate(Db(), quotas, w, t);
      if candidates == {} {
        return None;
      }
      ghost var first := FirstExists(Db(), w, candidates);
      var t :| t in candidates && forall u | u in candidates :: Ranks(Db(), w, t, u);
      return Some(t);
    }

    /** The task and attempt rows of one lease. */
    method WriteLease(w: WorkerId, t: TaskId, ttl: nat, a: AttemptId)
      requires t in tasks && a !in attempts && !P.NumberTaken(attempts, t, tasks[t].attemptCount + 1)
      modifies `jobs, `tasks, `attempts
      ensures P.LeaseWrites(old(Db()), t, old(tasks)[t].attemptCount + 1, a, w, ttl) == P.Commit(Db(), a)
    {
      var number := tasks[t].attemptCount + 1;
      tasks := tasks[t := tasks[t].(state := TaskLeased, attemptCount := number)];
      attempts := attempts[a := Attempt(t, number, w, AttemptLeased, now + ttl, None)];
      ReconcileJob(tasks[t].job);
    }

    /** Hands the asking worker a candidate no other candidate outranks, or reports no work exactly when there is none. */
    method Lease(w: WorkerFacts, quotas: map<TenantId, int>, ttl: nat, a: AttemptId) returns (r: Result<Assignment>)
      requires Valid()
      modifies `jobs, `tasks, `attempts
      ensures Valid()
      ensures r == Err(P.ErrNoWork) <==> forall t :: !Candidate(old(Db()), quotas, w, t)
      ensures r.Err? ==> Db() == old(Db()) && (r.error == P.ErrNoWork || (r.error == P.ErrUniqueViolation && a in attempts))
      ensures r.Ok? ==>
                var t := r.value.task;
                && Candidate(old(Db()), quotas, w, t)
                && (forall u | Candidate(old(Db()), quotas, w, u) :: Ranks(old(Db()), w, t, u))
                && Enabled(old(Db()), Assign(w, t, a, ttl)) && Db() == Apply(old(Db()), Assign(w, t, a, ttl))
                && r.value == Assignment(t, a, old(tasks)[t].job, old(tasks)[t].tenant, old(tasks)[t].operation,
                                         old(tasks)[t].attemptCount + 1)
    {
      if |w.operations| == 0 {
        return Err(P.ErrNoWork);
      }
      var free := FreeSlotClasses(w);
      if free == {} {
        return Err(P.ErrNoWork);
      }
      var found := LeaseQuery(w, quotas, free);
      if found.None? {
        return Err(P.ErrNoWork);
      }
      var t := found.value;
      if a in attempts {
        return Err(P.ErrUniqueViolation);
      }
      LeaseKeeps(Db(), t, a, w.id, ttl);
      r := Ok(Assignment(t, a, tasks[t].job, tasks[t].tenant, tasks[t].operation, tasks[t].attemptCount + 1));
      WriteLease(w.id, t, ttl, a);
    }
  }

  /** Queueing a task satisfies no dependency. */
  lemma ReleaseKeepsMet(tasks: map<TaskId, Task>, j: JobId, done: TaskId, now: int)
    ensures var tasks' := P.ReleaseDependents(tasks, j, done, now);
            forall deps {:trigger DependenciesMet(tasks', deps)} :: DependenciesMet(tasks', deps) <==> DependenciesMet(tasks, deps)
  {
    var tasks' := P.ReleaseDependents(tasks, j, done, now);
    assert forall t | t in tasks :: (tasks'[t].state == TaskSucceeded) <==> (tasks[t].state == TaskSucceeded);
  }

  /** The sweep, part way: reclaiming the rows that are left completes what was begun. */
  ghost predicate Remaining(db: DB, left: seq<P.SweepRow>, done: seq<bool>, all: P.Tx<seq<bool>>) {
    && all.Commit? && RowsExist(db, left)
    && var rest := ReclaimRows(db, left);
    && rest.Commit? && rest.db == all.db && done + rest.value == all.value
  }

  lemma OneReclaimed(db: DB, found: seq<P.SweepRow>, i: nat, done: seq<bool>, all: P.Tx<seq<bool>>)
    requires i < |found| && Remaining(db, found[i..], done, all)
    ensures found[i].attempt in db.attempts && found[i].task in db.tasks
    ensures var one := P.ReclaimRow(db, found[i]);
            one.Commit? && Remaining(one.db, found[i + 1..], done + [one.value], all)
  {
    var left := found[i..];
    assert left[0] == found[i] && left[1..] == found[i + 1..];
  }

  /** Once the insert loop has met a taken key, no later insert can save the transaction. */
  lemma {:induction false} InsertStops(tasks: map<TaskId, Task>, specs: seq<P.NewTask>, ids: map<string, TaskId>,
                                       j: JobId, tenant: TenantId, priority: int, now: int, i: nat)
    requires forall k | 0 <= k < |specs| :: specs[k].key in ids
    requires P.DependenciesKnown(specs, ids) && i < |specs|
    requires P.InsertTasks(tasks, specs[..i + 1], ids, j, tenant, priority, now).None?
    ensures P.InsertTasks(tasks, specs, ids, j, tenant, priority, now).None?
    decreases |specs|
  {
    var n := |specs| - 1;
    if i == n {
      assert specs[..i + 1] == specs;
    } else {
      assert specs[..n][..i + 1] == specs[..i + 1];
      InsertStops(tasks, specs[..n], ids, j, tenant, priority, now, i);
    }
  }
}
