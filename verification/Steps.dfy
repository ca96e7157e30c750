/**
 The step relation. Workers are adversarial: any worker may send any report for any attempt at any time.
 One committed transaction is one step; the clock moves on its own.
 */
module Steps {
  import opened Rows
  import opened Protocol
  import opened Scheduling
  import opened Sweep
  import opened Invariant
  import opened Preservation
  import opened Creation

  datatype Event =
    | Submit(tenant: TenantId, key: Option<string>, priority: int, specs: seq<NewTask>, newJob: JobId, uuids: seq<TaskId>)
    | Stop(tenant: TenantId, job: JobId)
    | Assign(facts: WorkerFacts, task: TaskId, newAttempt: AttemptId, ttl: nat)
    | Started(attempt: AttemptId, worker: WorkerId, ttl: nat)
    | Heartbeat(attempt: AttemptId, worker: WorkerId, pct: real, ttl: nat)
    | Finished(attempt: AttemptId, worker: WorkerId, report: Report)
    | Swept(limit: nat, batch: seq<AttemptId>)
    | Tick(ms: nat)

  /** Only the choices a query makes are restricted; every request is allowed. */
  ghost predicate Enabled(db: DB, e: Event) {
    match e
    case Submit(_, _, _, specs, _, uuids) => |specs| == |uuids|
    case Assign(w, t, _, _) => Eligible(db, w, t)
    case Swept(limit, batch) => Batch(db, limit, batch)
    case _ => true
  }

  ghost function Apply(db: DB, e: Event): DB
    requires Enabled(db, e)
  {
    match e
    case Submit(tenant, key, priority, specs, j, uuids) => Create(db, tenant, key, priority, specs, j, uuids).After(db)
    case Stop(tenant, j) => Cancel(db, tenant, j).After(db)
    case Assign(w, t, a, ttl) => LeaseWrites(db, t, db.tasks[t].attemptCount + 1, a, w.id, ttl).After(db)
    case Started(a, w, ttl) => Start(db, a, w, ttl).After(db)
    case Heartbeat(a, w, pct, ttl) => Progress(db, a, w, pct, ttl).After(db)
    case Finished(a, w, report) => Complete(db, a, w, report).After(db)
    case Swept(_, batch) => ExpireLeases(db, batch).After(db)
    case Tick(ms) => db.(now := db.now + ms)
  }

  lemma TickKeeps(db: DB, ms: nat)
    requires Inv(db)
    ensures Inv(db.(now := db.now + ms))
  {
    var db' := db.(now := db.now + ms);
    forall t | t in db'.tasks ensures TaskOk(db', t) { assert TaskOk(db, t); }
    forall a | a in db'.attempts ensures AttemptOk(db', a) { assert AttemptOk(db, a); }
  }

  /** The invariant is inductive over every step. */
  lemma StepKeeps(db: DB, e: Event)
    requires Inv(db) && Enabled(db, e)
    ensures Inv(Apply(db, e))
  {
    match e
    case Submit(tenant, key, priority, specs, j, uuids) => CreateKeeps(db, tenant, key, priority, specs, j, uuids);
    case Stop(tenant, j) => CancelKeeps(db, tenant, j);
    case Assign(w, t, a, ttl) => if a !in db.attempts { LeaseKeeps(db, t, a, w.id, ttl); }
    case Started(a, w, ttl) => StartKeeps(db, a, w, ttl);
    case Heartbeat(a, w, pct, ttl) => ProgressKeeps(db, a, w, pct, ttl);
    case Finished(a, w, report) => CompleteKeeps(db, a, w, report);
    case Swept(limit, batch) => BatchIsSequential(db, limit, batch);
    case Tick(ms) => TickKeeps(db, ms);
  }

  // ---- runs ----

  /** A run: the states between consecutive events. */
  datatype Run = Run(states: seq<DB>, events: seq<Event>)

  ghost predicate StepOf(r: Run, i: nat)
    requires i < |r.events| && i + 1 < |r.states|
  {
    Enabled(r.states[i], r.events[i]) && r.states[i + 1] == Apply(r.states[i], r.events[i])
  }

  ghost predicate IsRun(r: Run) {
    && |r.states| == |r.events| + 1
    && (forall i: nat {:trigger StepOf(r, i)} | i < |r.events| :: StepOf(r, i))
  }

  /** A run of the system from its empty database. */
  ghost predicate FromEmpty(r: Run) {
    IsRun(r) && r.states[0] == EmptyDB
  }

  lemma {:induction false} RunKeeps(r: Run, i: nat)
    requires IsRun(r) && Inv(r.states[0]) && i < |r.states|
    ensures Inv(r.states[i])
  {
    if i > 0 {
      RunKeeps(r, i - 1);
      assert StepOf(r, i - 1);
      StepKeeps(r.states[i - 1], r.events[i - 1]);
    }
  }

  lemma ReachableInv(r: Run, i: nat)
    requires FromEmpty(r) && i < |r.states|
    ensures Inv(r.states[i])
  {
    RunKeeps(r, i);
  }
}
