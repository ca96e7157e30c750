/**
 The tables of internal/db/migrations/0003_jobs.sql as finite maps from primary key
 to row, and the read-only queries the operations of internal/job make over them.
 Times are milliseconds.
 */
module Rows {
  import opened States

  type JobId = nat
  type TaskId = nat
  type AttemptId = nat
  type WorkerId = nat
  type TenantId = nat

  datatype Option<+T> = None | Some(value: T)

  datatype Requirements = Requirements(
    encoder: Option<string>, arch: Option<string>, gpu: bool,
    memoryBytes: int, diskBytes: int, slotClass: Option<string>)

  const NoRequirements := Requirements(None, None, false, 0, 0, None)

  datatype Job = Job(tenant: TenantId, idempotencyKey: Option<string>, priority: int, state: JobState)

  /** `queuedAt` is the query's coalesce(queued_at, created_at). */
  datatype Task = Task(
    job: JobId, tenant: TenantId, operation: string, requirements: Requirements,
    dependsOn: seq<TaskId>, priority: int, state: TaskState,
    attemptCount: nat, maxAttempts: nat, queuedAt: int)
  {
    /** coalesce(requirements->>'slot_class', operation) */
    function SlotClass(): string {
      match requirements.slotClass
      case Some(c) => c
      case None => operation
    }
  }

  datatype Attempt = Attempt(
    task: TaskId, number: nat, worker: WorkerId, state: AttemptState, leaseExpiresAt: int,
    progressPct: Option<real>)

  datatype DB = DB(
    jobs: map<JobId, Job>, tasks: map<TaskId, Task>, attempts: map<AttemptId, Attempt>, now: int)

  /** `not exists (select 1 from tasks d where d.id = any(deps) and d.state <> 'succeeded')` */
  predicate DependenciesMet(tasks: map<TaskId, Task>, deps: seq<TaskId>) {
    forall d | d in deps && d in tasks :: tasks[d].state == TaskSucceeded
  }

  // ---- reconcileJob's aggregate query ----

  function TasksIn(tasks: map<TaskId, Task>, j: JobId, states: set<TaskState>): set<TaskId> {
    set t | t in tasks && tasks[t].job == j && tasks[t].state in states
  }

  function TasksOf(tasks: map<TaskId, Task>, j: JobId): set<TaskId> {
    set t | t in tasks && tasks[t].job == j
  }

  /** The switch of reconcileJob over the five counts. */
  function DerivedJobState(tasks: map<TaskId, Task>, j: JobId): JobState {
    var total := |TasksOf(tasks, j)|;
    var succeeded := |TasksIn(tasks, j, {TaskSucceeded})|;
    var failed := |TasksIn(tasks, j, {TaskFailed})|;
    var cancelled := |TasksIn(tasks, j, {TaskCancelled})|;
    var active := |TasksIn(tasks, j, {TaskLeased, TaskRunning})|;
    if failed > 0 then JobFailed
    else if cancelled > 0 then JobCancelled
    else if succeeded == total then JobSucceeded
    else if active > 0 || succeeded > 0 then JobRunning
    else JobPending
  }

  ghost predicate Has(tasks: map<TaskId, Task>, j: JobId, s: TaskState) {
    exists t :: t in tasks && tasks[t].job == j && tasks[t].state == s
  }

  ghost predicate AllSucceeded(tasks: map<TaskId, Task>, j: JobId) {
    forall t | t in tasks && tasks[t].job == j :: tasks[t].state == TaskSucceeded
  }

  lemma CountPositive(tasks: map<TaskId, Task>, j: JobId, states: set<TaskState>)
    ensures |TasksIn(tasks, j, states)| > 0 <==>
            exists t :: t in tasks && tasks[t].job == j && tasks[t].state in states
  {
    var s := TasksIn(tasks, j, states);
    if t :| t in tasks && tasks[t].job == j && tasks[t].state in states {
      assert t in s;
    }
    if |s| > 0 {
      var t :| t in s;
    }
  }

  /** The counts say exactly which kinds of task the job has. */
  lemma DerivedMeaning(tasks: map<TaskId, Task>, j: JobId)
    ensures DerivedJobState(tasks, j) == JobFailed <==> Has(tasks, j, TaskFailed)
    ensures DerivedJobState(tasks, j) == JobCancelled <==>
            !Has(tasks, j, TaskFailed) && Has(tasks, j, TaskCancelled)
    ensures DerivedJobState(tasks, j) == JobSucceeded <==> AllSucceeded(tasks, j)
    ensures DerivedJobState(tasks, j) == JobPending <==>
            !AllSucceeded(tasks, j) &&
            forall t | t in tasks && tasks[t].job == j :: tasks[t].state in {TaskPending, TaskQueued}
  {
    CountPositive(tasks, j, {TaskFailed});
    CountPositive(tasks, j, {TaskCancelled});
    CountPositive(tasks, j, {TaskSucceeded});
    CountPositive(tasks, j, {TaskLeased, TaskRunning});
    var all, done := TasksOf(tasks, j), TasksIn(tasks, j, {TaskSucceeded});
    assert done <= all;
    if |done| == |all| {
      SubsetOfSameSize(done, all);
      forall t | t in tasks && tasks[t].job == j ensures tasks[t].state == TaskSucceeded {
        assert t in all;
      }
    }
    if AllSucceeded(tasks, j) {
      assert done == all;
    }
  }

  lemma SubsetOfSameSize<T>(a: set<T>, b: set<T>)
    requires a <= b && |a| == |b|
    ensures a == b
  {
    assert |b - a| == |b| - |a|;
    assert b == a + (b - a);
  }

  /** What reconcileJob can tell apart: leased and running look alike, and so do pending and queued. */
  function Kind(s: TaskState): int {
    match s
    case TaskPending => 0
    case TaskQueued => 0
    case TaskLeased => 1
    case TaskRunning => 1
    case TaskSucceeded => 2
    case TaskFailed => 3
    case TaskCancelled => 4
  }

  ghost predicate SameKinds(tasks: map<TaskId, Task>, tasks': map<TaskId, Task>, j: JobId) {
    && (forall t | t in tasks && tasks[t].job == j ::
          t in tasks' && tasks'[t].job == j && Kind(tasks'[t].state) == Kind(tasks[t].state))
    && (forall t | t in tasks' && tasks'[t].job == j :: t in tasks && tasks[t].job == j)
  }

  lemma DerivedFrame(tasks: map<TaskId, Task>, tasks': map<TaskId, Task>, j: JobId)
    requires SameKinds(tasks, tasks', j)
    ensures DerivedJobState(tasks', j) == DerivedJobState(tasks, j)
  {
    assert TasksOf(tasks', j) == TasksOf(tasks, j);
    assert TasksIn(tasks', j, {TaskSucceeded}) == TasksIn(tasks, j, {TaskSucceeded});
    assert TasksIn(tasks', j, {TaskFailed}) == TasksIn(tasks, j, {TaskFailed});
    assert TasksIn(tasks', j, {TaskCancelled}) == TasksIn(tasks, j, {TaskCancelled});
    assert TasksIn(tasks', j, {TaskLeased, TaskRunning}) == TasksIn(tasks, j, {TaskLeased, TaskRunning});
  }
}
