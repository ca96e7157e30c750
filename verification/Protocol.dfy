/**
 The transactions of internal/job as functions from the committed database to either
 a new committed database or a rollback. One transaction is one atomic step; class
 Stores.Store runs the same transactions statement by statement and is proved equal to these.
 */
module Protocol {
  import opened States
  import opened Rows

  datatype Error =
    | ErrNotFound
    | ErrNoTasks
    | ErrBadDepend
    | ErrTaskRejected
    | ErrNoWork
    | ErrStaleAttempt
    | ErrIllegalTransition
    | ErrUniqueViolation

  /** How a transaction ends. A rollback leaves the database as it was. */
  datatype Tx<+T> = Commit(db: DB, value: T) | Rollback(error: Error) {
    function After(before: DB): DB {
      if Commit? then db else before
    }
  }

  // ---- job.go: the shared pieces ----

  /** reconcileJob: the stored state of a job is overwritten with what its tasks imply. */
  function Reconcile(db: DB, j: JobId): DB {
    if j in db.jobs then
      db.(jobs := db.jobs[j := db.jobs[j].(state := DerivedJobState(db.tasks, j))])
    else db
  }

  /** Which tasks releaseDependents' update selects. */
  predicate Releasable(tasks: map<TaskId, Task>, j: JobId, done: TaskId, t: TaskId)
    requires t in tasks
  {
    && tasks[t].job == j
    && tasks[t].state == TaskPending
    && done in tasks[t].dependsOn
    && DependenciesMet(tasks, tasks[t].dependsOn)
  }

  function ReleaseDependents(tasks: map<TaskId, Task>, j: JobId, done: TaskId, now: int): map<TaskId, Task> {
    map t | t in tasks ::
      if Releasable(tasks, j, done, t)
      then tasks[t].(state := TaskQueued, queuedAt := now)
      else tasks[t]
  }

  function SetTask(db: DB, t: TaskId, to: TaskState): DB
    requires t in db.tasks
  {
    var row := db.tasks[t].(
      state := to,
      queuedAt := if to == TaskQueued then db.now else db.tasks[t].queuedAt);
    db.(tasks := db.tasks[t := row])
  }

  function SetAttempt(db: DB, a: AttemptId, to: AttemptState): DB
    requires a in db.attempts
  {
    db.(attempts := db.attempts[a := db.attempts[a].(state := to)])
  }

  /** Complete's update: a success is all of the work, and a failure says nothing about how much. */
  function EndAttempt(db: DB, a: AttemptId, to: AttemptState): DB
    requires a in db.attempts
  {
    var pct := if to == AttemptSucceeded then Some(100.0) else None;
    db.(attempts := db.attempts[a := db.attempts[a].(state := to, progressPct := pct)])
  }

  function TransitionTx(db: DB, t: TaskId, to: TaskState): Tx<JobId> {
    if t !in db.tasks then Rollback(ErrNotFound)
    else if !CanTransitionTask(db.tasks[t].state, to) then Rollback(ErrIllegalTransition)
    else
      var j := db.tasks[t].job;
      var moved := SetTask(db, t, to);
      if to == TaskSucceeded
      then Commit(moved.(tasks := ReleaseDependents(moved.tasks, j, t, db.now)), j)
      else Commit(moved, j)
  }

  // ---- job.go: Create and Cancel ----

  datatype NewTask = NewTask(
    key: string, operation: string, requirements: Requirements,
    dependsOn: seq<string>, priority: int, maxAttempts: int)

  const DEFAULT_MAX_ATTEMPTS: nat := 3

  /** The map `ids` after the first loop of Create: a repeated key keeps its last id. */
  function KeyIds(specs: seq<NewTask>, uuids: seq<TaskId>): map<string, TaskId>
    requires |specs| == |uuids|
  {
    if specs == [] then map[]
    else KeyIds(specs[..|specs| - 1], uuids[..|specs| - 1])[specs[|specs| - 1].key := uuids[|specs| - 1]]
  }

  predicate DependenciesKnown(specs: seq<NewTask>, ids: map<string, TaskId>) {
    forall i, d | 0 <= i < |specs| && d in specs[i].dependsOn :: d in ids
  }

  function DependencyIds(keys: seq<string>, ids: map<string, TaskId>): seq<TaskId>
    requires forall k | k in keys :: k in ids
  {
    seq(|keys|, i requires 0 <= i < |keys| => ids[keys[i]])
  }

  function NewRow(spec: NewTask, ids: map<string, TaskId>, j: JobId, tenant: TenantId,
                  priority: int, now: int): Task
    requires forall k | k in spec.dependsOn :: k in ids
  {
    Task(j, tenant, spec.operation, spec.requirements, DependencyIds(spec.dependsOn, ids),
         if spec.priority <= 0 then priority else spec.priority,
         if spec.dependsOn == [] then TaskQueued else TaskPending,
         0,
         if spec.maxAttempts <= 0 then DEFAULT_MAX_ATTEMPTS else spec.maxAttempts,
         now)
  }

  /** The column check on tasks.operation. */
  predicate KnownOperation(operation: string) {
    operation in {"probe", "plan", "encode", "package", "protect", "thumbnail",
                  "subtitle", "audio", "transcribe", "clip", "watermark", "validate"}
  }

  /** The insert loop of Create over a prefix of the specs; a primary key collision or an unknown operation aborts it. */
  function InsertTasks(tasks: map<TaskId, Task>, specs: seq<NewTask>, ids: map<string, TaskId>,
                       j: JobId, tenant: TenantId, priority: int, now: int): Option<map<TaskId, Task>>
    requires forall i | 0 <= i < |specs| :: specs[i].key in ids
    requires DependenciesKnown(specs, ids)
  {
    if specs == [] then Some(tasks)
    else
      var last := specs[|specs| - 1];
      match InsertTasks(tasks, specs[..|specs| - 1], ids, j, tenant, priority, now)
      case None => None
      case Some(before) =>
        if ids[last.key] in before || !KnownOperation(last.operation) then None
        else Some(before[ids[last.key] := NewRow(last, ids, j, tenant, priority, now)])
  }

  /** The job an earlier submission with this key made, if there is one. */
  predicate SameSubmission(job: Job, tenant: TenantId, key: Option<string>) {
    key.Some? && job.tenant == tenant && job.idempotencyKey == key
  }

  lemma {:induction false} KeyIdsDomain(specs: seq<NewTask>, uuids: seq<TaskId>)
    requires |specs| == |uuids|
    ensures forall i | 0 <= i < |specs| :: specs[i].key in KeyIds(specs, uuids)
    ensures forall k | k in KeyIds(specs, uuids) ::
              exists i :: 0 <= i < |specs| && specs[i].key == k && uuids[i] == KeyIds(specs, uuids)[k]
  {
    if specs != [] {
      var n := |specs| - 1;
      KeyIdsDomain(specs[..n], uuids[..n]);
    }
  }

  /** Create, given the identifiers it draws: `j` for the job, `uuids` for its tasks. A repeat breaks a primary key. */
  ghost function Create(db: DB, tenant: TenantId, key: Option<string>, priority: int,
                  specs: seq<NewTask>, j: JobId, uuids: seq<TaskId>): Tx<JobId>
    requires |specs| == |uuids|
  {
    var ids := KeyIds(specs, uuids);
    if specs == [] then Rollback(ErrNoTasks)
    else if !DependenciesKnown(specs, ids) then Rollback(ErrBadDepend)
    else if exists k :: k in db.jobs && SameSubmission(db.jobs[k], tenant, key) then
      var k :| k in db.jobs && SameSubmission(db.jobs[k], tenant, key);
      Commit(db, k)
    else if j in db.jobs then Rollback(ErrUniqueViolation)
    else
      KeyIdsDomain(specs, uuids);
      match InsertTasks(db.tasks, specs, ids, j, tenant, priority, db.now)
      case None => Rollback(ErrTaskRejected)
      case Some(tasks) =>
        Commit(db.(jobs := db.jobs[j := Job(tenant, key, priority, JobPending)], tasks := tasks), j)
  }

  predicate Cancellable(s: TaskState) {
    s in {TaskPending, TaskQueued, TaskLeased, TaskRunning}
  }

  function CancelTasks(tasks: map<TaskId, Task>, j: JobId): map<TaskId, Task> {
    map t | t in tasks ::
      if tasks[t].job == j && Cancellable(tasks[t].state)
      then tasks[t].(state := TaskCancelled)
      else tasks[t]
  }

  function Cancel(db: DB, tenant: TenantId, j: JobId): Tx<()> {
    if j !in db.jobs || db.jobs[j].tenant != tenant then Rollback(ErrNotFound)
    else if db.jobs[j].state.IsTerminal() then Commit(db, ())
    else Commit(db.(tasks := CancelTasks(db.tasks, j),
                    jobs := db.jobs[j := db.jobs[j].(state := JobCancelled)]), ())
  }

  // ---- lease.go ----

  /** withAttempt's join and its two refusals: wrong owner (or no such row), and already ended. */
  predicate Holds(db: DB, a: AttemptId, w: WorkerId) {
    && a in db.attempts
    && db.attempts[a].worker == w
    && db.attempts[a].task in db.tasks
    && db.tasks[db.attempts[a].task].job in db.jobs
    && !db.attempts[a].state.IsTerminal()
  }

  function Start(db: DB, a: AttemptId, w: WorkerId, ttl: nat): Tx<()> {
    if !Holds(db, a, w) then Rollback(ErrStaleAttempt)
    else
      var at := db.attempts[a];
      if db.tasks[at.task].state == TaskCancelled then Commit(SetAttempt(db, a, AttemptCancelled), ())
      else if !CanTransitionAttempt(at.state, AttemptRunning) then Rollback(ErrIllegalTransition)
      else
        var started := db.(attempts :=
          db.attempts[a := at.(state := AttemptRunning, leaseExpiresAt := db.now + ttl)]);
        match TransitionTx(started, at.task, TaskRunning)
        case Commit(db', _) => Commit(db', ())
        case Rollback(e) => Rollback(e)
  }

  /** The value is `cancelled`, the answer that rides the heartbeat. */
  function Progress(db: DB, a: AttemptId, w: WorkerId, pct: real, ttl: nat): Tx<bool> {
    if !Holds(db, a, w) then Rollback(ErrStaleAttempt)
    else
      var at := db.attempts[a];
      if db.tasks[at.task].state == TaskCancelled then Commit(db, true)
      else Commit(db.(attempts :=
        db.attempts[a := at.(progressPct := Some(pct), leaseExpiresAt := db.now + ttl)]), false)
  }

  datatype Report = Report(success: bool, failureClass: FailureClass)

  datatype Completion = Completion(
    operation: string, task: TaskId, job: JobId, succeeded: bool, retrying: bool, jobState: JobState)

  function NormalClass(c: FailureClass): FailureClass {
    if c.Valid() then c else ClassUnknown
  }

  /** The retry policy: worth retrying, and budget left. */
  predicate Retries(task: Task, c: FailureClass) {
    NormalClass(c).Retryable() && task.attemptCount < task.maxAttempts
  }

  function CompletionOf(db: DB, t: TaskId, succeeded: bool, retrying: bool): Completion
    requires t in db.tasks && db.tasks[t].job in db.jobs
  {
    Completion(db.tasks[t].operation, t, db.tasks[t].job, succeeded, retrying,
               db.jobs[db.tasks[t].job].state)
  }

  function Complete(db: DB, a: AttemptId, w: WorkerId, res: Report): Tx<Completion> {
    if !Holds(db, a, w) then Rollback(ErrStaleAttempt)
    else
      var at := db.attempts[a];
      var t := at.task;
      if db.tasks[t].state == TaskCancelled then
        var closed := SetAttempt(db, a, AttemptCancelled);
        Commit(closed, CompletionOf(closed, t, false, false))
      else
        var attemptTo := if res.success then AttemptSucceeded else AttemptFailed;
        if !CanTransitionAttempt(at.state, attemptTo) then Rollback(ErrIllegalTransition)
        else
          var ended := EndAttempt(db, a, attemptTo);
          if res.success then
            match TransitionTx(ended, t, TaskSucceeded)
            case Rollback(e) => Rollback(e)
            case Commit(moved, j) =>
              var final := Reconcile(moved, j);
              Commit(final, CompletionOf(final, t, true, false))
          else
            var retrying := Retries(db.tasks[t], res.failureClass);
            var to := if retrying then TaskQueued else TaskFailed;
            if !CanTransitionTask(db.tasks[t].state, to) then Rollback(ErrIllegalTransition)
            else
              var final := Reconcile(SetTask(ended, t, to), db.tasks[t].job);
              Commit(final, CompletionOf(final, t, false, retrying))
  }

  /** AuthorizeAttempt: the job the caller may write results for. */
  function AuthorizeAttempt(db: DB, a: AttemptId, w: WorkerId): Tx<JobId> {
    if !Holds(db, a, w) then Rollback(ErrStaleAttempt)
    else if db.tasks[db.attempts[a].task].state == TaskCancelled then Rollback(ErrStaleAttempt)
    else Commit(db, db.tasks[db.attempts[a].task].job)
  }

  // ---- schedule.go: what Lease writes once it has chosen a task ----

  /** Two rows may not share (task_id, attempt_number). */
  predicate NumberTaken(attempts: map<AttemptId, Attempt>, t: TaskId, n: nat) {
    exists a :: a in attempts && attempts[a].task == t && attempts[a].number == n
  }

  /**
   The writes of Lease for the chosen task, with the attempt count the query returned.
   `number` is that count plus one; the insert fails if the number is already used.
   */
  function LeaseWrites(db: DB, t: TaskId, number: nat, a: AttemptId, w: WorkerId, ttl: nat): Tx<AttemptId>
    requires t in db.tasks
  {
    if a in db.attempts || NumberTaken(db.attempts, t, number) then Rollback(ErrUniqueViolation)
    else
      var leased := db.(
        tasks := db.tasks[t := db.tasks[t].(state := TaskLeased, attemptCount := number)],
        attempts := db.attempts[a := Attempt(t, number, w, AttemptLeased, db.now + ttl, None)]);
      Commit(Reconcile(leased, db.tasks[t].job), a)
  }

  // ---- expire.go ----

  /** One row of the sweep's query: the attempt joined with its task as they were when it was read. */
  datatype SweepRow = SweepRow(
    attempt: AttemptId, task: TaskId, job: JobId, taskState: TaskState, attemptCount: nat, maxAttempts: nat)

  predicate Expired(db: DB, a: AttemptId) {
    && a in db.attempts
    && db.attempts[a].state.IsLive()
    && db.attempts[a].leaseExpiresAt < db.now
    && db.attempts[a].task in db.tasks
  }

  function ReadRow(db: DB, a: AttemptId): SweepRow
    requires Expired(db, a)
  {
    var t := db.attempts[a].task;
    var task := db.tasks[t];
    SweepRow(a, t, task.job, task.state, task.attemptCount, task.maxAttempts)
  }

  /** The body of the sweep's loop: every decision is taken from the row, every write goes to `db`. */
  function ReclaimRow(db: DB, r: SweepRow): Tx<bool>
    requires r.attempt in db.attempts && r.task in db.tasks
  {
    var expired := SetAttempt(db, r.attempt, AttemptExpired);
    if r.taskState == TaskCancelled || r.taskState.IsTerminal() then Commit(expired, false)
    else
      var requeue := r.attemptCount < r.maxAttempts;
      var to := if requeue then TaskQueued else TaskFailed;
      if !CanTransitionTask(r.taskState, to) then Rollback(ErrIllegalTransition)
      else Commit(Reconcile(SetTask(expired, r.task, to), r.job), requeue)
  }
}
