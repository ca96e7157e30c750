/**
 Every run does a bounded amount of work: each attempt is leased, started and ended at most once, the attempts fit
 the retry budgets, and each job ends at most once.
 */
module Work {
  import opened States
  import opened Rows
  import opened Protocol
  import opened Sweep
  import opened Invariant
  import opened Preservation
  import opened Creation
  import opened Steps
  import opened Progression
  import opened Safety
  import opened Slots

  ghost function Begun(db: DB): set<AttemptId> {
    set a | a in db.attempts && db.attempts[a].state != AttemptLeased
  }

  ghost function Ended(db: DB): set<AttemptId> {
    set a | a in db.attempts && db.attempts[a].state.IsTerminal()
  }

  ghost function Closed(db: DB): set<JobId> {
    set j | j in db.jobs && db.jobs[j].state.IsTerminal()
  }

  /** How much has happened: leases, begun attempts, ended attempts and closed jobs. */
  ghost function Done(db: DB): nat {
    |db.attempts| + |Begun(db)| + |Ended(db)| + |Closed(db)|
  }

  /** The step changes the state of a task, an attempt or a job that was already there, or adds an attempt. */
  ghost predicate Changes(db: DB, db': DB) {
    || (exists t :: t in db.tasks && t in db'.tasks && db.tasks[t].state != db'.tasks[t].state)
    || (exists a :: a in db'.attempts && (a !in db.attempts || db.attempts[a].state != db'.attempts[a].state))
    || (exists j :: j in db.jobs && j in db'.jobs && db.jobs[j].state != db'.jobs[j].state)
  }

  /** Nothing that happened is undone. */
  ghost predicate Grown(db: DB, db': DB) {
    db.attempts.Keys <= db'.attempts.Keys && Begun(db) <= Begun(db') && Ended(db) <= Ended(db') && Closed(db) <= Closed(db')
  }

  /** An attempt is added, begun or ended, or a job is closed. */
  ghost predicate Works(db: DB, db': DB) {
    || (exists a :: a in db'.attempts && a !in db.attempts)
    || (exists a :: AttemptMoved(db, db', a))
    || (exists j :: j in db.jobs && j in db'.jobs && !db.jobs[j].state.IsTerminal() && db'.jobs[j].state.IsTerminal())
  }

  lemma DoneGrows(db: DB, e: Event)
    requires Inv(db) && Enabled(db, e)
    ensures Grown(db, Apply(db, e))
  {
    var db' := Apply(db, e);
    StepAdvances(db, e);
    StepIsLegal(db, e);
    forall a | a in db.attempts
      ensures a in db'.attempts && (a in Begun(db) ==> a in Begun(db')) && (a in Ended(db) ==> a in Ended(db'))
    {
      assert AttemptAdvances(db, db', a);
      assert AttemptMoveLegal(db, db', a);
    }
    forall j | j in Closed(db) ensures j in Closed(db') {
      assert JobAdvances(db, db', j);
    }
  }

  /** Submitting adds rows only. */
  lemma SubmitChangesNothing(db: DB, e: Event)
    requires e.Submit? && Enabled(db, e)
    ensures !Changes(db, Apply(db, e))
  {
    if Apply(db, e) != db { CreateInserts(db, e.tenant, e.key, e.priority, e.specs, e.newJob, e.uuids); }
  }

  lemma CompletionEnds(db: DB, a: AttemptId, w: WorkerId, report: Report)
    requires Inv(db)
    ensures var tx := Complete(db, a, w, report);
            tx.Commit? ==> a in db.attempts && db.attempts[a].state.IsLive()
                           && a in tx.db.attempts && tx.db.attempts[a].state.IsTerminal()
  {
    if Holds(db, a, w) { LiveAttempt(db, a); }
  }

  ghost predicate AttemptMoved(db: DB, db': DB, a: AttemptId) {
    a in db.attempts && a in db'.attempts && db.attempts[a].state != db'.attempts[a].state
  }

  lemma StopIsWork(db: DB, tenant: TenantId, j: JobId)
    requires Changes(db, Cancel(db, tenant, j).After(db))
    ensures Works(db, Cancel(db, tenant, j).After(db))
  {
    var db' := Cancel(db, tenant, j).After(db);
    assert j in db.jobs && j in db'.jobs && !db.jobs[j].state.IsTerminal() && db'.jobs[j].state.IsTerminal();
  }

  lemma AssignIsWork(db: DB, t: TaskId, a: AttemptId, w: WorkerId, ttl: nat)
    requires t in db.tasks && Changes(db, LeaseWrites(db, t, db.tasks[t].attemptCount + 1, a, w, ttl).After(db))
    ensures Works(db, LeaseWrites(db, t, db.tasks[t].attemptCount + 1, a, w, ttl).After(db))
  {
    var db' := LeaseWrites(db, t, db.tasks[t].attemptCount + 1, a, w, ttl).After(db);
    assert a in db'.attempts && a !in db.attempts;
  }

  lemma StartIsWork(db: DB, a: AttemptId, w: WorkerId, ttl: nat)
    requires Changes(db, Start(db, a, w, ttl).After(db))
    ensures Works(db, Start(db, a, w, ttl).After(db))
  {
    assert AttemptMoved(db, Start(db, a, w, ttl).After(db), a);
  }

  lemma CompleteIsWork(db: DB, a: AttemptId, w: WorkerId, report: Report)
    requires Inv(db) && Changes(db, Complete(db, a, w, report).After(db))
    ensures Works(db, Complete(db, a, w, report).After(db))
  {
    CompletionEnds(db, a, w, report);
    assert AttemptMoved(db, Complete(db, a, w, report).After(db), a);
  }

  lemma SweepIsWork(db: DB, limit: nat, batch: seq<AttemptId>)
    requires Inv(db) && Batch(db, limit, batch) && Changes(db, ExpireLeases(db, batch).After(db))
    ensures Works(db, ExpireLeases(db, batch).After(db))
  {
    BatchIsSequential(db, limit, batch);
    if batch != [] {
      SweepExpires(db, limit, batch);
      assert AttemptMoved(db, ExpireLeases(db, batch).After(db), batch[0]);
    }
  }

  /** A step that changes anything adds, begins or ends an attempt, or closes a job. */
  lemma ChangeIsWork(db: DB, e: Event)
    requires Inv(db) && Enabled(db, e) && Changes(db, Apply(db, e))
    ensures Works(db, Apply(db, e))
    ensures !e.Heartbeat? && !e.Submit? && !e.Tick?
  {
    match e
    case Submit(_, _, _, _, _, _) => SubmitChangesNothing(db, e);
    case Stop(tenant, j) => StopIsWork(db, tenant, j);
    case Assign(w, t, a, ttl) => AssignIsWork(db, t, a, w.id, ttl);
    case Started(a, w, ttl) => StartIsWork(db, a, w, ttl);
    case Heartbeat(a, w, pct, ttl) => ProgressChangesNothing(db, a, w, pct, ttl);
    case Finished(a, w, report) => CompleteIsWork(db, a, w, report);
    case Swept(limit, batch) => SweepIsWork(db, limit, batch);
    case Tick(_) =>
  }

  lemma ProgressChangesNothing(db: DB, a: AttemptId, w: WorkerId, pct: real, ttl: nat)
    ensures !Changes(db, Progress(db, a, w, pct, ttl).After(db))
  {
  }

  lemma SweepExpires(db: DB, limit: nat, batch: seq<AttemptId>)
    requires Inv(db) && Batch(db, limit, batch) && batch != []
    ensures batch[0] in ReclaimEach(db, batch).attempts
    ensures ReclaimEach(db, batch).attempts[batch[0]].state == AttemptExpired
  {
    var db1 := ReclaimRow(db, ReadRow(db, batch[0])).After(db);
    ReclaimKeeps(db, batch[0]);
    SweepAdvances(db1, batch[1..]);
    assert AttemptAdvances(db1, ReclaimEach(db1, batch[1..]), batch[0]);
  }

  lemma Grows<T>(a: set<T>, b: set<T>, x: T)
    requires a <= b && x in b && x !in a
    ensures |a| < |b|
  {
    Smaller(a + {x}, b);
  }

  lemma GrownMeansDone(db: DB, db': DB)
    requires Grown(db, db')
    ensures |db.attempts| <= |db'.attempts| && |Begun(db)| <= |Begun(db')|
    ensures |Ended(db)| <= |Ended(db')| && |Closed(db)| <= |Closed(db')|
  {
    Smaller(db.attempts.Keys, db'.attempts.Keys);
    Smaller(Begun(db), Begun(db'));
    Smaller(Ended(db), Ended(db'));
    Smaller(Closed(db), Closed(db'));
  }

  lemma WorkIsCounted(db: DB, db': DB)
    requires Grown(db, db') && LegalStep(db, db') && Works(db, db')
    ensures Done(db') > Done(db)
  {
    GrownMeansDone(db, db');
    if a :| a in db'.attempts && a !in db.attempts {
      Grows(db.attempts.Keys, db'.attempts.Keys, a);
    } else if a :| AttemptMoved(db, db', a) {
      assert AttemptMoveLegal(db, db', a);
      if db.attempts[a].state == AttemptLeased {
        Grows(Begun(db), Begun(db'), a);
      } else {
        Grows(Ended(db), Ended(db'), a);
      }
    } else {
      var j :| j in db.jobs && j in db'.jobs && !db.jobs[j].state.IsTerminal() && db'.jobs[j].state.IsTerminal();
      Grows(Closed(db), Closed(db'), j);
    }
  }

  /** So every such step is paid for. */
  lemma ChangeCosts(db: DB, e: Event)
    requires Inv(db) && Enabled(db, e)
    ensures Done(Apply(db, e)) >= Done(db) + if Changes(db, Apply(db, e)) then 1 else 0
  {
    var db' := Apply(db, e);
    DoneGrows(db, e);
    GrownMeansDone(db, db');
    if Changes(db, db') {
      ChangeIsWork(db, e);
      StepIsLegal(db, e);
      WorkIsCounted(db, db');
    }
  }

  // ---- the budget ----

  /** The sum of max_attempts. */
  ghost function Budget(tasks: map<TaskId, Task>): nat {
    if tasks == map[] then 0
    else
      var t :| t in tasks;
      tasks[t].maxAttempts + Budget(tasks - {t})
  }

  ghost predicate Fit(tasks: map<TaskId, Task>, attempts: map<AttemptId, Attempt>) {
    && NumbersUnique(attempts)
    && (forall a | a in attempts :: attempts[a].task in tasks && 1 <= attempts[a].number <= tasks[attempts[a].task].maxAttempts)
  }

  lemma {:induction false} NumbersBound(attempts: map<AttemptId, Attempt>, n: nat)
    requires forall a, b | a in attempts && b in attempts && attempts[a].number == attempts[b].number :: a == b
    requires forall a | a in attempts :: 1 <= attempts[a].number <= n
    ensures |attempts| <= n
  {
    if n == 0 {
      assert attempts.Keys == {};
    } else if a :| a in attempts && attempts[a].number == n {
      var rest := attempts - {a};
      NumbersBound(rest, n - 1);
      assert attempts.Keys == rest.Keys + {a};
    } else {
      NumbersBound(attempts, n - 1);
    }
  }

  lemma {:induction false} AttemptsFitBudget(tasks: map<TaskId, Task>, attempts: map<AttemptId, Attempt>)
    requires Fit(tasks, attempts)
    ensures |attempts| <= Budget(tasks)
    decreases |tasks|
  {
    if tasks == map[] {
      assert attempts.Keys == {};
    } else {
      var t :| t in tasks && Budget(tasks) == tasks[t].maxAttempts + Budget(tasks - {t});
      OwnAttempts(tasks, attempts, t);
      OtherAttempts(tasks, attempts, t);
      AttemptsFitBudget(tasks - {t}, NotOf(attempts, t));
      assert attempts.Keys == Of(attempts, t).Keys + NotOf(attempts, t).Keys;
    }
  }

  ghost function Of(attempts: map<AttemptId, Attempt>, t: TaskId): map<AttemptId, Attempt> {
    map a | a in attempts && attempts[a].task == t :: attempts[a]
  }

  ghost function NotOf(attempts: map<AttemptId, Attempt>, t: TaskId): map<AttemptId, Attempt> {
    map a | a in attempts && attempts[a].task != t :: attempts[a]
  }

  lemma OwnAttempts(tasks: map<TaskId, Task>, attempts: map<AttemptId, Attempt>, t: TaskId)
    requires Fit(tasks, attempts) && t in tasks
    ensures |Of(attempts, t)| <= tasks[t].maxAttempts
  {
    var own := Of(attempts, t);
    forall a, b | a in own && b in own && own[a].number == own[b].number ensures a == b {
      assert SameNumber(attempts, a, b);
    }
    NumbersBound(own, tasks[t].maxAttempts);
  }

  lemma OtherAttempts(tasks: map<TaskId, Task>, attempts: map<AttemptId, Attempt>, t: TaskId)
    requires Fit(tasks, attempts)
    ensures Fit(tasks - {t}, NotOf(attempts, t))
  {
    var rest := NotOf(attempts, t);
    forall a, b | a in rest && b in rest && SameNumber(rest, a, b) ensures a == b {
      assert SameNumber(attempts, a, b);
    }
  }

  lemma DoneBounded(db: DB)
    requires Inv(db)
    ensures Done(db) <= 3 * Budget(db.tasks) + |db.jobs|
  {
    forall a | a in db.attempts
      ensures db.attempts[a].task in db.tasks
      ensures 1 <= db.attempts[a].number <= db.tasks[db.attempts[a].task].maxAttempts
    {
      assert AttemptOk(db, a);
      assert TaskOk(db, db.attempts[a].task);
    }
    AttemptsFitBudget(db.tasks, db.attempts);
    Smaller(Begun(db), db.attempts.Keys);
    Smaller(Ended(db), db.attempts.Keys);
    Smaller(Closed(db), db.jobs.Keys);
  }

  // ---- over a run ----

  /** How many of the first k steps changed a state. */
  ghost function ChangingSteps(r: Run, k: nat): nat
    requires k < |r.states|
  {
    if k == 0 then 0
    else ChangingSteps(r, k - 1) + if Changes(r.states[k - 1], r.states[k]) then 1 else 0
  }

  lemma {:induction false} ChangesArePaidFor(r: Run, k: nat)
    requires FromEmpty(r) && k < |r.states|
    ensures ChangingSteps(r, k) <= Done(r.states[k])
  {
    if k > 0 {
      ChangesArePaidFor(r, k - 1);
      ReachableInv(r, k - 1);
      assert StepOf(r, k - 1);
      ChangeCosts(r.states[k - 1], r.events[k - 1]);
    }
  }

  /**
   Whatever the workers send and however long the run, at most 3 x (sum of max_attempts) + (number of jobs) steps
   change the state of a task, an attempt or a job.
   */
  lemma RunsAreBounded(r: Run, k: nat)
    requires FromEmpty(r) && k < |r.states|
    ensures ChangingSteps(r, k) <= 3 * Budget(r.states[k].tasks) + |r.states[k].jobs|
  {
    ChangesArePaidFor(r, k);
    ReachableInv(r, k);
    DoneBounded(r.states[k]);
  }
}
