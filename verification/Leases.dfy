/**
 Deadlines: cancelled work winds down, and a worker that keeps reporting is never reclaimed.
 */
module Leases {
  import opened States
  import opened Rows
  import opened Protocol
  import opened Sweep
  import opened Invariant
  import opened Preservation
  import opened Creation
  import opened Steps
  import opened Progression
  import opened Safety

  // ---- what moves a deadline ----

  /** The reports that renew a lease: they hold it, the task is not cancelled, and a Start has not happened twice. */
  ghost predicate Renews(db: DB, e: Event, a: AttemptId) {
    match e
    case Assign(_, t, b, _) => b == a && a !in db.attempts && Enabled(db, e)
    case Started(b, w, _) =>
      b == a && Holds(db, a, w) && db.attempts[a].state == AttemptLeased && db.tasks[db.attempts[a].task].state != TaskCancelled
    case Heartbeat(b, w, _, _) =>
      b == a && Holds(db, a, w) && db.tasks[db.attempts[a].task].state != TaskCancelled
    case _ => false
  }

  ghost function TtlOf(e: Event): nat {
    match e
    case Assign(_, _, _, ttl) => ttl
    case Started(_, _, ttl) => ttl
    case Heartbeat(_, _, _, ttl) => ttl
    case _ => 0
  }

  lemma {:induction false} SweepMovesNoDeadline(db: DB, batch: seq<AttemptId>, a: AttemptId)
    requires a in db.attempts
    ensures a in ReclaimEach(db, batch).attempts
    ensures ReclaimEach(db, batch).attempts[a].leaseExpiresAt == db.attempts[a].leaseExpiresAt
    decreases |batch|
  {
    if batch != [] {
      if Expired(db, batch[0]) {
        SweepMovesNoDeadline(ReclaimRow(db, ReadRow(db, batch[0])).After(db), batch[1..], a);
      } else {
        SweepMovesNoDeadline(db, batch[1..], a);
      }
    }
  }

  /** A deadline changes only by a renewal, and a renewal sets it to one time-to-live from now. */
  lemma DeadlineMoves(db: DB, e: Event, a: AttemptId)
    requires Inv(db) && Enabled(db, e) && a in Apply(db, e).attempts
    ensures if Renews(db, e, a)
            then Apply(db, e).attempts[a].leaseExpiresAt == db.now + TtlOf(e)
            else a in db.attempts && Apply(db, e).attempts[a].leaseExpiresAt == db.attempts[a].leaseExpiresAt
  {
    match e
    case Submit(_, _, _, _, _, _) => SubmitMovesNoDeadline(db, e);
    case Swept(limit, batch) =>
      BatchIsSequential(db, limit, batch);
      SweepAddsNoAttempt(db, batch);
      if a in db.attempts { SweepMovesNoDeadline(db, batch, a); }
    case Started(b, w, ttl) =>
      if a in db.attempts && Holds(db, a, w) { LiveAttempt(db, a); }
    case Finished(b, w, report) => CompleteMovesNoDeadline(db, b, w, report, a);
    case _ =>
  }

  lemma SubmitMovesNoDeadline(db: DB, e: Event)
    requires e.Submit? && Enabled(db, e)
    ensures Apply(db, e).attempts == db.attempts
  {
    if Apply(db, e) != db { CreateInserts(db, e.tenant, e.key, e.priority, e.specs, e.newJob, e.uuids); }
  }

  lemma CompleteMovesNoDeadline(db: DB, b: AttemptId, w: WorkerId, report: Report, a: AttemptId)
    ensures var db' := Complete(db, b, w, report).After(db);
            && db'.attempts.Keys == db.attempts.Keys
            && (a in db.attempts ==> db'.attempts[a].leaseExpiresAt == db.attempts[a].leaseExpiresAt)
  {
  }

  // ---- after Cancel ----

  lemma {:induction false} CancelledDeadlineFrozen(r: Run, i: nat, k: nat, a: AttemptId)
    requires FromEmpty(r) && i <= k < |r.states|
    requires a in r.states[i].attempts && r.states[i].attempts[a].task in r.states[i].tasks
    requires r.states[i].tasks[r.states[i].attempts[a].task].state == TaskCancelled
    ensures a in r.states[k].attempts
    ensures r.states[k].attempts[a].leaseExpiresAt == r.states[i].attempts[a].leaseExpiresAt
    decreases k
  {
    RunAdvances(r, i, k);
    assert AttemptAdvances(r.states[i], r.states[k], a);
    if i < k {
      CancelledDeadlineFrozen(r, i, k - 1, a);
      ReachableInv(r, k - 1);
      RunAdvances(r, i, k - 1);
      assert AttemptAdvances(r.states[i], r.states[k - 1], a);
      assert TaskAdvances(r.states[i], r.states[k - 1], r.states[i].attempts[a].task);
      assert StepOf(r, k - 1);
      DeadlineMoves(r.states[k - 1], r.events[k - 1], a);
    }
  }

  /**
   Once a job is cancelled nothing of it is leased again: its tasks are succeeded or cancelled for good, no attempt
   is added, and the deadline of a worker still running never moves again.
   */
  lemma CancelIsFinal(r: Run, i: nat, k: nat, j: JobId)
    requires FromEmpty(r) && i <= k < |r.states|
    requires j in r.states[i].jobs && r.states[i].jobs[j].state == JobCancelled
    ensures var x, y := r.states[i], r.states[k];
            && (forall t | t in y.tasks && y.tasks[t].job == j ::
                  t in x.tasks && y.tasks[t] == x.tasks[t] && y.tasks[t].state in {TaskSucceeded, TaskCancelled})
            && (forall a | a in y.attempts && y.attempts[a].task in y.tasks && y.tasks[y.attempts[a].task].job == j ::
                  a in x.attempts && y.attempts[a].leaseExpiresAt == x.attempts[a].leaseExpiresAt)
  {
    var x, y := r.states[i], r.states[k];
    ReachableInv(r, i);
    ReachableInv(r, k);
    RunAdvances(r, i, k);
    JobStateIsDerived(r, i, j);
    var c :| c in x.tasks && x.tasks[c].job == j && x.tasks[c].state == TaskCancelled;
    forall t | t in y.tasks && y.tasks[t].job == j
      ensures t in x.tasks && y.tasks[t] == x.tasks[t] && y.tasks[t].state in {TaskSucceeded, TaskCancelled}
    {
      assert TaskIsOld(x, y, t);
      assert TaskAdvances(x, y, t);
      assert CancelOk(x.tasks, c, t);
    }
    forall a | a in y.attempts && y.attempts[a].task in y.tasks && y.tasks[y.attempts[a].task].job == j
      ensures a in x.attempts && y.attempts[a].leaseExpiresAt == x.attempts[a].leaseExpiresAt
    {
      NoNewAttempt(x, y, a);
      var t := y.attempts[a].task;
      assert AttemptAdvances(x, y, a);
      if x.tasks[t].state == TaskCancelled {
        CancelledDeadlineFrozen(r, i, k, a);
      } else {
        assert AttemptOk(x, a);
      }
    }
  }

  /** An attempt of a task whose row has not changed is not a new attempt. */
  lemma NoNewAttempt(x: DB, y: DB, a: AttemptId)
    requires Inv(x) && Inv(y) && Advances(x, y)
    requires a in y.attempts && y.attempts[a].task in x.tasks && y.attempts[a].task in y.tasks
    requires y.tasks[y.attempts[a].task] == x.tasks[y.attempts[a].task]
    ensures a in x.attempts
  {
    var t, n := y.attempts[a].task, y.attempts[a].number;
    assert AttemptOk(y, a);
    assert TaskOk(x, t);
    assert NumberTaken(x.attempts, t, n);
    var b :| b in x.attempts && x.attempts[b].task == t && x.attempts[b].number == n;
    assert AttemptAdvances(x, y, b);
    assert SameNumber(y.attempts, a, b);
  }

  // ---- a worker that keeps reporting ----

  /** Every lease, Start and Progress of the run uses the configured time-to-live. */
  ghost predicate UniformTtl(r: Run, ttl: nat) {
    forall i | 0 <= i < |r.events| && (r.events[i].Assign? || r.events[i].Started? || r.events[i].Heartbeat?) ::
      TtlOf(r.events[i]) == ttl
  }

  /** At every sweep that meets attempt a alive and not cancelled, its last renewal is at most one ttl old. */
  ghost predicate KeepsReporting(r: Run, ttl: nat, a: AttemptId)
    requires |r.states| == |r.events| + 1
  {
    forall k: nat | k < |r.events| && r.events[k].Swept? && StillWanted(r.states[k], a) ::
      exists i: nat :: i < k && RenewedAt(r, i, a) && r.states[k].now <= r.states[i].now + ttl
  }

  ghost predicate RenewedAt(r: Run, i: nat, a: AttemptId)
    requires |r.states| == |r.events| + 1
  {
    i < |r.events| && Renews(r.states[i], r.events[i], a)
  }

  ghost predicate StillWanted(db: DB, a: AttemptId) {
    && a in db.attempts && db.attempts[a].state.IsLive()
    && db.attempts[a].task in db.tasks && db.tasks[db.attempts[a].task].state != TaskCancelled
  }

  /** From a renewal on, the deadline is never earlier than one ttl after it. */
  lemma {:induction false} RenewalLasts(r: Run, ttl: nat, a: AttemptId, i: nat, k: nat)
    requires FromEmpty(r) && UniformTtl(r, ttl) && i < k < |r.states| && RenewedAt(r, i, a)
    ensures a in r.states[k].attempts && r.states[k].attempts[a].leaseExpiresAt >= r.states[i].now + ttl
    decreases k
  {
    ReachableInv(r, k - 1);
    assert StepOf(r, k - 1);
    var db, e := r.states[k - 1], r.events[k - 1];
    if k - 1 == i {
      RenewalShows(db, e, a);
    } else {
      RenewalLasts(r, ttl, a, i, k - 1);
      StepAdvances(db, e);
      assert AttemptAdvances(db, r.states[k], a);
      RunAdvances(r, i, k - 1);
    }
    DeadlineMoves(db, e, a);
  }

  lemma RenewalShows(db: DB, e: Event, a: AttemptId)
    requires Inv(db) && Enabled(db, e) && Renews(db, e, a)
    ensures a in Apply(db, e).attempts
  {
    if e.Assign? {
      LeaseKeeps(db, e.task, a, e.facts.id, e.ttl);
    }
  }

  /**
   An attempt whose lease, Start and Progress steps are never more than one time-to-live apart is never reclaimed:
   no sweep expires it unless its task was cancelled.
   */
  lemma KeptAlive(r: Run, ttl: nat, a: AttemptId, k: nat)
    requires FromEmpty(r) && UniformTtl(r, ttl) && KeepsReporting(r, ttl, a)
    requires k < |r.events| && r.events[k].Swept? && StillWanted(r.states[k], a)
    ensures a in r.states[k + 1].attempts && r.states[k + 1].attempts[a] == r.states[k].attempts[a]
  {
    var i: nat :| i < k && RenewedAt(r, i, a) && r.states[k].now <= r.states[i].now + ttl;
    RenewalLasts(r, ttl, a, i, k);
    ReachableInv(r, k);
    assert StepOf(r, k);
    var batch := r.events[k].batch;
    assert !Expired(r.states[k], a);
    assert a !in batch;
    BatchIsSequential(r.states[k], r.events[k].limit, batch);
    SweepLegal(r.states[k], r.events[k].limit, batch);
    assert AttemptMoveLegal(r.states[k], r.states[k + 1], a);
  }
}
