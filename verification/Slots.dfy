/**
 Slot capacity, and the two-phase lease: a candidate chosen from an old snapshot and rechecked under a row lock.
 */
module Slots {
  import opened States
  import opened Rows
  import opened Protocol
  import opened Scheduling
  import opened Sweep
  import opened Invariant
  import opened Creation
  import opened Steps
  import opened Progression

  // ---- attempts come from leases only ----

  ghost predicate Introduces(e: Event, db': DB, a: AttemptId)
    requires a in db'.attempts
  {
    e.Assign? && e.newAttempt == a && db'.attempts[a].worker == e.facts.id && db'.attempts[a].task == e.task
  }

  /** Every attempt row that appears was inserted by a lease, for the leased task and the asking worker. */
  lemma NewAttemptsAreLeases(db: DB, e: Event, a: AttemptId)
    requires Inv(db) && Enabled(db, e) && a in Apply(db, e).attempts && a !in db.attempts
    ensures Introduces(e, Apply(db, e), a)
  {
    match e
    case Submit(tenant, key, priority, specs, j, uuids) =>
      if Apply(db, e) != db { CreateInserts(db, tenant, key, priority, specs, j, uuids); }
    case Swept(limit, batch) =>
      BatchIsSequential(db, limit, batch);
      SweepAddsNoAttempt(db, batch);
    case _ =>
  }

  // ---- a worker's held slots only grow by its own leases ----

  lemma HeldSlotsShrink(db: DB, e: Event, w: WorkerId, class_: string)
    requires Inv(db) && Enabled(db, e)
    ensures var before, after := HeldSlots(db, w, class_), HeldSlots(Apply(db, e), w, class_);
            if e.Assign? && e.facts.id == w && db.tasks[e.task].SlotClass() == class_
            then after <= before + {e.newAttempt}
            else after <= before
  {
    var db' := Apply(db, e);
    StepKeeps(db, e);
    StepAdvances(db, e);
    forall a | a in HeldSlots(db', w, class_)
      ensures a in HeldSlots(db, w, class_) ||
              (Introduces(e, db', a) && e.facts.id == w && db.tasks[e.task].SlotClass() == class_)
    {
      if a in db.attempts {
        assert AttemptAdvances(db, db', a);
        assert AttemptOk(db, a);
        assert TaskAdvances(db, db', db.attempts[a].task);
      } else {
        NewAttemptsAreLeases(db, e, a);
        assert TaskAdvances(db, db', e.task);
      }
    }
  }

  /** A declared capacity; undeclared and negative count as zero. */
  function Capacity(caps: map<WorkerId, map<string, int>>, w: WorkerId, class_: string): nat {
    if w in caps && class_ in caps[w] && caps[w][class_] > 0 then caps[w][class_] else 0
  }

  ghost predicate WithinCapacity(db: DB, caps: map<WorkerId, map<string, int>>) {
    forall w, class_ :: |HeldSlots(db, w, class_)| <= Capacity(caps, w, class_)
  }

  /** In this run every worker asks with the capacity it declared. */
  ghost predicate Declares(r: Run, caps: map<WorkerId, map<string, int>>) {
    forall i | 0 <= i < |r.events| && r.events[i].Assign? ::
      r.events[i].facts.id in caps && r.events[i].facts.slotCapacity == caps[r.events[i].facts.id]
  }

  lemma Smaller<T>(a: set<T>, b: set<T>)
    requires a <= b
    ensures |a| <= |b|
  {
    assert b == a + (b - a);
  }

  lemma StepWithinCapacity(db: DB, e: Event, caps: map<WorkerId, map<string, int>>)
    requires Inv(db) && Enabled(db, e) && WithinCapacity(db, caps)
    requires e.Assign? ==> e.facts.id in caps && e.facts.slotCapacity == caps[e.facts.id]
    ensures WithinCapacity(Apply(db, e), caps)
  {
    forall w, class_ ensures |HeldSlots(Apply(db, e), w, class_)| <= Capacity(caps, w, class_) {
      var before, after := HeldSlots(db, w, class_), HeldSlots(Apply(db, e), w, class_);
      HeldSlotsShrink(db, e, w, class_);
      if e.Assign? && e.facts.id == w && db.tasks[e.task].SlotClass() == class_ {
        Smaller(after, before + {e.newAttempt});
      } else {
        Smaller(after, before);
      }
    }
  }

  /** Over every interleaving, no worker ever holds more live attempts of a class than it declared room for. */
  lemma {:induction false} CapacityHolds(r: Run, caps: map<WorkerId, map<string, int>>, i: nat)
    requires FromEmpty(r) && Declares(r, caps) && i < |r.states|
    ensures WithinCapacity(r.states[i], caps)
  {
    if i == 0 {
      forall w, class_ ensures |HeldSlots(r.states[0], w, class_)| <= Capacity(caps, w, class_) {
        assert HeldSlots(r.states[0], w, class_) == {};
      }
    } else {
      CapacityHolds(r, caps, i - 1);
      ReachableInv(r, i - 1);
      assert StepOf(r, i - 1);
      StepWithinCapacity(r.states[i - 1], r.events[i - 1], caps);
    }
  }

  // ---- the tenant's quota, for atomic leases ----

  lemma ActiveShrinks(db: DB, e: Event, tenant: TenantId)
    requires Inv(db) && Enabled(db, e)
    ensures var before, after := ActiveOf(db, tenant), ActiveOf(Apply(db, e), tenant);
            if e.Assign? && db.tasks[e.task].tenant == tenant then after <= before + {e.newAttempt} else after <= before
  {
    var db' := Apply(db, e);
    StepKeeps(db, e);
    StepAdvances(db, e);
    forall a | a in ActiveOf(db', tenant)
      ensures a in ActiveOf(db, tenant) || (Introduces(e, db', a) && db.tasks[e.task].tenant == tenant)
    {
      if a in db.attempts {
        assert AttemptAdvances(db, db', a);
        assert AttemptOk(db, a);
        assert TaskAdvances(db, db', db.attempts[a].task);
      } else {
        NewAttemptsAreLeases(db, e, a);
        assert TaskAdvances(db, db', e.task);
      }
    }
  }

  /** In this run every lease goes to a candidate of the query. */
  ghost predicate LeasesCandidates(r: Run, quotas: map<TenantId, int>)
    requires |r.states| == |r.events| + 1
  {
    forall i | 0 <= i < |r.events| && r.events[i].Assign? :: Candidate(r.states[i], quotas, r.events[i].facts, r.events[i].task)
  }

  /** With fixed quotas and leases that are one step, no tenant ever has more live attempts than its quota. */
  lemma {:induction false} QuotaHolds(r: Run, quotas: map<TenantId, int>, i: nat, tenant: TenantId)
    requires FromEmpty(r) && LeasesCandidates(r, quotas) && i < |r.states|
    ensures TenantActive(r.states[i], tenant) == 0 || TenantActive(r.states[i], tenant) <= Quota(quotas, tenant)
  {
    if i == 0 {
      assert ActiveOf(r.states[0], tenant) == {};
    } else {
      QuotaHolds(r, quotas, i - 1, tenant);
      ReachableInv(r, i - 1);
      assert StepOf(r, i - 1);
      var db, e := r.states[i - 1], r.events[i - 1];
      ActiveShrinks(db, e, tenant);
      var before, after := ActiveOf(db, tenant), ActiveOf(r.states[i], tenant);
      if e.Assign? && db.tasks[e.task].tenant == tenant {
        assert Candidate(db, quotas, e.facts, e.task);
        Smaller(after, before + {e.newAttempt});
      } else {
        Smaller(after, before);
      }
    }
  }

  // ---- the two-phase lease ----

  /**
   Lease as the database runs it: the candidate row, with its attempt count, comes from `snapshot`; by the time the
   row is locked the database is `now_`. Only the state is rechecked, and only uniqueness guards the number.
   */
  function TwoPhaseLease(snapshot: DB, now_: DB, w: WorkerFacts, t: TaskId, a: AttemptId, ttl: nat): Tx<AttemptId>
    requires t in snapshot.tasks && t in now_.tasks
  {
    if now_.tasks[t].state != TaskQueued then Rollback(ErrNoWork)
    else LeaseWrites(now_, t, snapshot.tasks[t].attemptCount + 1, a, w.id, ttl)
  }

  /** No lease by this worker commits in between: its leases are serialised by an advisory lock. */
  ghost predicate NoLeaseBy(r: Run, w: WorkerId, i: nat, k: nat)
    requires k <= |r.events|
  {
    forall n | i <= n < k && r.events[n].Assign? :: r.events[n].facts.id != w
  }

  lemma {:induction false} SlotStaysFree(r: Run, i: nat, k: nat, w: WorkerFacts, class_: string)
    requires IsRun(r) && Inv(r.states[0]) && i <= k < |r.states| && NoLeaseBy(r, w.id, i, k)
    ensures HeldSlots(r.states[k], w.id, class_) <= HeldSlots(r.states[i], w.id, class_)
    decreases k
  {
    if i < k {
      SlotStaysFree(r, i, k - 1, w, class_);
      RunKeeps(r, k - 1);
      assert StepOf(r, k - 1);
      HeldSlotsShrink(r.states[k - 1], r.events[k - 1], w.id, class_);
    }
  }

  /** A task still queued with a fresh number has not been leased since the snapshot. */
  lemma NumberTellsStaleness(r: Run, i: nat, k: nat, t: TaskId)
    requires IsRun(r) && Inv(r.states[0]) && i <= k < |r.states| && t in r.states[i].tasks
    ensures t in r.states[k].tasks
    ensures NumberTaken(r.states[k].attempts, t, r.states[i].tasks[t].attemptCount + 1) <==>
            r.states[k].tasks[t].attemptCount > r.states[i].tasks[t].attemptCount
  {
    RunAdvances(r, i, k);
    RunKeeps(r, k);
    var db, n := r.states[k], r.states[i].tasks[t].attemptCount + 1;
    assert TaskAdvances(r.states[i], db, t);
    assert TaskOk(db, t);
    if NumberTaken(db.attempts, t, n) {
      var a :| a in db.attempts && db.attempts[a].task == t && db.attempts[a].number == n;
      assert AttemptOk(db, a);
    }
  }

  /**
   However old the snapshot and whatever committed since, the lease either leaves the database alone or is exactly
   an atomic lease of the current state: it commits just when the task is queued and has not been leased since, with
   an attempt id not used before. If the worker leased nothing itself in between, that atomic lease is an enabled step.
   */
  lemma TwoPhaseRefines(r: Run, i: nat, k: nat, w: WorkerFacts, t: TaskId, a: AttemptId, ttl: nat)
    requires IsRun(r) && Inv(r.states[0]) && i <= k < |r.states| && Eligible(r.states[i], w, t)
    ensures t in r.states[k].tasks
    ensures var snapshot, db := r.states[i], r.states[k];
            var tx := TwoPhaseLease(snapshot, db, w, t, a, ttl);
            && (tx.Commit? <==> db.tasks[t].state == TaskQueued && a !in db.attempts
                                && db.tasks[t].attemptCount == snapshot.tasks[t].attemptCount)
            && (tx.Commit? ==> tx == LeaseWrites(db, t, db.tasks[t].attemptCount + 1, a, w.id, ttl))
            && (tx.Commit? && NoLeaseBy(r, w.id, i, k) ==>
                Enabled(db, Assign(w, t, a, ttl)) && tx.db == Apply(db, Assign(w, t, a, ttl)))
            && (tx.Rollback? ==> tx.After(db) == db)
  {
    NumberTellsStaleness(r, i, k, t);
    RunAdvances(r, i, k);
    assert TaskAdvances(r.states[i], r.states[k], t);
    if NoLeaseBy(r, w.id, i, k) {
      var class_ := r.states[i].tasks[t].SlotClass();
      SlotStaysFree(r, i, k, w, class_);
      Smaller(HeldSlots(r.states[k], w.id, class_), HeldSlots(r.states[i], w.id, class_));
    }
  }
}
