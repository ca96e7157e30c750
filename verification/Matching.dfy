/**
 What the scheduler's decision means, requirement by requirement and weight by weight: whom work may go to, when there is
 none, and which of two candidates is preferred.
 */
module Matching {
  import opened States
  import opened Rows
  import opened Scheduling
  import opened Steps
  import opened Progression
  import opened Slots

  // ---- hard constraints ----

  /** In this run every worker asks with the facts it declared. */
  ghost predicate DeclaresFacts(r: Run, facts: map<WorkerId, WorkerFacts>) {
    forall i | 0 <= i < |r.events| && r.events[i].Assign? ::
      r.events[i].facts.id in facts && r.events[i].facts == facts[r.events[i].facts.id]
  }

  /** No attempt is ever given to a worker that lacks anything its task requires. */
  lemma {:induction false} AssignedWorkFits(r: Run, facts: map<WorkerId, WorkerFacts>, i: nat, a: AttemptId)
    requires FromEmpty(r) && DeclaresFacts(r, facts) && i < |r.states| && a in r.states[i].attempts
    ensures r.states[i].attempts[a].worker in facts && r.states[i].attempts[a].task in r.states[i].tasks
    ensures var w, task := facts[r.states[i].attempts[a].worker], r.states[i].tasks[r.states[i].attempts[a].task];
            && task.operation in w.operations
            && (task.requirements.arch.Some? ==> task.requirements.arch.value == w.arch)
            && (task.requirements.encoder.Some? ==> task.requirements.encoder.value in w.encoders)
            && (task.requirements.gpu ==> w.hasGpu)
            && task.requirements.memoryBytes <= w.memoryBytes
            && task.requirements.diskBytes <= w.diskFree
  {
    if i > 0 {
      var db, e := r.states[i - 1], r.events[i - 1];
      ReachableInv(r, i - 1);
      assert StepOf(r, i - 1);
      StepAdvances(db, e);
      if a in db.attempts {
        AssignedWorkFits(r, facts, i - 1, a);
        assert AttemptAdvances(db, r.states[i], a);
        assert TaskAdvances(db, r.states[i], db.attempts[a].task);
      } else {
        NewAttemptsAreLeases(db, e, a);
        assert TaskAdvances(db, r.states[i], e.task);
      }
    }
  }

  /** The pool a task draws on: the one it asks for, or else its operation's. */
  lemma PoolMeans(task: Task)
    ensures task.requirements.slotClass == None ==> task.SlotClass() == task.operation
    ensures forall c :: task.requirements.slotClass == Some(c) ==> task.SlotClass() == c
  {
  }

  /** The live attempts in a pool of a worker's. */
  ghost predicate Occupies(db: DB, w: WorkerId, class_: string, a: AttemptId) {
    && a in db.attempts && db.attempts[a].worker == w
    && (db.attempts[a].state == AttemptLeased || db.attempts[a].state == AttemptRunning)
    && db.attempts[a].task in db.tasks && db.tasks[db.attempts[a].task].SlotClass() == class_
  }

  ghost predicate WorksFor(db: DB, tenant: TenantId, a: AttemptId) {
    && a in db.attempts
    && (db.attempts[a].state == AttemptLeased || db.attempts[a].state == AttemptRunning)
    && db.attempts[a].task in db.tasks && db.tasks[db.attempts[a].task].tenant == tenant
  }

  /**
   There is no candidate exactly if every queued task requires something the worker lacks, or its pool is undeclared or
   full, or its tenant is at its quota.
   */
  lemma NoWorkMeans(db: DB, quotas: map<TenantId, int>, w: WorkerFacts)
    ensures (forall t :: !Candidate(db, quotas, w, t)) <==>
            forall t | t in db.tasks && db.tasks[t].state == TaskQueued ::
              var task := db.tasks[t];
              var class_ := task.SlotClass();
              || task.operation !in w.operations
              || (task.requirements.arch.Some? && task.requirements.arch.value != w.arch)
              || (task.requirements.encoder.Some? && task.requirements.encoder.value !in w.encoders)
              || (task.requirements.gpu && !w.hasGpu)
              || task.requirements.memoryBytes > w.memoryBytes
              || task.requirements.diskBytes > w.diskFree
              || class_ !in w.slotCapacity
              || |set a | a in db.attempts && Occupies(db, w.id, class_, a)| >= w.slotCapacity[class_]
              || |set a | a in db.attempts && WorksFor(db, task.tenant, a)|
                 >= (if task.tenant in quotas then quotas[task.tenant] else 0x7FFF_FFFF)
  {
    forall class_ ensures HeldSlots(db, w.id, class_) == set a | a in db.attempts && Occupies(db, w.id, class_, a) {}
    forall tenant ensures TenantActive(db, tenant) == |set a | a in db.attempts && WorksFor(db, tenant, a)| {
      WorksForMeans(db, tenant);
    }
    if forall t :: !Candidate(db, quotas, w, t) {
      forall t | t in db.tasks && db.tasks[t].state == TaskQueued ensures !Candidate(db, quotas, w, t) {}
    }
  }

  // ---- preferences ----

  /** The worker has finished a task of the job, so it has the source on disk. */
  ghost predicate HasSource(db: DB, w: WorkerId, j: JobId) {
    exists a :: a in db.attempts && db.attempts[a].worker == w && db.attempts[a].state == AttemptSucceeded
                && db.attempts[a].task in db.tasks && db.tasks[db.attempts[a].task].job == j
  }

  /** Equal in priority and in the time they were queued. */
  ghost predicate EvenlyMatched(db: DB, t: TaskId, u: TaskId)
    requires t in db.tasks && u in db.tasks
  {
    db.tasks[t].priority == db.tasks[u].priority && db.tasks[t].queuedAt == db.tasks[u].queuedAt
  }

  /** Priority and waiting time together: a point for every six seconds. */
  lemma PointsMean(db: DB, t: TaskId)
    requires t in db.tasks
    ensures 6000.0 * Points(db, t) == (6000 * db.tasks[t].priority + db.now - db.tasks[t].queuedAt) as real
  {
    PointsAre(db, t);
  }

  /** Other things equal, work on a source the worker has scores a quarter more than work on one it has not. */
  lemma LocalWorkFirst(db: DB, w: WorkerFacts, t: TaskId, u: TaskId)
    requires t in db.tasks && u in db.tasks && EvenlyMatched(db, t, u) && db.tasks[t].tenant == db.tasks[u].tenant
    requires db.tasks[t].requirements.gpu == db.tasks[u].requirements.gpu
    requires HasSource(db, w.id, db.tasks[t].job) && !HasSource(db, w.id, db.tasks[u].job)
    ensures 4.0 * Score(db, w, t) == 5.0 * Score(db, w, u)
    ensures Score(db, w, t) > Score(db, w, u) <==> Points(db, t) > 0.0
  {
    assert Local(db, w.id, db.tasks[t].job) && !Local(db, w.id, db.tasks[u].job);
    assert Points(db, t) == Points(db, u);
  }

  /** Other things equal, a worker with a GPU scores work that needs one two and a half times work that does not. */
  lemma GpuWorkFirst(db: DB, w: WorkerFacts, t: TaskId, u: TaskId)
    requires t in db.tasks && u in db.tasks && EvenlyMatched(db, t, u) && db.tasks[t].tenant == db.tasks[u].tenant
    requires w.hasGpu && db.tasks[t].requirements.gpu && !db.tasks[u].requirements.gpu
    requires HasSource(db, w.id, db.tasks[t].job) == HasSource(db, w.id, db.tasks[u].job)
    ensures 2.0 * Score(db, w, t) == 5.0 * Score(db, w, u)
    ensures Score(db, w, t) > Score(db, w, u) <==> Points(db, t) > 0.0
  {
    assert Local(db, w.id, db.tasks[t].job) == Local(db, w.id, db.tasks[u].job);
    assert Points(db, t) == Points(db, u);
  }

  /** Other things equal, tenants share: scores are in inverse proportion to one more than what each has running. */
  lemma FairShare(db: DB, w: WorkerFacts, t: TaskId, u: TaskId)
    requires t in db.tasks && u in db.tasks && EvenlyMatched(db, t, u)
    requires db.tasks[t].requirements.gpu == db.tasks[u].requirements.gpu
    requires HasSource(db, w.id, db.tasks[t].job) == HasSource(db, w.id, db.tasks[u].job)
    ensures var m := |set a | a in db.attempts && WorksFor(db, db.tasks[t].tenant, a)|;
            var n := |set a | a in db.attempts && WorksFor(db, db.tasks[u].tenant, a)|;
            && (1 + m) as real * Score(db, w, t) == (1 + n) as real * Score(db, w, u)
            && (m < n ==> (Score(db, w, t) > Score(db, w, u) <==> Points(db, t) > 0.0))
  {
    WorksForMeans(db, db.tasks[t].tenant);
    WorksForMeans(db, db.tasks[u].tenant);
    var c := CommonPoints(db, w, t, u);
    Shares(Score(db, w, t), Score(db, w, u), c, TenantActive(db, db.tasks[t].tenant), TenantActive(db, db.tasks[u].tenant));
  }

  /** What the two would score if each were its tenant's only work. */
  lemma CommonPoints(db: DB, w: WorkerFacts, t: TaskId, u: TaskId) returns (c: real)
    requires t in db.tasks && u in db.tasks && EvenlyMatched(db, t, u)
    requires db.tasks[t].requirements.gpu == db.tasks[u].requirements.gpu
    requires HasSource(db, w.id, db.tasks[t].job) == HasSource(db, w.id, db.tasks[u].job)
    ensures (1 + TenantActive(db, db.tasks[t].tenant)) as real * Score(db, w, t) == c
    ensures (1 + TenantActive(db, db.tasks[u].tenant)) as real * Score(db, w, u) == c
    ensures c > 0.0 <==> Points(db, t) > 0.0
  {
    ScoreParts(db, w, t);
    ScoreParts(db, w, u);
    SameFavour(db, w, t, u);
    c := Points(db, t) * Favour(db, w, t);
    SignOf(Points(db, t), Favour(db, w, t));
  }

  lemma WorksForMeans(db: DB, tenant: TenantId)
    ensures TenantActive(db, tenant) == |set a | a in db.attempts && WorksFor(db, tenant, a)|
  {
    assert ActiveOf(db, tenant) == set a | a in db.attempts && WorksFor(db, tenant, a);
  }

  lemma SignOf(points: real, k: real)
    requires k > 0.0
    ensures points * k > 0.0 <==> points > 0.0
  {
  }

  lemma SameFavour(db: DB, w: WorkerFacts, t: TaskId, u: TaskId)
    requires t in db.tasks && u in db.tasks && EvenlyMatched(db, t, u)
    requires db.tasks[t].requirements.gpu == db.tasks[u].requirements.gpu
    requires HasSource(db, w.id, db.tasks[t].job) == HasSource(db, w.id, db.tasks[u].job)
    ensures Points(db, t) == Points(db, u) && Favour(db, w, t) == Favour(db, w, u)
  {
    assert Local(db, w.id, db.tasks[t].job) == Local(db, w.id, db.tasks[u].job);
  }

  lemma ScoreParts(db: DB, w: WorkerFacts, t: TaskId)
    requires t in db.tasks
    ensures (1 + TenantActive(db, db.tasks[t].tenant)) as real * Score(db, w, t) == Points(db, t) * Favour(db, w, t)
  {
    var n, share := (1 + TenantActive(db, db.tasks[t].tenant)) as real, Share(db, db.tasks[t].tenant);
    assert n * share == 1.0;
    Regroup(n, share, Points(db, t), Favour(db, w, t));
  }

  lemma Regroup(n: real, share: real, points: real, favour: real)
    requires n * share == 1.0
    ensures n * (points * (share * favour)) == points * favour
  {
    assert n * (points * (share * favour)) == (n * share) * (points * favour);
  }

  lemma Shares(x: real, y: real, c: real, m: nat, n: nat)
    requires (1 + m) as real * x == c && (1 + n) as real * y == c
    ensures m < n ==> (x > y <==> c > 0.0)
  {
    if m < n { Inverse(x, y, c, (1 + m) as real, (1 + n) as real); }
  }

  lemma Inverse(x: real, y: real, c: real, p: real, q: real)
    requires 0.0 < p < q && p * x == c && q * y == c
    ensures x > y <==> c > 0.0
  {
    if x > y && y >= 0.0 { assert p * x > 0.0; }
    if x <= y && y > 0.0 { assert p * x <= p * y < q * y; }
    if x > y && y < 0.0 { assert p * x > p * y > q * y; }
  }
}
