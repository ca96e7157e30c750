/**
 The decision of internal/job/schedule.go: hard constraints first, then a weighted score.
 */
module Scheduling {
  import opened States
  import opened Rows

  datatype WorkerFacts = WorkerFacts(
    id: WorkerId, arch: string, operations: seq<string>, encoders: seq<string>, hasGpu: bool,
    memoryBytes: int, diskFree: int, slotCapacity: map<string, int>)

  // ---- hard constraints ----

  /** The part of the filter that only reads the task's requirements and the worker's declaration. */
  predicate Fits(w: WorkerFacts, task: Task) {
    var r := task.requirements;
    && task.operation in w.operations
    && (r.arch.None? || r.arch.value == w.arch)
    && (r.encoder.None? || r.encoder.value in w.encoders)
    && (!r.gpu || w.hasGpu)
    && r.memoryBytes <= w.memoryBytes
    && r.diskBytes <= w.diskFree
  }

  /** The live attempts a worker holds in one capacity pool. */
  function HeldSlots(db: DB, w: WorkerId, class_: string): set<AttemptId> {
    set a | a in db.attempts && db.attempts[a].worker == w && db.attempts[a].state.IsLive()
            && db.attempts[a].task in db.tasks && db.tasks[db.attempts[a].task].SlotClass() == class_
  }

  /** freeSlotClasses, for one class: declared, and used below capacity. */
  predicate SlotFree(db: DB, w: WorkerFacts, class_: string) {
    class_ in w.slotCapacity && |HeldSlots(db, w.id, class_)| < w.slotCapacity[class_]
  }

  predicate Eligible(db: DB, w: WorkerFacts, t: TaskId) {
    && t in db.tasks
    && db.tasks[t].state == TaskQueued
    && Fits(w, db.tasks[t])
    && SlotFree(db, w, db.tasks[t].SlotClass())
  }

  /** The live attempts of a tenant's tasks. */
  function ActiveOf(db: DB, tenant: TenantId): set<AttemptId> {
    set a | a in db.attempts && db.attempts[a].state.IsLive()
            && db.attempts[a].task in db.tasks && db.tasks[db.attempts[a].task].tenant == tenant
  }

  function TenantActive(db: DB, tenant: TenantId): nat {
    |ActiveOf(db, tenant)|
  }

  const NO_QUOTA: int := 2147483647

  function Quota(quotas: map<TenantId, int>, tenant: TenantId): int {
    if tenant in quotas then quotas[tenant] else NO_QUOTA
  }

  /** A row leaseQuery may return: eligible, and its tenant below its concurrency quota. */
  predicate Candidate(db: DB, quotas: map<TenantId, int>, w: WorkerFacts, t: TaskId) {
    Eligible(db, w, t) && TenantActive(db, db.tasks[t].tenant) < Quota(quotas, db.tasks[t].tenant)
  }

  // ---- the score ----

  const AGE_POINTS_PER_SECOND: real := 100.0 / 600.0
  const LOCALITY_BONUS: real := 1.25
  const GPU_IDLE_PENALTY: real := 0.4

  predicate Local(db: DB, w: WorkerId, j: JobId) {
    exists a :: a in db.attempts && db.attempts[a].worker == w && db.attempts[a].state == AttemptSucceeded
                && db.attempts[a].task in db.tasks && db.tasks[db.attempts[a].task].job == j
  }

  function AgeSeconds(db: DB, t: TaskId): real
    requires t in db.tasks
  {
    (db.now - db.tasks[t].queuedAt) as real / 1000.0
  }

  /** Source on disk, and no GPU spent on work that needs none. */
  function Favour(db: DB, w: WorkerFacts, t: TaskId): (k: real)
    requires t in db.tasks
    ensures 0.4 <= k <= 1.25
  {
    (if Local(db, w.id, db.tasks[t].job) then LOCALITY_BONUS else 1.0)
    * (if w.hasGpu && !db.tasks[t].requirements.gpu then GPU_IDLE_PENALTY else 1.0)
  }

  function Share(db: DB, tenant: TenantId): (k: real)
    ensures 0.0 < k <= 1.0
    ensures k == 1.0 / (1 + TenantActive(db, tenant)) as real
  {
    1.0 / (1 + TenantActive(db, tenant)) as real
  }

  /** Everything the query multiplies the waiting-adjusted priority with. */
  function Weight(db: DB, w: WorkerFacts, t: TaskId): (k: real)
    requires t in db.tasks
    ensures 0.4 / (1 + TenantActive(db, db.tasks[t].tenant)) as real <= k <= 1.25
    ensures k > 0.0
  {
    Between(Share(db, db.tasks[t].tenant), Favour(db, w, t));
    Share(db, db.tasks[t].tenant) * Favour(db, w, t)
  }

  lemma Between(share: real, favour: real)
    requires 0.0 < share <= 1.0 && 0.4 <= favour <= 1.25
    ensures share * 0.4 <= share * favour <= 1.25
  {
    Scaled(favour, 0.4, share);
    Scaled(1.0, share, favour);
  }

  lemma Scaled(x: real, y: real, k: real)
    requires y <= x && k > 0.0
    ensures k * y <= k * x && y * k <= x * k
  {
  }

  function Points(db: DB, t: TaskId): real
    requires t in db.tasks
  {
    db.tasks[t].priority as real + AgeSeconds(db, t) * AGE_POINTS_PER_SECOND
  }

  function Score(db: DB, w: WorkerFacts, t: TaskId): real
    requires t in db.tasks
  {
    Points(db, t) * Weight(db, w, t)
  }

  /** `order by score desc, age_seconds desc`: t may be returned before u. */
  predicate Ranks(db: DB, w: WorkerFacts, t: TaskId, u: TaskId)
    requires t in db.tasks && u in db.tasks
  {
    || Score(db, w, t) > Score(db, w, u)
    || (Score(db, w, t) == Score(db, w, u) && AgeSeconds(db, t) >= AgeSeconds(db, u))
  }

  /** Some candidate is first whenever there is any candidate at all, so the query only comes back empty when nothing fits. */
  lemma {:induction false} FirstExists(db: DB, w: WorkerFacts, candidates: set<TaskId>) returns (first: TaskId)
    requires candidates != {} && candidates <= db.tasks.Keys
    ensures first in candidates && forall u | u in candidates :: Ranks(db, w, first, u)
    decreases candidates
  {
    var t :| t in candidates;
    var rest := candidates - {t};
    if rest == {} {
      first := t;
      assert candidates == {t};
    } else {
      var best := FirstExists(db, w, rest);
      first := if Ranks(db, w, t, best) then t else best;
      assert candidates == rest + {t};
    }
  }

  // ---- what the weights mean ----

  /** Candidates the query weighs alike: one tenant, one locality, one GPU need. */
  predicate WeighedAlike(db: DB, w: WorkerFacts, t: TaskId, u: TaskId)
    requires t in db.tasks && u in db.tasks
  {
    && db.tasks[t].tenant == db.tasks[u].tenant
    && Local(db, w.id, db.tasks[t].job) == Local(db, w.id, db.tasks[u].job)
    && db.tasks[t].requirements.gpu == db.tasks[u].requirements.gpu
  }

  lemma ScaleOrder(x: real, y: real, k: real)
    requires k > 0.0
    ensures x * k > y * k <==> x > y
    ensures x * k == y * k <==> x == y
  {
  }

  /** How much later t was queued than u, and how much later it may be for its extra priority. */
  function Lateness(db: DB, t: TaskId, u: TaskId): int
    requires t in db.tasks && u in db.tasks
  {
    db.tasks[t].queuedAt - db.tasks[u].queuedAt
  }

  function Allowance(db: DB, t: TaskId, u: TaskId): int
    requires t in db.tasks && u in db.tasks
  {
    6000 * (db.tasks[t].priority - db.tasks[u].priority)
  }

  /**
   Between candidates weighed alike, the later task passes the earlier one exactly when it was queued less than six
   seconds later for every extra point of priority, and of equal scores the one queued no later goes first. The clock
   is in neither condition, so waiting longer never changes the order.
   */
  lemma RankIsTimeless(db: DB, w: WorkerFacts, t: TaskId, u: TaskId)
    requires t in db.tasks && u in db.tasks && WeighedAlike(db, w, t, u)
    ensures Score(db, w, t) > Score(db, w, u) <==> Lateness(db, t, u) < Allowance(db, t, u)
    ensures Ranks(db, w, t, u) <==>
            || Lateness(db, t, u) < Allowance(db, t, u)
            || (Lateness(db, t, u) == Allowance(db, t, u) && Lateness(db, t, u) <= 0)
  {
    ScaleOrder(Points(db, t), Points(db, u), Weight(db, w, t));
    PointsOrder(db, t, u);
  }

  lemma PointsOrder(db: DB, t: TaskId, u: TaskId)
    requires t in db.tasks && u in db.tasks
    ensures Points(db, t) > Points(db, u) <==> Lateness(db, t, u) < Allowance(db, t, u)
    ensures Points(db, t) == Points(db, u) <==> Lateness(db, t, u) == Allowance(db, t, u)
  {
    var p, q := db.tasks[t].priority - db.tasks[u].priority, Lateness(db, t, u);
    assert Points(db, t) - Points(db, u) == p as real - q as real / 6000.0;
    assert p as real - q as real / 6000.0 == (6000 * p - q) as real / 6000.0;
  }

  /** The waiting time, in milliseconds, after which a task beats every rival within the given bounds. */
  function EnoughWaiting(priority: int, tenantActive: nat, rivalPriority: int, rivalAgeMs: nat): real {
    6000.0 * (3.125 * (1 + tenantActive) as real * RivalPoints(rivalPriority, rivalAgeMs) - priority as real)
  }

  /** The most points a rival within these bounds can have, or none. */
  function RivalPoints(priority: int, ageMs: nat): (points: real)
    ensures points >= 0.0
  {
    var points := priority as real + ageMs as real / 6000.0;
    if points > 0.0 then points else 0.0
  }

  /**
   Waiting is unbounded credit: whatever tenant, locality and GPU need the rival has, a task that has waited
   longer than EnoughWaiting scores strictly higher than any rival of bounded priority and age.
   */
  lemma WaitingWins(db: DB, w: WorkerFacts, t: TaskId, u: TaskId, rivalPriority: int, rivalAgeMs: nat)
    requires t in db.tasks && u in db.tasks
    requires db.tasks[u].priority <= rivalPriority && db.now - db.tasks[u].queuedAt <= rivalAgeMs
    ensures (db.now - db.tasks[t].queuedAt) as real >
            EnoughWaiting(db.tasks[t].priority, TenantActive(db, db.tasks[t].tenant), rivalPriority, rivalAgeMs)
            ==> Score(db, w, t) > Score(db, w, u)
  {
    var n, worst := (1 + TenantActive(db, db.tasks[t].tenant)) as real, RivalPoints(rivalPriority, rivalAgeMs);
    if (db.now - db.tasks[t].queuedAt) as real > 6000.0 * (3.125 * n * worst - db.tasks[t].priority as real) {
      Scaled(worst, 0.0, n);
      ScoreFloor(db, w, t, 3.125 * n * worst);
      Divided(Score(db, w, t), n, worst);
      ScoreCeiling(db, w, u, rivalPriority, rivalAgeMs);
    }
  }

  lemma ScoreCeiling(db: DB, w: WorkerFacts, u: TaskId, priority: int, ageMs: nat)
    requires u in db.tasks && db.tasks[u].priority <= priority && db.now - db.tasks[u].queuedAt <= ageMs
    ensures Score(db, w, u) <= 1.25 * RivalPoints(priority, ageMs)
  {
    PointsAre(db, u);
    RivalCeiling(Points(db, u), RivalPoints(priority, ageMs), Weight(db, w, u));
  }

  lemma ScoreFloor(db: DB, w: WorkerFacts, t: TaskId, needed: real)
    requires t in db.tasks && needed >= 0.0
    requires (db.now - db.tasks[t].queuedAt) as real > 6000.0 * (needed - db.tasks[t].priority as real)
    ensures (1 + TenantActive(db, db.tasks[t].tenant)) as real * Score(db, w, t) > 0.4 * needed
  {
    PointsAre(db, t);
    OwnPoints(db.tasks[t].priority as real, (db.now - db.tasks[t].queuedAt) as real, needed);
    OwnFloor(Points(db, t), Share(db, db.tasks[t].tenant), Favour(db, w, t), needed,
             (1 + TenantActive(db, db.tasks[t].tenant)) as real);
  }

  lemma PointsAre(db: DB, t: TaskId)
    requires t in db.tasks
    ensures Points(db, t) == db.tasks[t].priority as real + (db.now - db.tasks[t].queuedAt) as real / 6000.0
  {
  }

  lemma OwnPoints(priority: real, age: real, needed: real)
    requires age > 6000.0 * (needed - priority)
    ensures priority + age / 6000.0 > needed
  {
  }

  lemma RivalCeiling(points: real, worst: real, k: real)
    requires points <= worst && worst >= 0.0 && 0.0 < k <= 1.25
    ensures points * k <= 1.25 * worst
  {
    assert points * k <= worst * k;
    assert worst * k <= worst * 1.25;
  }

  lemma OwnFloor(points: real, share: real, favour: real, needed: real, n: real)
    requires points > needed >= 0.0 && 0.4 <= favour && n > 0.0 && n * share == 1.0
    ensures n * (points * (share * favour)) > 0.4 * needed
  {
    assert n * (points * (share * favour)) == (n * share) * (points * favour);
    Scaled(favour, 0.4, points);
  }

  lemma Divided(x: real, n: real, worst: real)
    requires n > 0.0 && n * x > 0.4 * (3.125 * n * worst)
    ensures x > 1.25 * worst
  {
    assert 0.4 * (3.125 * n * worst) == n * (1.25 * worst);
    if x <= 1.25 * worst { Scaled(1.25 * worst, x, n); }
  }
}
