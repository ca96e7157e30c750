/**
 Retried submissions: a job row keeps its tenant and idempotency key, no key ever makes two jobs, and submitting again
 under a key answers with the job it made and changes nothing.
 */
module Submissions {
  import opened States
  import opened Rows
  import opened Protocol
  import opened Sweep
  import opened Invariant
  import opened Creation
  import opened Steps

  /** Job rows persist, and only their state is ever written. */
  ghost predicate JobRowsKept(db: DB, db': DB) {
    forall j | j in db.jobs :: j in db'.jobs && db'.jobs[j] == db.jobs[j].(state := db'.jobs[j].state)
  }

  lemma {:induction false} SweepKeepsJobRows(db: DB, batch: seq<AttemptId>)
    ensures ReclaimEach(db, batch).jobs.Keys == db.jobs.Keys && JobRowsKept(db, ReclaimEach(db, batch))
    decreases |batch|
  {
    if batch != [] {
      if Expired(db, batch[0]) {
        SweepKeepsJobRows(ReclaimRow(db, ReadRow(db, batch[0])).After(db), batch[1..]);
      } else {
        SweepKeepsJobRows(db, batch[1..]);
      }
    }
  }

  lemma StepKeepsJobRows(db: DB, e: Event)
    requires Inv(db) && Enabled(db, e)
    ensures JobRowsKept(db, Apply(db, e))
    ensures !e.Submit? ==> Apply(db, e).jobs.Keys == db.jobs.Keys
  {
    match e
    case Submit(_, _, _, _, _, _) => SubmitKeepsJobRows(db, e);
    case Swept(limit, batch) =>
      BatchIsSequential(db, limit, batch);
      SweepKeepsJobRows(db, batch);
    case Finished(a, w, report) => CompleteKeepsJobRows(db, a, w, report);
    case _ =>
  }

  lemma CompleteKeepsJobRows(db: DB, a: AttemptId, w: WorkerId, res: Report)
    ensures Complete(db, a, w, res).After(db).jobs.Keys == db.jobs.Keys
    ensures JobRowsKept(db, Complete(db, a, w, res).After(db))
  {
  }

  lemma SubmitKeepsJobRows(db: DB, e: Event)
    requires e.Submit? && Enabled(db, e)
    ensures JobRowsKept(db, Apply(db, e))
  {
    if Apply(db, e) != db { CreateInserts(db, e.tenant, e.key, e.priority, e.specs, e.newJob, e.uuids); }
  }

  /** Two jobs of one submission. */
  ghost predicate SameKey(db: DB, j: JobId, k: JobId)
    requires j in db.jobs && k in db.jobs
  {
    && db.jobs[j].idempotencyKey.Some?
    && db.jobs[j].tenant == db.jobs[k].tenant && db.jobs[j].idempotencyKey == db.jobs[k].idempotencyKey
  }

  ghost predicate KeysUnique(db: DB) {
    forall j, k {:trigger SameKey(db, j, k)} | j in db.jobs && k in db.jobs && SameKey(db, j, k) :: j == k
  }

  /** The only row a submission may add is a job whose key nobody has used. */
  lemma SubmitKeepsKeys(db: DB, e: Event)
    requires e.Submit? && Enabled(db, e) && KeysUnique(db)
    ensures KeysUnique(Apply(db, e))
  {
    var tx := Create(db, e.tenant, e.key, e.priority, e.specs, e.newJob, e.uuids);
    var db' := Apply(db, e);
    if tx.Commit? && db' != db {
      assert db'.jobs == db.jobs[e.newJob := Job(e.tenant, e.key, e.priority, JobPending)];
      forall j, k | j in db'.jobs && k in db'.jobs && SameKey(db', j, k) ensures j == k {
        assert forall i | i in db.jobs :: !SameSubmission(db.jobs[i], e.tenant, e.key);
        if j != e.newJob && k != e.newJob { assert SameKey(db, j, k); }
      }
    }
  }

  lemma {:induction false} OneJobPerKey(r: Run, i: nat)
    requires FromEmpty(r) && i < |r.states|
    ensures KeysUnique(r.states[i])
  {
    if i > 0 {
      OneJobPerKey(r, i - 1);
      ReachableInv(r, i - 1);
      assert StepOf(r, i - 1);
      var db, e := r.states[i - 1], r.events[i - 1];
      if e.Submit? {
        SubmitKeepsKeys(db, e);
      } else {
        StepKeepsJobRows(db, e);
        forall j, k | j in r.states[i].jobs && k in r.states[i].jobs && SameKey(r.states[i], j, k) ensures j == k {
          assert SameKey(db, j, k);
        }
      }
    }
  }

  lemma {:induction false} JobRowsStay(r: Run, i: nat, k: nat)
    requires FromEmpty(r) && i <= k < |r.states|
    ensures JobRowsKept(r.states[i], r.states[k])
    decreases k
  {
    if i < k {
      JobRowsStay(r, i, k - 1);
      ReachableInv(r, k - 1);
      assert StepOf(r, k - 1);
      StepKeepsJobRows(r.states[k - 1], r.events[k - 1]);
    }
  }

  /**
   However much later a submission is retried, and whatever well-formed graph it carries then, it is answered with the
   job of the first one, and the database stays as it is.
   */
  lemma RetriedSubmission(r: Run, i: nat, k: nat, j: JobId, priority: int, specs: seq<NewTask>, other: JobId, uuids: seq<TaskId>)
    requires FromEmpty(r) && i <= k < |r.states| && j in r.states[i].jobs && r.states[i].jobs[j].idempotencyKey.Some?
    requires specs != [] && |specs| == |uuids| && DependenciesKnown(specs, KeyIds(specs, uuids))
    ensures var job := r.states[i].jobs[j];
            Create(r.states[k], job.tenant, job.idempotencyKey, priority, specs, other, uuids) == Commit(r.states[k], j)
  {
    var db, job := r.states[k], r.states[i].jobs[j];
    JobRowsStay(r, i, k);
    OneJobPerKey(r, k);
    assert SameSubmission(db.jobs[j], job.tenant, job.idempotencyKey);
    forall n | n in db.jobs && SameSubmission(db.jobs[n], job.tenant, job.idempotencyKey) ensures n == j {
      assert SameKey(db, j, n);
    }
  }
}
