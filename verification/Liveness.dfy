/**
 What a job needs to be able to finish. From every reachable state, an unfinished job has a continuation in which it
 succeeds exactly if its graph has no knot, and then one of at most three steps for each task it has left.
 */
module Liveness {
  import opened States
  import opened Rows
  import opened Protocol
  import opened Scheduling
  import opened Invariant
  import opened Preservation
  import opened Steps
  import opened Progression
  import opened Safety
  import opened Deadlock

  ghost predicate SucceededIn(db: DB, j: JobId) {
    j in db.jobs && db.jobs[j].state == JobSucceeded
  }

  /** A run from here to the success of the job. */
  ghost predicate LeadsToSuccess(r: Run, db: DB, j: JobId) {
    IsRun(r) && r.states[0] == db && SucceededIn(r.states[|r.events|], j)
  }

  ghost predicate CanSucceed(db: DB, j: JobId) {
    exists r :: LeadsToSuccess(r, db, j)
  }

  function Unfinished(db: DB, j: JobId): set<TaskId> {
    set t | t in db.tasks && db.tasks[t].job == j && db.tasks[t].state != TaskSucceeded
  }

  // ---- one task, step by step ----

  /** A job that has not ended, and whose graph can be worked off. */
  ghost predicate Open(db: DB, j: JobId) {
    Inv(db) && j in db.jobs && !db.jobs[j].state.IsTerminal() && !HasKnot(db.tasks, j)
  }

  ghost predicate ActiveTask(db: DB, j: JobId, t: TaskId) {
    t in db.tasks && db.tasks[t].job == j && Active(db.tasks[t].state)
  }

  /** How many steps an active task is away from success. */
  function Away(s: TaskState): nat {
    match s
    case TaskQueued => 3
    case TaskLeased => 2
    case TaskRunning => 1
    case _ => 0
  }

  lemma {:induction false} UnusedId(ids: set<nat>) returns (n: nat)
    ensures n !in ids && forall i | i in ids :: i < n
    decreases |ids|
  {
    n := 0;
    if ids != {} {
      var i :| i in ids;
      n := UnusedId(ids - {i});
      if i >= n { n := i + 1; }
      assert forall k | k in ids :: k == i || k in ids - {i};
    }
  }

  /** A worker that can do exactly this. */
  function Suited(db: DB, t: TaskId): (w: WorkerFacts)
    requires t in db.tasks
    ensures db.tasks[t].state == TaskQueued ==> Eligible(db, w, t)
  {
    var task := db.tasks[t];
    var r, class_ := task.requirements, task.SlotClass();
    WorkerFacts(0, if r.arch.Some? then r.arch.value else "", [task.operation],
                [if r.encoder.Some? then r.encoder.value else ""], true, r.memoryBytes, r.diskBytes,
                map[class_ := |HeldSlots(db, 0, class_)| + 1])
  }

  function Next(s: TaskState): TaskState {
    match s
    case TaskQueued => TaskLeased
    case TaskLeased => TaskRunning
    case _ => TaskSucceeded
  }

  /** A step that takes task t, and nothing else but what its success releases, one state on. */
  ghost predicate TakesOn(db: DB, e: Event, t: TaskId, a: AttemptId) {
    && t in db.tasks && Enabled(db, e) && OneTask(db, Apply(db, e), t, a)
    && Apply(db, e).tasks[t].state == Next(db.tasks[t].state)
  }

  lemma LeaseStep(db: DB, t: TaskId) returns (e: Event, a: AttemptId)
    requires Inv(db) && t in db.tasks && db.tasks[t].state == TaskQueued
    ensures TakesOn(db, e, t, a)
  {
    a := UnusedId(db.attempts.Keys);
    var w := Suited(db, t);
    e := Assign(w, t, a, 0);
    LeaseKeeps(db, t, a, w.id, 0);
    CommittedLease(db, w, t, a);
  }

  lemma CommittedLease(db: DB, w: WorkerFacts, t: TaskId, a: AttemptId)
    requires Eligible(db, w, t) && LeaseWrites(db, t, db.tasks[t].attemptCount + 1, a, w.id, 0).Commit?
    ensures TakesOn(db, Assign(w, t, a, 0), t, a)
  {
    var db' := LeaseWrites(db, t, db.tasks[t].attemptCount + 1, a, w.id, 0).db;
    assert Apply(db, Assign(w, t, a, 0)) == db' && db'.tasks[t].state == TaskLeased;
    assert OneTask(db, db', t, a) by {
      AssignIsOneTask(db, t, a, w.id, 0);
    }
  }

  lemma StartStep(db: DB, t: TaskId) returns (e: Event, a: AttemptId)
    requires Inv(db) && t in db.tasks && db.tasks[t].state == TaskLeased
    ensures TakesOn(db, e, t, a)
  {
    assert TaskOk(db, t);
    a := LatestExists(db, t);
    e := Started(a, db.attempts[a].worker, 0);
    StartIsOneTask(db, a, db.attempts[a].worker, 0);
  }

  lemma FinishStep(db: DB, t: TaskId) returns (e: Event, a: AttemptId)
    requires Inv(db) && t in db.tasks && db.tasks[t].state == TaskRunning
    ensures TakesOn(db, e, t, a)
  {
    assert TaskOk(db, t);
    a := LatestExists(db, t);
    var report := Report(true, ClassUnknown);
    e := Finished(a, db.attempts[a].worker, report);
    CompleteIsOneTask(db, a, db.attempts[a].worker, report);
  }

  lemma NextStep(db: DB, t: TaskId) returns (e: Event, a: AttemptId)
    requires Inv(db) && t in db.tasks && Active(db.tasks[t].state)
    ensures TakesOn(db, e, t, a)
  {
    if db.tasks[t].state == TaskQueued {
      e, a := LeaseStep(db, t);
    } else if db.tasks[t].state == TaskLeased {
      e, a := StartStep(db, t);
    } else {
      e, a := FinishStep(db, t);
    }
  }

  /** Nothing of the job fails or is cancelled by such a step. */
  lemma NothingLost(db: DB, db': DB, j: JobId, t: TaskId, a: AttemptId)
    requires OneTask(db, db', t, a) && db'.tasks[t].state in {TaskLeased, TaskRunning, TaskSucceeded}
    requires !Has(db.tasks, j, TaskFailed) && !Has(db.tasks, j, TaskCancelled)
    ensures !Has(db'.tasks, j, TaskFailed) && !Has(db'.tasks, j, TaskCancelled)
  {
    forall u | u in db'.tasks && db'.tasks[u].job == j
      ensures db'.tasks[u].state != TaskFailed && db'.tasks[u].state != TaskCancelled
    {
      assert u == t || db'.tasks[u] == db.tasks[u] || ReleasedRow(db.tasks[u], db'.tasks[u], db.now);
    }
  }

  /** So it leaves the job open, or ends it in success. */
  lemma StaysOpen(db: DB, db': DB, j: JobId, t: TaskId, a: AttemptId)
    requires Open(db, j) && Inv(db') && Advances(db, db') && OneTask(db, db', t, a)
    requires db'.tasks[t].state in {TaskLeased, TaskRunning, TaskSucceeded}
    ensures Open(db', j) || SucceededIn(db', j)
  {
    KnotsPersist(db, db', j);
    assert JobOk(db.jobs, db.tasks, j);
    DerivedMeaning(db.tasks, j);
    NothingLost(db, db', j, t, a);
    assert JobOk(db'.jobs, db'.tasks, j);
    DerivedMeaning(db'.tasks, j);
  }

  /** ... and no task of it becomes unfinished. */
  lemma UnfinishedShrinks(db: DB, db': DB, j: JobId, t: TaskId, a: AttemptId)
    requires OneTask(db, db', t, a) && db.tasks[t].job == j && db.tasks[t].state != TaskSucceeded
    ensures Unfinished(db', j) == if db'.tasks[t].state == TaskSucceeded then Unfinished(db, j) - {t} else Unfinished(db, j)
  {
  }

  /** A run of a single step. */
  ghost predicate IsStep(one: Run, db: DB, db': DB) {
    IsRun(one) && one.states == [db, db'] && |one.events| == 1
  }

  /** The next step of an active task, as it goes with a worker that does its work. */
  lemma Advance(db: DB, j: JobId, t: TaskId) returns (one: Run, db': DB)
    requires Open(db, j) && ActiveTask(db, j, t)
    ensures IsStep(one, db, db') && (Open(db', j) || SucceededIn(db', j))
    ensures t in db'.tasks && db'.tasks[t].job == j && db'.tasks[t].state == Next(db.tasks[t].state)
    ensures Unfinished(db', j) == if db'.tasks[t].state == TaskSucceeded then Unfinished(db, j) - {t} else Unfinished(db, j)
  {
    var e, a := NextStep(db, t);
    db' := Apply(db, e);
    one := Run([db, db'], [e]);
    assert StepOf(one, 0);
    StepKeeps(db, e);
    StepAdvances(db, e);
    StaysOpen(db, db', j, t, a);
    UnfinishedShrinks(db, db', j, t, a);
  }

  lemma OpenHasActive(db: DB, j: JobId) returns (t: TaskId)
    requires Open(db, j)
    ensures ActiveTask(db, j, t)
  {
    if Stuck(db, j) {
      var c := StuckMeansKnot(db, j);
    }
    t :| t in db.tasks && db.tasks[t].job == j && Active(db.tasks[t].state);
  }

  // ---- a whole job ----

  /** A step in front of a run. */
  function Before(db: DB, e: Event, r: Run): Run {
    Run([db] + r.states, [e] + r.events)
  }

  lemma BeforeIsRun(one: Run, db: DB, db': DB, r: Run, j: JobId) returns (s: Run)
    requires IsStep(one, db, db') && LeadsToSuccess(r, db', j)
    ensures LeadsToSuccess(s, db, j) && |s.events| == |r.events| + 1
  {
    s := Before(db, one.events[0], r);
    forall i: nat | i < |s.events| ensures StepOf(s, i) {
      if i > 0 { assert StepOf(r, i - 1); } else { assert StepOf(one, 0); }
    }
  }

  lemma {:induction false} Finish(db: DB, j: JobId, t: TaskId) returns (r: Run)
    requires Open(db, j) && ActiveTask(db, j, t)
    ensures LeadsToSuccess(r, db, j) && |r.events| <= 3 * (|Unfinished(db, j)| - 1) + Away(db.tasks[t].state)
    decreases |Unfinished(db, j)|, Away(db.tasks[t].state)
  {
    var one, db' := Advance(db, j, t);
    assert t in Unfinished(db, j);
    var rest := Run([db'], []);
    if !SucceededIn(db', j) {
      if db'.tasks[t].state == TaskSucceeded {
        var u := OpenHasActive(db', j);
        rest := Finish(db', j, u);
      } else {
        rest := Finish(db', j, t);
      }
    }
    r := BeforeIsRun(one, db, db', rest, j);
  }

  /** An open job can succeed, in at most three steps for each of its unfinished tasks. */
  lemma OpenCanSucceed(db: DB, j: JobId) returns (r: Run)
    requires Open(db, j)
    ensures LeadsToSuccess(r, db, j) && |r.events| <= 3 * |Unfinished(db, j)|
  {
    var t := OpenHasActive(db, j);
    r := Finish(db, j, t);
  }

  // ---- and a knot prevents it ----

  lemma {:induction false} KnotBlocks(r: Run, k: nat, j: JobId, c: set<TaskId>)
    requires IsRun(r) && k < |r.states| && Inv(r.states[0])
    requires Knot(r.states[0].tasks, j, c) && NeverRan(r.states[0].tasks, c)
    ensures Knot(r.states[k].tasks, j, c) && NeverRan(r.states[k].tasks, c) && !SucceededIn(r.states[k], j)
  {
    RunKeeps(r, k);
    if k > 0 {
      KnotBlocks(r, k - 1, j, c);
      RunKeeps(r, k - 1);
      assert StepOf(r, k - 1);
      var db, e := r.states[k - 1], r.events[k - 1];
      StepLeavesKnot(db, e, j, c);
      StepAdvances(db, e);
      KnotAfter(db, r.states[k], j, c);
    }
    KnotHoldsJob(r.states[k], j, c);
  }

  /** In every reachable state, an unfinished job can still succeed exactly if its rows have no knot. */
  lemma SucceedsIffNoKnot(r: Run, i: nat, j: JobId)
    requires FromEmpty(r) && i < |r.states| && j in r.states[i].jobs && !r.states[i].jobs[j].state.IsTerminal()
    ensures CanSucceed(r.states[i], j) <==> !HasKnot(r.states[i].tasks, j)
  {
    ReachableInv(r, i);
    if c :| Knot(r.states[i].tasks, j, c) {
      KnotNeverFinishes(r, i, j, c);
      forall s: Run ensures !LeadsToSuccess(s, r.states[i], j) {
        if IsRun(s) && s.states[0] == r.states[i] { KnotBlocks(s, |s.events|, j, c); }
      }
    } else {
      var s := OpenCanSucceed(r.states[i], j);
    }
  }

  /** ... that is, exactly if the list it was submitted with has none. */
  lemma SucceedsIffUntied(r: Run, i: nat, k: nat)
    requires FromEmpty(r) && i < k < |r.states| && r.events[i].Submit? && r.states[i + 1] != r.states[i]
    requires r.events[i].newJob in r.states[k].jobs && !r.states[k].jobs[r.events[i].newJob].state.IsTerminal()
    ensures CanSucceed(r.states[k], r.events[i].newJob) <==> !Tied(r.events[i].specs)
  {
    SucceedsIffNoKnot(r, k, r.events[i].newJob);
    KnotIffTiedEver(r, i, k);
  }
}
