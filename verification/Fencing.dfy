/**
 Fencing over runs with artifacts: a worker whose attempt ended or was overtaken writes nothing, ever again.
 */
module Fencing {
  import opened Rows
  import opened Invariant
  import opened Progression
  import opened Safety
  import opened Delivery

  /** A request that speaks for attempt a. */
  ghost predicate Names(e: WorldEvent, a: AttemptId) {
    match e
    case Other(p) => ReportsOn(p, a)
    case Completes(b, _, _) => b == a
    case Registers(b, _, _, _, _, _) => b == a
  }

  lemma FencedWorkerWritesNothing(w: World, e: WorldEvent, a: AttemptId)
    requires WorldInv(w) && WorldEnabled(w, e) && Names(e, a) && Fenced(w.db, a)
    ensures WorldApply(w, e) == w
  {
    assert AttemptOk(w.db, a);
  }

  /**
   Once an attempt has ended or been overtaken, it stays so, and no request that names it ever changes a task, a job,
   an attempt, a set or an artifact again.
   */
  lemma FencedForEver(r: WorldRun, i: nat, k: nat, a: AttemptId)
    requires WorldFromEmpty(r) && i <= k < |r.states| && Fenced(r.states[i].db, a)
    ensures Fenced(r.states[k].db, a)
    ensures k < |r.events| && Names(r.events[k], a) ==> r.states[k + 1] == r.states[k]
  {
    WorldReachable(r, i);
    WorldReachable(r, k);
    WorldRunAdvances(r, i, k);
    assert AttemptOk(r.states[i].db, a);
    assert AttemptAdvances(r.states[i].db, r.states[k].db, a);
    assert AttemptOk(r.states[k].db, a);
    assert Fenced(r.states[k].db, a);
    if k < |r.events| && Names(r.events[k], a) {
      assert WorldStepOf(r, k);
      FencedWorkerWritesNothing(r.states[k], r.events[k], a);
    }
  }
}
