/**
 The delivery gate: what a complete artifact set says about its job, then and ever after.
 */
module Gates {
  import opened Rows
  import opened Invariant
  import opened Delivery

  /**
   The gate: a set is complete exactly when every task of its job, validation included, has succeeded; and then it
   is complete, with the same tasks succeeded and the same artifacts, in every later state.
   */
  lemma DeliveryGate(r: WorldRun, i: nat, k: nat, s: SetId)
    requires WorldFromEmpty(r) && i <= k < |r.states| && s in r.states[i].sets
    ensures r.states[i].sets[s].state == SetComplete <==> AllSucceeded(r.states[i].db.tasks, r.states[i].sets[s].job)
    ensures TasksOf(r.states[i].db.tasks, r.states[i].sets[s].job) != {}
    ensures r.states[i].sets[s].state == SetComplete ==>
              && s in r.states[k].sets && r.states[k].sets[s] == r.states[i].sets[s]
              && AllSucceeded(r.states[k].db.tasks, r.states[i].sets[s].job)
              && forall x :: (x in r.states[k].artifacts && r.states[k].artifacts[x].inSet == s) <==>
                             (x in r.states[i].artifacts && r.states[i].artifacts[x].inSet == s)
  {
    WorldReachable(r, i);
    WorldReachable(r, k);
    WorldRunAdvances(r, i, k);
    GateNow(r.states[i], s);
    if r.states[i].sets[s].state == SetComplete {
      GateNow(r.states[k], s);
    }
  }

  lemma GateNow(w: World, s: SetId)
    requires WorldInv(w) && s in w.sets
    ensures w.sets[s].state == SetComplete <==> AllSucceeded(w.db.tasks, w.sets[s].job)
    ensures TasksOf(w.db.tasks, w.sets[s].job) != {}
  {
    var j := w.sets[s].job;
    assert SetOk(w, s);
    assert JobOk(w.db.jobs, w.db.tasks, j);
    DerivedMeaning(w.db.tasks, j);
    var t :| t in w.db.tasks && w.db.tasks[t].job == j;
    assert t in TasksOf(w.db.tasks, j);
  }
}
