/**
 When a job can get stuck. Create accepts any graph whose dependencies exist, cyclic ones included; a job stalls
 only on a knot, a set of its tasks each waiting for another member, and the graphs the planner lists have none.
 */
module Deadlock {
  import opened States
  import opened Rows
  import opened Protocol
  import opened Invariant
  import opened Creation
  import opened Steps
  import opened Progression
  import opened Safety
  import opened Submissions

  ghost predicate WaitsInside(tasks: map<TaskId, Task>, c: set<TaskId>, t: TaskId)
    requires t in tasks
  {
    exists d :: d in tasks[t].dependsOn && d in c
  }

  ghost predicate Knot(tasks: map<TaskId, Task>, j: JobId, c: set<TaskId>) {
    && c != {}
    && (forall t | t in c :: t in tasks && tasks[t].job == j)
    && (forall t {:trigger WaitsInside(tasks, c, t)} | t in c :: WaitsInside(tasks, c, t))
  }

  ghost predicate Stuck(db: DB, j: JobId) {
    && j in db.jobs && !db.jobs[j].state.IsTerminal()
    && (forall t | t in db.tasks && db.tasks[t].job == j :: !Active(db.tasks[t].state))
  }

  /** A job that is not finished yet has nothing queued, leased or running only if its graph has a knot. */
  lemma StuckMeansKnot(db: DB, j: JobId) returns (c: set<TaskId>)
    requires Inv(db) && Stuck(db, j)
    ensures Knot(db.tasks, j, c)
  {
    assert JobOk(db.jobs, db.tasks, j);
    DerivedMeaning(db.tasks, j);
    c := set t | t in db.tasks && db.tasks[t].job == j && db.tasks[t].state == TaskPending;
    forall t | t in c ensures WaitsInside(db.tasks, c, t) {
      assert WaitsExactly(db.tasks, t);
      var d :| d in db.tasks[t].dependsOn && d in db.tasks && db.tasks[d].state != TaskSucceeded;
      assert db.tasks[d].job == j;
      assert d in c;
    }
    var u :| u in db.tasks && db.tasks[u].job == j && db.tasks[u].state != TaskSucceeded;
    assert u in c;
  }

  ghost predicate NeverRan(tasks: map<TaskId, Task>, c: set<TaskId>) {
    forall t | t in c :: t in tasks && tasks[t].state in {TaskPending, TaskCancelled}
  }

  lemma StepLeavesKnot(db: DB, e: Event, j: JobId, c: set<TaskId>)
    requires Inv(db) && Enabled(db, e) && Knot(db.tasks, j, c) && NeverRan(db.tasks, c)
    ensures NeverRan(Apply(db, e).tasks, c)
  {
    var db' := Apply(db, e);
    StepKeeps(db, e);
    StepAdvances(db, e);
    StepIsLegal(db, e);
    forall t | t in c ensures t in db'.tasks && db'.tasks[t].state in {TaskPending, TaskCancelled} {
      assert WaitsInside(db.tasks, c, t);
      var d :| d in db.tasks[t].dependsOn && d in c;
      WaiterStaysPut(db, db', t, d);
    }
  }

  /** One legal step cannot take a pending task that waits for a pending one any further than cancelled. */
  lemma WaiterStaysPut(db: DB, db': DB, t: TaskId, d: TaskId)
    requires Inv(db') && Advances(db, db') && LegalStep(db, db')
    requires t in db.tasks && db.tasks[t].state in {TaskPending, TaskCancelled} && d in db.tasks[t].dependsOn
    requires d in db.tasks && db.tasks[d].state in {TaskPending, TaskCancelled}
    ensures t in db'.tasks && db'.tasks[t].state in {TaskPending, TaskCancelled}
  {
    assert TaskAdvances(db, db', t);
    assert TaskMoveLegal(db, db', d);
    assert TaskMoveLegal(db, db', t);
    assert WaitsExactly(db'.tasks, t);
  }

  lemma NewKnotNeverRan(db: DB, e: Event, j: JobId, c: set<TaskId>)
    requires Inv(db) && Enabled(db, e) && Knot(Apply(db, e).tasks, j, c) && !(c <= db.tasks.Keys)
    ensures NeverRan(Apply(db, e).tasks, c)
  {
    var db' := Apply(db, e);
    StepKeeps(db, e);
    StepAdvances(db, e);
    var u :| u in c && u !in db.tasks;
    assert TaskIsOld(db, db', u);
    forall t | t in db.tasks ensures t in db'.tasks && db'.tasks[t].job in db.jobs {
      assert TaskOk(db, t);
      assert TaskAdvances(db, db', t);
    }
    forall t | t in c ensures db'.tasks[t].state in {TaskPending, TaskCancelled} {
      assert t !in db.tasks;
      NewTaskState(db, e, t);
      assert WaitsInside(db'.tasks, c, t);
    }
  }

  lemma NewTaskState(db: DB, e: Event, t: TaskId)
    requires Inv(db) && Enabled(db, e) && t in Apply(db, e).tasks && t !in db.tasks
    ensures Apply(db, e).tasks[t].state == if Apply(db, e).tasks[t].dependsOn == [] then TaskQueued else TaskPending
  {
    OnlySubmitAddsTasks(db, e, t);
    CreateInserts(db, e.tenant, e.key, e.priority, e.specs, e.newJob, e.uuids);
    var db', ids := Apply(db, e), KeyIds(e.specs, e.uuids);
    assert AmongNewRows(t, db'.tasks[t], e.specs, ids, e.newJob, e.tenant, e.priority, db.now);
  }

  lemma OnlySubmitAddsTasks(db: DB, e: Event, t: TaskId)
    requires Inv(db) && Enabled(db, e) && t in Apply(db, e).tasks && t !in db.tasks
    ensures e.Submit?
  {
    if !e.Submit? {
      StepAdvances(db, e);
      StepKeeps(db, e);
      assert TaskIsOld(db, Apply(db, e), t);
      assert TaskOk(Apply(db, e), t);
      StepKeepsJobRows(db, e);
    }
  }

  /** Tasks in a knot are never queued, let alone run, and their job never succeeds. */
  lemma {:induction false} KnotNeverFinishes(r: Run, i: nat, j: JobId, c: set<TaskId>)
    requires FromEmpty(r) && i < |r.states| && Knot(r.states[i].tasks, j, c)
    ensures NeverRan(r.states[i].tasks, c)
    ensures j in r.states[i].jobs && r.states[i].jobs[j].state != JobSucceeded
  {
    ReachableInv(r, i);
    if i > 0 {
      var db, e := r.states[i - 1], r.events[i - 1];
      ReachableInv(r, i - 1);
      assert StepOf(r, i - 1);
      if c <= db.tasks.Keys {
        StepAdvances(db, e);
        KnotBefore(db, r.states[i], j, c);
        KnotNeverFinishes(r, i - 1, j, c);
        StepLeavesKnot(db, e, j, c);
      } else {
        NewKnotNeverRan(db, e, j, c);
      }
    }
    KnotHoldsJob(r.states[i], j, c);
  }

  /** Rows never change their dependencies, so a knot was one as long as its tasks have existed. */
  lemma KnotBefore(db: DB, db': DB, j: JobId, c: set<TaskId>)
    requires Advances(db, db') && c <= db.tasks.Keys && Knot(db'.tasks, j, c)
    ensures Knot(db.tasks, j, c)
  {
    forall t | t in c ensures t in db.tasks && db.tasks[t].job == j && WaitsInside(db.tasks, c, t) {
      assert TaskAdvances(db, db', t);
      assert WaitsInside(db'.tasks, c, t);
    }
  }

  lemma KnotAfter(db: DB, db': DB, j: JobId, c: set<TaskId>)
    requires Advances(db, db') && Knot(db.tasks, j, c)
    ensures Knot(db'.tasks, j, c)
  {
    forall t | t in c ensures t in db'.tasks && db'.tasks[t].job == j && WaitsInside(db'.tasks, c, t) {
      assert TaskAdvances(db, db', t);
      assert WaitsInside(db.tasks, c, t);
    }
  }

  lemma KnotHoldsJob(db: DB, j: JobId, c: set<TaskId>)
    requires Inv(db) && Knot(db.tasks, j, c) && NeverRan(db.tasks, c)
    ensures j in db.jobs && db.jobs[j].state != JobSucceeded
  {
    var t :| t in c;
    assert TaskOk(db, t);
    assert JobOk(db.jobs, db.tasks, j);
    DerivedMeaning(db.tasks, j);
  }

  // ---- graphs listed in order have no knot ----

  /** Every dependency names an earlier task of the list. */
  predicate ListedInOrder(specs: seq<NewTask>) {
    forall i, d | 0 <= i < |specs| && d in specs[i].dependsOn :: exists m :: 0 <= m < i && specs[m].key == d
  }

  predicate DistinctKeys(specs: seq<NewTask>) {
    forall i, k | 0 <= i < k < |specs| :: specs[i].key != specs[k].key
  }

  /** The same on the list a caller submits: some keys, each of them waiting for one of them. */
  ghost predicate SpecKnot(specs: seq<NewTask>, keys: set<string>) {
    && (exists i :: 0 <= i < |specs| && specs[i].key in keys)
    && (forall i {:trigger SpecWaits(specs, keys, i)} | 0 <= i < |specs| && specs[i].key in keys :: SpecWaits(specs, keys, i))
  }

  ghost predicate SpecWaits(specs: seq<NewTask>, keys: set<string>, i: int)
    requires 0 <= i < |specs|
  {
    exists n :: 0 <= n < |specs[i].dependsOn| && specs[i].dependsOn[n] in keys
  }

  ghost predicate Tied(specs: seq<NewTask>) {
    exists keys :: SpecKnot(specs, keys)
  }

  ghost predicate HasKnot(tasks: map<TaskId, Task>, j: JobId) {
    exists c :: Knot(tasks, j, c)
  }

  lemma KnotFromSpecs(db: DB, db': DB, specs: seq<NewTask>, ids: map<string, TaskId>, j: JobId, tenant: TenantId,
                      priority: int, keys: set<string>)
    requires KeysOf(specs, ids) && DependenciesKnown(specs, ids) && Inserted(db, db', specs, ids, j, tenant, priority)
    requires SpecKnot(specs, keys)
    ensures HasKnot(db'.tasks, j)
  {
    var c := set k | k in ids && k in keys :: ids[k];
    forall t | t in c ensures t in db'.tasks && db'.tasks[t].job == j && WaitsInside(db'.tasks, c, t) {
      var k :| k in ids && k in keys && ids[k] == t;
      var i :| 0 <= i < |specs| && specs[i].key == k;
      assert IsNewRow(t, db'.tasks[t], specs, i, ids, j, tenant, priority, db.now);
      assert SpecWaits(specs, keys, i);
      var n :| 0 <= n < |specs[i].dependsOn| && specs[i].dependsOn[n] in keys;
      var d := specs[i].dependsOn[n];
      assert d in specs[i].dependsOn && d in ids && ids[d] in c;
      assert db'.tasks[t].dependsOn[n] == ids[d];
    }
    var i :| 0 <= i < |specs| && specs[i].key in keys;
    assert ids[specs[i].key] in c;
    assert Knot(db'.tasks, j, c);
  }

  lemma SpecsFromKnot(db: DB, db': DB, specs: seq<NewTask>, ids: map<string, TaskId>, j: JobId, tenant: TenantId,
                      priority: int, c: set<TaskId>)
    requires Inv(db) && DependenciesKnown(specs, ids)
    requires Inserted(db, db', specs, ids, j, tenant, priority) && Knot(db'.tasks, j, c)
    ensures SpecKnot(specs, KeysIn(ids, c))
  {
    var keys := KeysIn(ids, c);
    forall i | 0 <= i < |specs| && specs[i].key in keys ensures SpecWaits(specs, keys, i) {
      RowWaits(db, db', specs, ids, j, tenant, priority, c, i);
    }
    var i := SomeSpec(db, db', specs, ids, j, tenant, priority, c);
  }

  lemma SomeSpec(db: DB, db': DB, specs: seq<NewTask>, ids: map<string, TaskId>, j: JobId, tenant: TenantId,
                 priority: int, c: set<TaskId>) returns (i: nat)
    requires Inv(db) && DependenciesKnown(specs, ids) && Inserted(db, db', specs, ids, j, tenant, priority)
    requires Knot(db'.tasks, j, c)
    ensures i < |specs| && specs[i].key in KeysIn(ids, c)
  {
    var t :| t in c;
    NewJobTasksAreNew(db, db', specs, ids, j, tenant, priority, t);
    i :| IsNewRow(t, db'.tasks[t], specs, i, ids, j, tenant, priority, db.now);
  }

  lemma RowWaits(db: DB, db': DB, specs: seq<NewTask>, ids: map<string, TaskId>, j: JobId, tenant: TenantId,
                 priority: int, c: set<TaskId>, i: nat)
    requires DependenciesKnown(specs, ids) && Inserted(db, db', specs, ids, j, tenant, priority)
    requires Knot(db'.tasks, j, c) && i < |specs| && specs[i].key in KeysIn(ids, c)
    ensures SpecWaits(specs, KeysIn(ids, c), i)
  {
    var t := ids[specs[i].key];
    assert IsNewRow(t, db'.tasks[t], specs, i, ids, j, tenant, priority, db.now);
    assert WaitsInside(db'.tasks, c, t);
    WaitsAsListed(specs, ids, i, c);
  }

  function KeysIn(ids: map<string, TaskId>, c: set<TaskId>): set<string> {
    set k | k in ids && ids[k] in c
  }

  lemma WaitsAsListed(specs: seq<NewTask>, ids: map<string, TaskId>, i: nat, c: set<TaskId>)
    requires DependenciesKnown(specs, ids) && i < |specs|
    requires exists d :: d in DependencyIds(specs[i].dependsOn, ids) && d in c
    ensures SpecWaits(specs, KeysIn(ids, c), i)
  {
    var deps := DependencyIds(specs[i].dependsOn, ids);
    var d :| d in deps && d in c;
    var n :| 0 <= n < |deps| && deps[n] == d;
    assert specs[i].dependsOn[n] in specs[i].dependsOn;
  }

  /** Create stores a knot exactly if the list it was given has one. */
  lemma KnotIffTied(db: DB, tenant: TenantId, key: Option<string>, priority: int, specs: seq<NewTask>, j: JobId, uuids: seq<TaskId>)
    requires Inv(db) && |specs| == |uuids|
    requires Create(db, tenant, key, priority, specs, j, uuids).After(db) != db
    ensures HasKnot(Create(db, tenant, key, priority, specs, j, uuids).After(db).tasks, j) <==> Tied(specs)
  {
    var db', ids := Create(db, tenant, key, priority, specs, j, uuids).After(db), KeyIds(specs, uuids);
    KeyIdsDomain(specs, uuids);
    assert KeysOf(specs, ids);
    CreateInserts(db, tenant, key, priority, specs, j, uuids);
    if c :| Knot(db'.tasks, j, c) { SpecsFromKnot(db, db', specs, ids, j, tenant, priority, c); }
    if keys :| SpecKnot(specs, keys) { KnotFromSpecs(db, db', specs, ids, j, tenant, priority, keys); }
  }

  /** ... and its rows have a knot ever after exactly if they have one then. */
  lemma KnotIffTiedEver(r: Run, i: nat, k: nat)
    requires FromEmpty(r) && i < k < |r.states| && r.events[i].Submit? && r.states[i + 1] != r.states[i]
    ensures HasKnot(r.states[k].tasks, r.events[i].newJob) <==> Tied(r.events[i].specs)
  {
    var e, j := r.events[i], r.events[i].newJob;
    ReachableInv(r, i);
    assert StepOf(r, i);
    CreateInserts(r.states[i], e.tenant, e.key, e.priority, e.specs, j, e.uuids);
    KnotIffTied(r.states[i], e.tenant, e.key, e.priority, e.specs, j, e.uuids);
    RunAdvances(r, i + 1, k);
    KnotsPersist(r.states[i + 1], r.states[k], j);
  }

  lemma KnotsPersist(db: DB, db': DB, j: JobId)
    requires Advances(db, db') && j in db.jobs
    ensures HasKnot(db'.tasks, j) <==> HasKnot(db.tasks, j)
  {
    if c :| Knot(db.tasks, j, c) { KnotAfter(db, db', j, c); }
    if c :| Knot(db'.tasks, j, c) {
      forall t | t in c ensures t in db.tasks { assert TaskIsOld(db, db', t); }
      KnotBefore(db, db', j, c);
    }
  }

  /** A list in which every dependency comes first has no knot. */
  lemma OrderUnties(specs: seq<NewTask>)
    requires ListedInOrder(specs)
    ensures !Tied(specs)
  {
    if keys :| SpecKnot(specs, keys) {
      var i :| 0 <= i < |specs| && specs[i].key in keys;
      NoneInside(specs, keys, i);
    }
  }

  lemma {:induction false} NoneInside(specs: seq<NewTask>, keys: set<string>, i: nat)
    requires ListedInOrder(specs) && SpecKnot(specs, keys) && i < |specs|
    ensures specs[i].key !in keys
  {
    if specs[i].key in keys {
      assert SpecWaits(specs, keys, i);
      var n :| 0 <= n < |specs[i].dependsOn| && specs[i].dependsOn[n] in keys;
      var d := specs[i].dependsOn[n];
      assert d in specs[i].dependsOn;
      var m :| 0 <= m < i && specs[m].key == d;
      NoneInside(specs, keys, m);
    }
  }

  lemma NewJobTasksAreNew(db: DB, db': DB, specs: seq<NewTask>, ids: map<string, TaskId>,
                          j: JobId, tenant: TenantId, priority: int, t: TaskId)
    requires Inv(db) && DependenciesKnown(specs, ids) && Inserted(db, db', specs, ids, j, tenant, priority)
    requires t in db'.tasks && db'.tasks[t].job == j
    ensures AmongNewRows(t, db'.tasks[t], specs, ids, j, tenant, priority, db.now)
  {
    assert t in db.tasks ==> TaskOk(db, t);
  }

  /** So a job listed in order is never stuck: until it is finished, something of it is queued, leased or running. */
  lemma OrderedJobNeverStuck(r: Run, i: nat, k: nat)
    requires FromEmpty(r) && i < k < |r.states|
    requires r.events[i].Submit? && ListedInOrder(r.events[i].specs) && r.states[i + 1] != r.states[i]
    ensures !Stuck(r.states[k], r.events[i].newJob)
  {
    if Stuck(r.states[k], r.events[i].newJob) {
      ReachableInv(r, k);
      var c := StuckMeansKnot(r.states[k], r.events[i].newJob);
      OrderUnties(r.events[i].specs);
      KnotIffTiedEver(r, i, k);
    }
  }

  // ---- and Create takes such a list ----

  predicate KnownOperations(specs: seq<NewTask>) {
    forall i | 0 <= i < |specs| :: KnownOperation(specs[i].operation)
  }

  lemma {:induction false} InsertSucceeds(tasks: map<TaskId, Task>, specs: seq<NewTask>, ids: map<string, TaskId>,
                                          j: JobId, tenant: TenantId, priority: int, now: int)
    requires forall i | 0 <= i < |specs| :: specs[i].key in ids && ids[specs[i].key] !in tasks
    requires forall i, k | 0 <= i < k < |specs| :: ids[specs[i].key] != ids[specs[k].key]
    requires DependenciesKnown(specs, ids) && KnownOperations(specs)
    ensures var r := InsertTasks(tasks, specs, ids, j, tenant, priority, now);
            r.Some? && forall t :: t in r.value ==> t in tasks || exists i :: 0 <= i < |specs| && ids[specs[i].key] == t
  {
    if specs != [] {
      var front, n := specs[..|specs| - 1], |specs| - 1;
      InsertSucceeds(tasks, front, ids, j, tenant, priority, now);
      assert forall i | 0 <= i < n :: front[i] == specs[i];
    }
  }

  lemma {:induction false} DistinctKeyIds(specs: seq<NewTask>, uuids: seq<TaskId>, i: nat)
    requires |specs| == |uuids| && i < |specs| && DistinctKeys(specs)
    ensures specs[i].key in KeyIds(specs, uuids) && KeyIds(specs, uuids)[specs[i].key] == uuids[i]
  {
    var n := |specs| - 1;
    if i < n {
      DistinctKeyIds(specs[..n], uuids[..n], i);
      assert specs[i].key != specs[n].key;
    }
  }

  lemma KnownKeys(specs: seq<NewTask>, uuids: seq<TaskId>)
    requires |specs| == |uuids| && ListedInOrder(specs)
    ensures DependenciesKnown(specs, KeyIds(specs, uuids))
  {
    KeyIdsDomain(specs, uuids);
    forall i, d | 0 <= i < |specs| && d in specs[i].dependsOn ensures d in KeyIds(specs, uuids) {
      var m :| 0 <= m < i && specs[m].key == d;
    }
  }

  /** Two specs under one key share an identifier, and the second insert breaks the primary key. */
  lemma {:induction false} RepeatedKeyAborts(tasks: map<TaskId, Task>, specs: seq<NewTask>, ids: map<string, TaskId>,
                                             j: JobId, tenant: TenantId, priority: int, now: int, i: nat, k: nat)
    requires forall n | 0 <= n < |specs| :: specs[n].key in ids
    requires DependenciesKnown(specs, ids) && i < k < |specs| && specs[i].key == specs[k].key
    ensures InsertTasks(tasks, specs, ids, j, tenant, priority, now).None?
  {
    var n := |specs| - 1;
    if k < n {
      RepeatedKeyAborts(tasks, specs[..n], ids, j, tenant, priority, now, i, k);
    } else {
      InsertsEach(tasks, specs[..n], ids, j, tenant, priority, now);
      assert specs[..n][i] == specs[i];
    }
  }

  lemma {:induction false} UnknownOperationAborts(tasks: map<TaskId, Task>, specs: seq<NewTask>, ids: map<string, TaskId>,
                                                  j: JobId, tenant: TenantId, priority: int, now: int, i: nat)
    requires forall n | 0 <= n < |specs| :: specs[n].key in ids
    requires DependenciesKnown(specs, ids) && i < |specs| && !KnownOperation(specs[i].operation)
    ensures InsertTasks(tasks, specs, ids, j, tenant, priority, now).None?
  {
    var n := |specs| - 1;
    if i < n {
      UnknownOperationAborts(tasks, specs[..n], ids, j, tenant, priority, now, i);
    }
  }

  /** A list that uses no key twice and names known operations. */
  predicate Insertable(specs: seq<NewTask>) {
    DistinctKeys(specs) && KnownOperations(specs)
  }

  lemma InsertsIff(tasks: map<TaskId, Task>, specs: seq<NewTask>, uuids: seq<TaskId>, ids: map<string, TaskId>,
                   j: JobId, tenant: TenantId, priority: int, now: int)
    requires |specs| == |uuids| && ids == KeyIds(specs, uuids) && DependenciesKnown(specs, ids)
    requires forall i | 0 <= i < |specs| :: specs[i].key in ids
    requires forall i | 0 <= i < |uuids| :: uuids[i] !in tasks
    requires forall i, k | 0 <= i < k < |uuids| :: uuids[i] != uuids[k]
    ensures InsertTasks(tasks, specs, ids, j, tenant, priority, now).Some? <==> Insertable(specs)
  {
    if !KnownOperations(specs) {
      var i :| 0 <= i < |specs| && !KnownOperation(specs[i].operation);
      UnknownOperationAborts(tasks, specs, ids, j, tenant, priority, now, i);
    } else if DistinctKeys(specs) {
      forall i | 0 <= i < |specs| ensures ids[specs[i].key] == uuids[i] {
        DistinctKeyIds(specs, uuids, i);
      }
      InsertSucceeds(tasks, specs, ids, j, tenant, priority, now);
    } else {
      var i, k :| 0 <= i < k < |specs| && specs[i].key == specs[k].key;
      RepeatedKeyAborts(tasks, specs, ids, j, tenant, priority, now, i, k);
    }
  }

  /**
   With fresh identifiers and no earlier submission under the key, Create takes exactly the lists that are not empty,
   depend on keys of their own only, use no key twice and name known operations.
   */
  lemma CreateAccepts(db: DB, tenant: TenantId, key: Option<string>, priority: int,
                      specs: seq<NewTask>, j: JobId, uuids: seq<TaskId>)
    requires |specs| == |uuids| && j !in db.jobs && (forall i | 0 <= i < |uuids| :: uuids[i] !in db.tasks)
    requires forall i, k | 0 <= i < k < |uuids| :: uuids[i] != uuids[k]
    requires key == None || forall k | k in db.jobs :: db.jobs[k].tenant != tenant || db.jobs[k].idempotencyKey != key
    ensures var tx := Create(db, tenant, key, priority, specs, j, uuids);
            && (tx.Commit? <==>
                (specs != [] && DependenciesKnown(specs, KeyIds(specs, uuids)) && Insertable(specs)))
            && (tx.Commit? ==> tx.value == j && j in tx.db.jobs)
  {
    var ids := KeyIds(specs, uuids);
    KeyIdsDomain(specs, uuids);
    if DependenciesKnown(specs, ids) {
      InsertsIff(db.tasks, specs, uuids, ids, j, tenant, priority, db.now);
    }
  }

  /** Nothing in that asks for an order: a task that depends on itself is accepted, and its job is stuck at once. */
  lemma SelfDependencyIsStuck(operation: string, tenant: TenantId, priority: int)
    requires KnownOperation(operation)
    ensures var spec := NewTask("a", operation, NoRequirements, ["a"], 0, 0);
            var tx := Create(EmptyDB, tenant, None, priority, [spec], 0, [1]);
            tx.Commit? && Stuck(tx.db, 0) && Knot(tx.db.tasks, 0, {1})
  {
    var spec := NewTask("a", operation, NoRequirements, ["a"], 0, 0);
    var tx := Create(EmptyDB, tenant, None, priority, [spec], 0, [1]);
    assert KeyIds([spec], [1]) == map["a" := 1];
    CreateAccepts(EmptyDB, tenant, None, priority, [spec], 0, [1]);
    CreateInserts(EmptyDB, tenant, None, priority, [spec], 0, [1]);
    assert tx.db.tasks[1].dependsOn == [1];
    assert 1 in tx.db.tasks[1].dependsOn && WaitsInside(tx.db.tasks, {1}, 1);
  }
}
