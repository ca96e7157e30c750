/**
 Create inserts a whole graph or nothing, and keeps Invariant.Inv.
 */
module Creation {
  import opened States
  import opened Rows
  import opened Protocol
  import opened Invariant

  /** Row `row` with key `t` is what Create writes for the i-th spec. */
  ghost predicate IsNewRow(t: TaskId, row: Task, specs: seq<NewTask>, i: nat, ids: map<string, TaskId>,
                           j: JobId, tenant: TenantId, priority: int, now: int)
    requires DependenciesKnown(specs, ids)
  {
    && i < |specs|
    && specs[i].key in ids && ids[specs[i].key] == t
    && row == NewRow(specs[i], ids, j, tenant, priority, now)
  }

  ghost predicate AmongNewRows(t: TaskId, row: Task, specs: seq<NewTask>, ids: map<string, TaskId>,
                               j: JobId, tenant: TenantId, priority: int, now: int)
    requires DependenciesKnown(specs, ids)
  {
    exists i: nat :: IsNewRow(t, row, specs, i, ids, j, tenant, priority, now)
  }

  /** The insert loop leaves the old rows untouched and adds one new row per spec. */
  lemma {:induction false} InsertsEach(tasks: map<TaskId, Task>, specs: seq<NewTask>, ids: map<string, TaskId>,
                                       j: JobId, tenant: TenantId, priority: int, now: int)
    requires forall i | 0 <= i < |specs| :: specs[i].key in ids
    requires DependenciesKnown(specs, ids)
    ensures var r := InsertTasks(tasks, specs, ids, j, tenant, priority, now);
            r.Some? ==>
              && (forall t | t in tasks :: t in r.value && r.value[t] == tasks[t])
              && (forall i: nat | i < |specs| ::
                    ids[specs[i].key] !in tasks && ids[specs[i].key] in r.value
                    && r.value[ids[specs[i].key]] == NewRow(specs[i], ids, j, tenant, priority, now))
  {
    if specs != [] {
      var front := specs[..|specs| - 1];
      InsertsEach(tasks, front, ids, j, tenant, priority, now);
      assert forall i | 0 <= i < |front| :: front[i] == specs[i];
    }
  }

  /** ... and adds nothing else. */
  lemma {:induction false} InsertsOnly(tasks: map<TaskId, Task>, specs: seq<NewTask>, ids: map<string, TaskId>,
                                       j: JobId, tenant: TenantId, priority: int, now: int, t: TaskId)
    requires forall i | 0 <= i < |specs| :: specs[i].key in ids
    requires DependenciesKnown(specs, ids)
    requires InsertTasks(tasks, specs, ids, j, tenant, priority, now).Some?
    requires t in InsertTasks(tasks, specs, ids, j, tenant, priority, now).value && t !in tasks
    ensures AmongNewRows(t, InsertTasks(tasks, specs, ids, j, tenant, priority, now).value[t],
                         specs, ids, j, tenant, priority, now)
  {
    var n := |specs| - 1;
    var front := specs[..n];
    var before := InsertTasks(tasks, front, ids, j, tenant, priority, now).value;
    var after := InsertTasks(tasks, specs, ids, j, tenant, priority, now).value;
    if t in before {
      InsertsOnly(tasks, front, ids, j, tenant, priority, now, t);
      var i: nat :| IsNewRow(t, before[t], front, i, ids, j, tenant, priority, now);
      assert front[i] == specs[i] && after[t] == before[t];
      assert IsNewRow(t, after[t], specs, i, ids, j, tenant, priority, now);
    } else {
      assert IsNewRow(t, after[t], specs, n, ids, j, tenant, priority, now);
    }
  }

  /** The rows of a created graph, said of the committed database. */
  ghost predicate Inserted(db: DB, db': DB, specs: seq<NewTask>, ids: map<string, TaskId>,
                           j: JobId, tenant: TenantId, priority: int)
    requires DependenciesKnown(specs, ids)
  {
    && db'.attempts == db.attempts
    && db'.now == db.now
    && j !in db.jobs
    && (exists key :: db'.jobs == db.jobs[j := Job(tenant, key, priority, JobPending)])
    && (forall t | t in db.tasks :: t in db'.tasks && db'.tasks[t] == db.tasks[t])
    && (forall t | t in db'.tasks && t !in db.tasks ::
          AmongNewRows(t, db'.tasks[t], specs, ids, j, tenant, priority, db.now))
    && (forall k | k in ids :: ids[k] !in db.tasks && ids[k] in db'.tasks)
    && (forall i: nat | i < |specs| :: specs[i].key in ids &&
          IsNewRow(ids[specs[i].key], db'.tasks[ids[specs[i].key]], specs, i, ids, j, tenant, priority, db.now))
    && ids != map[]
  }

  ghost predicate KeysOf(specs: seq<NewTask>, ids: map<string, TaskId>) {
    && (forall i | 0 <= i < |specs| :: specs[i].key in ids)
    && (forall k | k in ids :: exists i :: 0 <= i < |specs| && specs[i].key == k)
  }

  lemma InsertMeansInserted(db: DB, db': DB, key: Option<string>, specs: seq<NewTask>, ids: map<string, TaskId>,
                            j: JobId, tenant: TenantId, priority: int)
    requires KeysOf(specs, ids) && DependenciesKnown(specs, ids) && specs != [] && j !in db.jobs
    requires InsertTasks(db.tasks, specs, ids, j, tenant, priority, db.now) == Some(db'.tasks)
    requires db' == db.(jobs := db.jobs[j := Job(tenant, key, priority, JobPending)], tasks := db'.tasks)
    ensures Inserted(db, db', specs, ids, j, tenant, priority)
  {
    InsertsEach(db.tasks, specs, ids, j, tenant, priority, db.now);
    forall t | t in db'.tasks && t !in db.tasks
      ensures AmongNewRows(t, db'.tasks[t], specs, ids, j, tenant, priority, db.now)
    {
      InsertsOnly(db.tasks, specs, ids, j, tenant, priority, db.now, t);
    }
    assert specs[0].key in ids;
  }

  lemma CreateInserts(db: DB, tenant: TenantId, key: Option<string>, priority: int,
                      specs: seq<NewTask>, j: JobId, uuids: seq<TaskId>)
    requires |specs| == |uuids|
    requires Create(db, tenant, key, priority, specs, j, uuids).After(db) != db
    ensures DependenciesKnown(specs, KeyIds(specs, uuids))
    ensures Inserted(db, Create(db, tenant, key, priority, specs, j, uuids).After(db),
                     specs, KeyIds(specs, uuids), j, tenant, priority)
  {
    KeyIdsDomain(specs, uuids);
    InsertMeansInserted(db, Create(db, tenant, key, priority, specs, j, uuids).db, key,
                        specs, KeyIds(specs, uuids), j, tenant, priority);
  }

  lemma InsertedKeeps(db: DB, db': DB, specs: seq<NewTask>, ids: map<string, TaskId>,
                      j: JobId, tenant: TenantId, priority: int)
    requires Inv(db) && DependenciesKnown(specs, ids) && Inserted(db, db', specs, ids, j, tenant, priority)
    ensures Inv(db')
  {
    InsertedKeepsRows(db, db', specs, ids, j, tenant, priority);
    InsertedKeepsGraph(db, db', specs, ids, j, tenant, priority);
    InsertedKeepsCancel(db, db', specs, ids, j, tenant, priority);
    InsertedKeepsJobs(db, db', specs, ids, j, tenant, priority);
  }

  lemma InsertedKeepsRows(db: DB, db': DB, specs: seq<NewTask>, ids: map<string, TaskId>,
                          j: JobId, tenant: TenantId, priority: int)
    requires Inv(db) && DependenciesKnown(specs, ids) && Inserted(db, db', specs, ids, j, tenant, priority)
    ensures RowsInv(db')
  {
    forall t | t in db'.tasks ensures TaskOk(db', t) {
      if t in db.tasks { assert TaskOk(db, t); }
    }
    forall a | a in db'.attempts ensures AttemptOk(db', a) { assert AttemptOk(db, a); }
  }

  /** A new row depends on new rows, none of which has succeeded. */
  lemma NewRowWaits(db: DB, db': DB, specs: seq<NewTask>, ids: map<string, TaskId>,
                    j: JobId, tenant: TenantId, priority: int, t: TaskId)
    requires DependenciesKnown(specs, ids) && Inserted(db, db', specs, ids, j, tenant, priority)
    requires t in db'.tasks && t !in db.tasks
    ensures DependenciesInJob(db'.tasks, t) && WaitsExactly(db'.tasks, t)
  {
    var i: nat :| IsNewRow(t, db'.tasks[t], specs, i, ids, j, tenant, priority, db.now);
    var deps := db'.tasks[t].dependsOn;
    forall d | d in deps ensures d in db'.tasks && db'.tasks[d].job == j && db'.tasks[d].state != TaskSucceeded {
      var n :| 0 <= n < |deps| && deps[n] == d;
      assert specs[i].dependsOn[n] in ids;
    }
    if deps != [] { assert deps[0] in deps; }
  }

  lemma InsertedKeepsGraph(db: DB, db': DB, specs: seq<NewTask>, ids: map<string, TaskId>,
                           j: JobId, tenant: TenantId, priority: int)
    requires Inv(db) && DependenciesKnown(specs, ids) && Inserted(db, db', specs, ids, j, tenant, priority)
    ensures GraphInv(db'.tasks)
  {
    forall t | t in db'.tasks ensures DependenciesInJob(db'.tasks, t) && WaitsExactly(db'.tasks, t) {
      if t in db.tasks {
        assert WaitsExactly(db.tasks, t);
        assert DependenciesMet(db'.tasks, db.tasks[t].dependsOn) == DependenciesMet(db.tasks, db.tasks[t].dependsOn);
      } else {
        NewRowWaits(db, db', specs, ids, j, tenant, priority, t);
      }
    }
  }

  lemma InsertedKeepsCancel(db: DB, db': DB, specs: seq<NewTask>, ids: map<string, TaskId>,
                            j: JobId, tenant: TenantId, priority: int)
    requires Inv(db) && DependenciesKnown(specs, ids) && Inserted(db, db', specs, ids, j, tenant, priority)
    ensures CancelInv(db'.tasks)
  {
    forall t, u | t in db'.tasks && u in db'.tasks ensures CancelOk(db'.tasks, t, u) {
      if t in db.tasks {
        assert TaskOk(db, t);
        if u in db.tasks { assert CancelOk(db.tasks, t, u); }
      }
    }
  }

  lemma InsertedKeepsJobs(db: DB, db': DB, specs: seq<NewTask>, ids: map<string, TaskId>,
                          j: JobId, tenant: TenantId, priority: int)
    requires Inv(db) && DependenciesKnown(specs, ids) && Inserted(db, db', specs, ids, j, tenant, priority)
    ensures JobInv(db'.jobs, db'.tasks)
  {
    forall t | t in db.tasks ensures db.tasks[t].job != j { assert TaskOk(db, t); }
    forall i | i in db'.jobs ensures JobOk(db'.jobs, db'.tasks, i) {
      if i == j {
        DerivedMeaning(db'.tasks, j);
        var k :| k in ids;
        assert ids[k] in db'.tasks && db'.tasks[ids[k]].job == j;
      } else {
        assert JobOk(db.jobs, db.tasks, i);
        DerivedFrame(db.tasks, db'.tasks, i);
        var t :| t in db.tasks && db.tasks[t].job == i;
        assert t in db'.tasks;
      }
    }
  }

  lemma CreateKeeps(db: DB, tenant: TenantId, key: Option<string>, priority: int,
                    specs: seq<NewTask>, j: JobId, uuids: seq<TaskId>)
    requires Inv(db) && |specs| == |uuids|
    ensures Inv(Create(db, tenant, key, priority, specs, j, uuids).After(db))
  {
    var db' := Create(db, tenant, key, priority, specs, j, uuids).After(db);
    if db' != db {
      CreateInserts(db, tenant, key, priority, specs, j, uuids);
      InsertedKeeps(db, db', specs, KeyIds(specs, uuids), j, tenant, priority);
    }
  }
}
