/**
 Artifact sets on top of the lease protocol: internal/artifact/artifact.go, with the two worker handlers that drive
 it (internal/api/workers.go and internal/api/artifacts.go). Each handler is one step. Object storage is what its
 Head call answers for the registered key.
 */
module Delivery {
  import opened States
  import opened Rows
  import opened Protocol
  import opened Invariant
  import opened Preservation
  import opened Steps
  import opened Progression

  type SetId = nat
  type ArtifactId = nat

  datatype SetState = SetBuilding | SetValidating | SetComplete | SetFailed

  datatype ArtifactSet = ArtifactSet(job: JobId, version: nat, state: SetState) {
    predicate Open() {
      state == SetBuilding || state == SetValidating
    }
  }

  /** `checksumAlgo` is the nullable column. */
  datatype Artifact = Artifact(
    inSet: SetId, kind: string, name: string, storageKey: string, sizeBytes: int, checksumAlgo: Option<string>,
    attempt: AttemptId)

  datatype World = World(db: DB, sets: map<SetId, ArtifactSet>, artifacts: map<ArtifactId, Artifact>)

  /** An empty `checksumAlgo` is one the report does not name. */
  datatype Registration = Registration(
    kind: string, name: string, storageKey: string, sizeBytes: int, checksumAlgo: string)

  // ---- artifact.go ----

  predicate LabelChar(c: char) {
    'a' <= c <= 'z' || 'A' <= c <= 'Z' || '0' <= c <= '9' || c == '-' || c == '_' || c == '.'
  }

  /** storage.Segment */
  predicate ValidLabel(name: string) {
    && 1 <= |name| <= 128
    && name != "." && name != ".."
    && forall i | 0 <= i < |name| :: LabelChar(name[i])
  }

  predicate IsCurrent(sets: map<SetId, ArtifactSet>, j: JobId, s: SetId) {
    && s in sets && sets[s].job == j
    && forall u | u in sets && sets[u].job == j :: sets[u].version <= sets[s].version
  }

  predicate HasSet(sets: map<SetId, ArtifactSet>, j: JobId) {
    exists s :: s in sets && sets[s].job == j
  }

  lemma {:induction false} NewestExists(sets: map<SetId, ArtifactSet>, j: JobId, among: set<SetId>) returns (s: SetId)
    requires among != {} && forall u | u in among :: u in sets && sets[u].job == j
    ensures s in among && forall u | u in among :: sets[u].version <= sets[s].version
    decreases among
  {
    s :| s in among;
    var rest := among - {s};
    if rest == {} {
      assert among == {s};
    } else {
      var best := NewestExists(sets, j, rest);
      assert forall u | u in among :: u == s || u in rest;
      s := if sets[s].version >= sets[best].version then s else best;
    }
  }

  /** `order by version desc limit 1`, for a job that has a set. */
  ghost function CurrentSet(sets: map<SetId, ArtifactSet>, j: JobId): (s: SetId)
    requires HasSet(sets, j)
    ensures IsCurrent(sets, j, s)
  {
    assert exists s :: IsCurrent(sets, j, s) by {
      var own := set u | u in sets && sets[u].job == j;
      var one :| one in sets && sets[one].job == j;
      assert one in own;
      var s := NewestExists(sets, j, own);
      assert IsCurrent(sets, j, s);
    }
    var s :| IsCurrent(sets, j, s);
    s
  }

  datatype Outcome = Accepted(world: World) | Refused(reason: Refusal)

  datatype Refusal =
    | BadLabel | MissingObject | SizeMismatch | LabelConflict | UnreadableRow | BadKind | KeyConflict | DuplicateId | Stale

  predicate Labelled(artifacts: map<ArtifactId, Artifact>, s: SetId, name: string, x: ArtifactId) {
    x in artifacts && artifacts[x].inSet == s && artifacts[x].name == name
  }

  /** The column check on artifacts.kind. */
  predicate KnownKind(kind: string) {
    kind in {"rendition", "segment_set", "manifest", "thumbnail", "sprite", "sprite_index",
             "poster", "subtitle", "transcript", "clip", "drm_metadata", "log"}
  }

  /** nullable: an empty text is stored as NULL. */
  function Nullable(text: string): Option<string> {
    if text == "" then None else Some(text)
  }

  function RowOf(s: SetId, reg: Registration, size: int, a: AttemptId): Artifact {
    Artifact(s, reg.kind, reg.name, reg.storageKey, size, Nullable(reg.checksumAlgo), a)
  }

  /** The insert: a known kind, and both the primary key and the index on storage_key free. */
  ghost function InsertArtifact(w: World, x: ArtifactId, row: Artifact): Outcome {
    if !KnownKind(row.kind) then Refused(BadKind)
    else if x in w.artifacts then Refused(DuplicateId)
    else if exists y :: y in w.artifacts && w.artifacts[y].storageKey == row.storageKey then Refused(KeyConflict)
    else Accepted(w.(artifacts := w.artifacts[x := row]))
  }

  /** The label is taken: the row is read back into a plain string per column, which a NULL algorithm does not fit. */
  function Repeated(row: Artifact, reg: Registration): Option<Refusal> {
    if row.checksumAlgo.None? then Some(UnreadableRow)
    else if row.storageKey == reg.storageKey then None
    else Some(LabelConflict)
  }

  /** Register from where the set is known; only an insert commits, so a repeat leaves the database as it was `before`. */
  ghost function RegisterIn(before: World, w: World, s: SetId, a: AttemptId, reg: Registration, size: int,
                            newArtifact: ArtifactId): Outcome
  {
    if x :| Labelled(w.artifacts, s, reg.name, x) then
      match Repeated(w.artifacts[x], reg)
      case None => Accepted(before)
      case Some(why) => Refused(why)
    else InsertArtifact(w, newArtifact, RowOf(s, reg, size, a))
  }

  /** Register. `stored` is the size storage reports for the key, if it holds the object. */
  ghost function Register(w: World, j: JobId, a: AttemptId, reg: Registration, stored: Option<int>,
                          newSet: SetId, newArtifact: ArtifactId): Outcome
  {
    if !ValidLabel(reg.name) then Refused(BadLabel)
    else if stored.None? then Refused(MissingObject)
    else if reg.sizeBytes > 0 && stored.value != reg.sizeBytes then Refused(SizeMismatch)
    else if HasSet(w.sets, j) then RegisterIn(w, w, CurrentSet(w.sets, j), a, reg, stored.value, newArtifact)
    else if newSet in w.sets then Refused(DuplicateId)
    else
      var opened_ := w.(sets := w.sets[newSet := ArtifactSet(j, 1, SetBuilding)]);
      RegisterIn(w, opened_, newSet, a, reg, stored.value, newArtifact)
  }

  /** MarkComplete and MarkFailed: close the job's open sets. */
  function CloseSets(sets: map<SetId, ArtifactSet>, j: JobId, to: SetState): map<SetId, ArtifactSet> {
    map s | s in sets :: if sets[s].job == j && sets[s].Open() then sets[s].(state := to) else sets[s]
  }

  /** No set of the job is open any more; those that were have the new state, and nothing else changed. */
  ghost predicate Closed(sets: map<SetId, ArtifactSet>, sets': map<SetId, ArtifactSet>, j: JobId, to: SetState) {
    && sets'.Keys == sets.Keys
    && (forall s | s in sets :: sets'[s] == sets[s].(state := sets'[s].state))
    && (forall s | s in sets && sets[s].job == j :: !sets'[s].Open())
    && (forall s | s in sets && sets'[s].state != sets[s].state ::
          sets[s].job == j && sets[s].Open() && sets'[s].state == to)
  }

  // ---- the handlers ----

  /** What a completion does to the sets of a job left in this state. */
  function CloseFor(sets: map<SetId, ArtifactSet>, j: JobId, state: JobState): map<SetId, ArtifactSet> {
    match state
    case JobSucceeded => CloseSets(sets, j, SetComplete)
    case JobFailed => CloseSets(sets, j, SetFailed)
    case JobCancelled => CloseSets(sets, j, SetFailed)
    case _ => sets
  }

  ghost function HandleComplete(w: World, a: AttemptId, worker: WorkerId, res: Report): World {
    match Complete(w.db, a, worker, res)
    case Rollback(_) => w
    case Commit(db', c) =>
      World(db', CloseFor(w.sets, c.job, c.jobState), w.artifacts)
  }

  ghost function HandleRegister(w: World, a: AttemptId, worker: WorkerId, reg: Registration, stored: Option<int>,
                                newSet: SetId, newArtifact: ArtifactId): Outcome
  {
    match AuthorizeAttempt(w.db, a, worker)
    case Rollback(_) => Refused(Stale)
    case Commit(_, j) => Register(w, j, a, reg, stored, newSet, newArtifact)
  }

  datatype WorldEvent =
    | Other(e: Event)
    | Completes(attempt: AttemptId, worker: WorkerId, report: Report)
    | Registers(attempt: AttemptId, worker: WorkerId, reg: Registration, stored: Option<int>,
                newSet: SetId, newArtifact: ArtifactId)

  /** Completion only ever happens through its handler. */
  ghost predicate WorldEnabled(w: World, e: WorldEvent) {
    e.Other? ==> !e.e.Finished? && Enabled(w.db, e.e)
  }

  ghost function WorldApply(w: World, e: WorldEvent): World
    requires WorldEnabled(w, e)
  {
    match e
    case Other(p) => w.(db := Apply(w.db, p))
    case Completes(a, worker, res) => HandleComplete(w, a, worker, res)
    case Registers(a, worker, reg, stored, newSet, newArtifact) =>
      match HandleRegister(w, a, worker, reg, stored, newSet, newArtifact)
      case Accepted(w') => w'
      case Refused(_) => w
  }

  // ---- the delivery invariant ----

  /** The state of a set, given the state of its job: complete exactly when the job has succeeded. */
  predicate Gate(js: JobState, ss: SetState) {
    match ss
    case SetComplete => js == JobSucceeded
    case SetFailed => js == JobFailed || js == JobCancelled
    case SetBuilding => js != JobSucceeded
    case SetValidating => false
  }

  ghost predicate SetOk(w: World, s: SetId)
    requires s in w.sets
  {
    && w.sets[s].job in w.db.jobs
    && w.sets[s].version == 1
    && Gate(w.db.jobs[w.sets[s].job].state, w.sets[s].state)
  }

  ghost predicate WorldInv(w: World) {
    && Inv(w.db)
    && (forall s {:trigger SetOk(w, s)} | s in w.sets :: SetOk(w, s))
    && (forall s, u | s in w.sets && u in w.sets && w.sets[s].job == w.sets[u].job :: s == u)
    && (forall x | x in w.artifacts :: w.artifacts[x].inSet in w.sets)
    && (forall x, y | x in w.artifacts && y in w.artifacts
          && w.artifacts[x].inSet == w.artifacts[y].inSet && w.artifacts[x].name == w.artifacts[y].name :: x == y)
    && (forall x, y | x in w.artifacts && y in w.artifacts
          && w.artifacts[x].storageKey == w.artifacts[y].storageKey :: x == y)
  }

  const EmptyWorld := World(EmptyDB, map[], map[])

  /** Only a completion can make a job succeed. */
  lemma OnlyCompletionSucceeds(db: DB, e: Event, j: JobId)
    requires Inv(db) && Enabled(db, e) && !e.Finished? && j in db.jobs
    ensures j in Apply(db, e).jobs
    ensures Apply(db, e).jobs[j].state == JobSucceeded ==> db.jobs[j].state == JobSucceeded
  {
    var db' := Apply(db, e);
    StepKeeps(db, e);
    StepAdvances(db, e);
    assert JobAdvances(db, db', j);
    assert JobOk(db.jobs, db.tasks, j) && JobOk(db'.jobs, db'.tasks, j);
    DerivedMeaning(db.tasks, j);
    DerivedMeaning(db'.tasks, j);
    if db'.jobs[j].state == JobSucceeded {
      forall t | t in db.tasks && db.tasks[t].job == j ensures db.tasks[t].state == TaskSucceeded {
        assert TaskAdvances(db, db', t);
        OnlyCompletionSucceedsTask(db, e, t);
      }
    }
  }

  lemma OnlyCompletionSucceedsTask(db: DB, e: Event, t: TaskId)
    requires Inv(db) && Enabled(db, e) && !e.Finished? && t in db.tasks
    ensures t in Apply(db, e).tasks
    ensures Apply(db, e).tasks[t].state == TaskSucceeded ==> db.tasks[t].state == TaskSucceeded
  {
    StepAdvances(db, e);
    assert TaskAdvances(db, Apply(db, e), t);
    if e.Swept? {
      Sweep.BatchIsSequential(db, e.limit, e.batch);
      SweepSucceedsNothing(db, e.batch, t);
    } else if e.Submit? {
      if Apply(db, e) != db { Creation.CreateInserts(db, e.tenant, e.key, e.priority, e.specs, e.newJob, e.uuids); }
    }
  }

  lemma {:induction false} SweepSucceedsNothing(db: DB, batch: seq<AttemptId>, t: TaskId)
    requires t in db.tasks
    ensures t in Sweep.ReclaimEach(db, batch).tasks
    ensures Sweep.ReclaimEach(db, batch).tasks[t].state == TaskSucceeded ==> db.tasks[t].state == TaskSucceeded
    decreases |batch|
  {
    if batch != [] {
      if Expired(db, batch[0]) {
        SweepSucceedsNothing(ReclaimRow(db, ReadRow(db, batch[0])).After(db), batch[1..], t);
      } else {
        SweepSucceedsNothing(db, batch[1..], t);
      }
    }
  }

  /** A worker that may register holds a live lease on an uncancelled task, so its job has not succeeded. */
  lemma AuthorizedJobIsOpen(db: DB, a: AttemptId, worker: WorkerId)
    requires Inv(db) && AuthorizeAttempt(db, a, worker).Commit?
    ensures var j := AuthorizeAttempt(db, a, worker).value;
            j in db.jobs && db.jobs[j].state != JobSucceeded && db.jobs[j].state != JobCancelled
  {
    LiveAttempt(db, a);
    var t := db.attempts[a].task;
    var j := db.tasks[t].job;
    assert JobOk(db.jobs, db.tasks, j);
    DerivedMeaning(db.tasks, j);
    if c :| c in db.tasks && db.tasks[c].job == j && db.tasks[c].state == TaskCancelled {
      assert CancelOk(db.tasks, c, t);
    }
  }

  lemma ProtocolKeepsWorld(w: World, e: Event)
    requires WorldInv(w) && Enabled(w.db, e) && !e.Finished?
    ensures WorldInv(w.(db := Apply(w.db, e)))
  {
    var w' := w.(db := Apply(w.db, e));
    StepKeeps(w.db, e);
    StepAdvances(w.db, e);
    forall s | s in w'.sets ensures SetOk(w', s) {
      assert SetOk(w, s);
      assert JobAdvances(w.db, w'.db, w.sets[s].job);
      OnlyCompletionSucceeds(w.db, e, w.sets[s].job);
    }
  }

  /** Completion touches the state of no job but its own. */
  lemma CompleteTouchesOneJob(db: DB, a: AttemptId, worker: WorkerId, res: Report)
    requires Inv(db) && Complete(db, a, worker, res).Commit?
    ensures var tx := Complete(db, a, worker, res);
            && tx.db.jobs.Keys == db.jobs.Keys
            && tx.value.job in db.jobs && tx.value.jobState == tx.db.jobs[tx.value.job].state
            && forall i | i in db.jobs && i != tx.value.job :: tx.db.jobs[i] == db.jobs[i]
  {
    LiveAttempt(db, a);
  }

  lemma ClosingKeeps(w: World, db': DB, j: JobId)
    requires WorldInv(w) && Inv(db') && j in db'.jobs
    requires forall i {:trigger JobAdvances(w.db, db', i)} | i in w.db.jobs :: JobAdvances(w.db, db', i)
    requires forall i | i in w.db.jobs && i != j :: i in db'.jobs && db'.jobs[i] == w.db.jobs[i]
    ensures WorldInv(World(db', CloseFor(w.sets, j, db'.jobs[j].state), w.artifacts))
  {
    var w' := World(db', CloseFor(w.sets, j, db'.jobs[j].state), w.artifacts);
    forall s | s in w'.sets ensures SetOk(w', s) {
      assert SetOk(w, s);
      assert JobAdvances(w.db, db', w.sets[s].job);
    }
  }

  lemma CompleteKeepsWorld(w: World, a: AttemptId, worker: WorkerId, res: Report)
    requires WorldInv(w)
    ensures WorldInv(HandleComplete(w, a, worker, res))
  {
    var tx := Complete(w.db, a, worker, res);
    if tx.Commit? {
      CompleteKeeps(w.db, a, worker, res);
      CompleteTouchesOneJob(w.db, a, worker, res);
      StepAdvances(w.db, Finished(a, worker, res));
      ClosingKeeps(w, tx.db, tx.value.job);
    }
  }

  /** What an accepted registration that changes anything does: one artifact, into the job's only set, perhaps new. */
  ghost predicate Registered(w: World, w': World, j: JobId, x: ArtifactId, s: SetId) {
    && w'.db == w.db
    && (if HasSet(w.sets, j)
        then s in w.sets && w.sets[s].job == j && w'.sets == w.sets
        else s !in w.sets && w'.sets == w.sets[s := ArtifactSet(j, 1, SetBuilding)])
    && x !in w.artifacts && x in w'.artifacts
    && w'.artifacts == w.artifacts[x := w'.artifacts[x]]
    && w'.artifacts[x].inSet == s
    && (forall y | y in w.artifacts ::
          && w.artifacts[y].storageKey != w'.artifacts[x].storageKey
          && !(w.artifacts[y].inSet == s && w.artifacts[y].name == w'.artifacts[x].name))
  }

  lemma RegisterInserts(w: World, j: JobId, a: AttemptId, reg: Registration, stored: Option<int>,
                        newSet: SetId, newArtifact: ArtifactId) returns (s: SetId)
    requires Register(w, j, a, reg, stored, newSet, newArtifact).Accepted?
    requires Register(w, j, a, reg, stored, newSet, newArtifact).world != w
    ensures Registered(w, Register(w, j, a, reg, stored, newSet, newArtifact).world, j, newArtifact, s)
  {
    s := if HasSet(w.sets, j) then CurrentSet(w.sets, j) else newSet;
    assert forall y | y in w.artifacts && w.artifacts[y].inSet == s && w.artifacts[y].name == reg.name ::
        Labelled(w.artifacts, s, reg.name, y);
  }

  lemma RegisteredKeeps(w: World, w': World, j: JobId, x: ArtifactId, s: SetId)
    requires WorldInv(w) && Registered(w, w', j, x, s)
    requires j in w.db.jobs && w.db.jobs[j].state != JobSucceeded
    ensures WorldInv(w')
  {
    forall u | u in w'.sets ensures SetOk(w', u) {
      if u in w.sets { assert SetOk(w, u); }
    }
  }

  lemma RegisterKeepsWorld(w: World, e: WorldEvent)
    requires WorldInv(w) && e.Registers?
    ensures WorldInv(WorldApply(w, e))
  {
    if WorldApply(w, e) != w {
      AuthorizedJobIsOpen(w.db, e.attempt, e.worker);
      var j := AuthorizeAttempt(w.db, e.attempt, e.worker).value;
      var s := RegisterInserts(w, j, e.attempt, e.reg, e.stored, e.newSet, e.newArtifact);
      RegisteredKeeps(w, WorldApply(w, e), j, e.newArtifact, s);
    }
  }

  lemma WorldStepKeeps(w: World, e: WorldEvent)
    requires WorldInv(w) && WorldEnabled(w, e)
    ensures WorldInv(WorldApply(w, e))
  {
    match e
    case Other(p) => ProtocolKeepsWorld(w, p);
    case Completes(a, worker, res) => CompleteKeepsWorld(w, a, worker, res);
    case Registers(_, _, _, _, _, _) => RegisterKeepsWorld(w, e);
  }

  // ---- what a reader of a set may rely on ----

  ghost predicate WorldAdvances(w: World, w': World) {
    && Advances(w.db, w'.db)
    && (forall s | s in w.sets :: s in w'.sets && w'.sets[s].job == w.sets[s].job
          && (!w.sets[s].Open() ==> w'.sets[s] == w.sets[s]))
    && (forall x | x in w.artifacts :: x in w'.artifacts && w'.artifacts[x] == w.artifacts[x])
    && (forall x | x in w'.artifacts && x !in w.artifacts && w'.artifacts[x].inSet in w.sets ::
          w.sets[w'.artifacts[x].inSet].state != SetComplete)
  }

  lemma RegisterAdvances(w: World, e: WorldEvent)
    requires WorldInv(w) && e.Registers?
    ensures WorldAdvances(w, WorldApply(w, e))
  {
    SameAdvances(w.db);
    if WorldApply(w, e) != w {
      AuthorizedJobIsOpen(w.db, e.attempt, e.worker);
      var j := AuthorizeAttempt(w.db, e.attempt, e.worker).value;
      var s := RegisterInserts(w, j, e.attempt, e.reg, e.stored, e.newSet, e.newArtifact);
      RegisteredAdvances(w, WorldApply(w, e), j, e.newArtifact, s);
    }
  }

  lemma RegisteredAdvances(w: World, w': World, j: JobId, x: ArtifactId, s: SetId)
    requires WorldInv(w) && Registered(w, w', j, x, s) && Advances(w.db, w'.db)
    requires j in w.db.jobs && w.db.jobs[j].state != JobSucceeded
    ensures WorldAdvances(w, w')
  {
    if s in w.sets { assert SetOk(w, s); }
  }

  lemma ClosingAdvances(w: World, db': DB, j: JobId, state: JobState)
    requires WorldInv(w) && Advances(w.db, db')
    ensures WorldAdvances(w, World(db', CloseFor(w.sets, j, state), w.artifacts))
  {
  }

  /** A closed set keeps its state, an artifact keeps its object, and nothing is added to a complete set. */
  lemma WorldStepAdvances(w: World, e: WorldEvent)
    requires WorldInv(w) && WorldEnabled(w, e)
    ensures WorldAdvances(w, WorldApply(w, e))
  {
    match e
    case Other(p) => StepAdvances(w.db, p);
    case Completes(a, worker, res) =>
      StepAdvances(w.db, Finished(a, worker, res));
      var tx := Complete(w.db, a, worker, res);
      if tx.Commit? { ClosingAdvances(w, tx.db, tx.value.job, tx.value.jobState); }
    case Registers(_, _, _, _, _, _) => RegisterAdvances(w, e);
  }

  datatype WorldRun = WorldRun(states: seq<World>, events: seq<WorldEvent>)

  ghost predicate WorldStepOf(r: WorldRun, i: nat)
    requires i < |r.events| && i + 1 < |r.states|
  {
    WorldEnabled(r.states[i], r.events[i]) && r.states[i + 1] == WorldApply(r.states[i], r.events[i])
  }

  ghost predicate WorldFromEmpty(r: WorldRun) {
    && |r.states| == |r.events| + 1
    && r.states[0] == EmptyWorld
    && (forall i: nat {:trigger WorldStepOf(r, i)} | i < |r.events| :: WorldStepOf(r, i))
  }

  lemma {:induction false} WorldReachable(r: WorldRun, i: nat)
    requires WorldFromEmpty(r) && i < |r.states|
    ensures WorldInv(r.states[i])
  {
    if i > 0 {
      WorldReachable(r, i - 1);
      assert WorldStepOf(r, i - 1);
      WorldStepKeeps(r.states[i - 1], r.events[i - 1]);
    }
  }

  /** What a set and its artifacts keep over any number of steps. */
  ghost predicate SetsKept(w: World, w': World) {
    && (forall s | s in w.sets :: s in w'.sets && w'.sets[s].job == w.sets[s].job
          && (!w.sets[s].Open() ==> w'.sets[s] == w.sets[s]))
    && (forall x | x in w.artifacts :: x in w'.artifacts && w'.artifacts[x] == w.artifacts[x])
    && (forall x | x in w'.artifacts && w'.artifacts[x].inSet in w.sets
          && w.sets[w'.artifacts[x].inSet].state == SetComplete :: x in w.artifacts)
  }

  lemma StillKept(w: World, mid: World, w': World)
    requires SetsKept(w, mid) && WorldAdvances(mid, w')
    ensures SetsKept(w, w')
  {
  }

  lemma {:induction false} WorldRunAdvances(r: WorldRun, i: nat, k: nat)
    requires WorldFromEmpty(r) && i <= k < |r.states|
    ensures Advances(r.states[i].db, r.states[k].db) && SetsKept(r.states[i], r.states[k])
    decreases k
  {
    if i == k {
      SameAdvances(r.states[i].db);
    } else {
      WorldRunAdvances(r, i, k - 1);
      WorldReachable(r, k - 1);
      assert WorldStepOf(r, k - 1);
      WorldStepAdvances(r.states[k - 1], r.events[k - 1]);
      AdvancesTransitive(r.states[i].db, r.states[k - 1].db, r.states[k].db);
      StillKept(r.states[i], r.states[k - 1], r.states[k]);
    }
  }
}
