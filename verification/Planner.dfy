/**
 internal/pipeline/plan.go: from a preset and a probed source to the task graph of a job.
 */
module Planner {
  import opened States
  import opened Rows
  import opened Protocol
  import opened Ladder
  import opened Invariant
  import opened Creation
  import opened Steps
  import opened Progression
  import opened Deadlock
  import opened Liveness

  datatype Preset = Preset(tasks: seq<NewTask>, ladder: seq<Rung>, package: bool, thumbnails: bool) {
    predicate NeedsProbe() {
      |ladder| > 0
    }
  }

  datatype Video = Video(width: int, height: int, fpsNum: int, fpsDen: int)

  /** What the probe found: the first video track, and the channels of the first audio track. */
  datatype Media = Media(video: Option<Video>, audioChannels: Option<int>)

  // ---- the parts of encode.Config.Validate that depend on the source or the rung ----

  const MAX_DIMENSION: int := 7680
  const MAX_BITRATE_BPS: int := 400_000_000
  const MAX_FPS: int := 240
  const MAX_CRF: int := 63
  const MAX_CHANNELS: int := 16

  predicate ValidConfig(size: Size, rung: Rung, media: Media)
    requires media.video.Some?
  {
    var v := media.video.value;
    && 0 < size.width <= MAX_DIMENSION && 0 < size.height <= MAX_DIMENSION
    && size.width % 2 == 0 && size.height % 2 == 0
    && (v.fpsNum > 0 && v.fpsDen > 0 ==> v.fpsNum <= MAX_FPS * v.fpsDen)
    && 0 <= rung.crf <= MAX_CRF
    && 0 <= rung.maxrateBps <= MAX_BITRATE_BPS
    && (media.audioChannels.Some? ==>
          var n := if media.audioChannels.value < 2 then media.audioChannels.value else 2; 0 <= n <= MAX_CHANNELS)
  }

  /** What validation is told to look for in one rendition. */
  datatype Expectation = Expectation(name: string, size: Size)

  datatype Plan_ = Plan_(tasks: seq<NewTask>, expectations: seq<Expectation>)

  datatype PlanResult = Planned(plan: Plan_) | NoVideoTrack | InvalidConfig

  function SizeOf(rung: Rung, v: Video): Size {
    Fit(rung.width, rung.height, v.width, v.height)
  }

  function EncodeKey(rung: Rung): string {
    "encode-" + rung.name
  }

  function EncodeTask(rung: Rung): NewTask {
    NewTask(EncodeKey(rung), "encode", NoRequirements.(encoder := Some("libx264"), slotClass := Some("encode")), [], 0, 0)
  }

  function EncodeKeys(rungs: seq<Rung>): (keys: seq<string>)
    ensures |keys| == |rungs|
  {
    seq(|rungs|, i requires 0 <= i < |rungs| => EncodeKey(rungs[i]))
  }

  function EncodeTasks(rungs: seq<Rung>): (tasks: seq<NewTask>)
    ensures |tasks| == |rungs|
  {
    seq(|rungs|, i requires 0 <= i < |rungs| => EncodeTask(rungs[i]))
  }

  function Expectations(rungs: seq<Rung>, v: Video): (es: seq<Expectation>)
    ensures |es| == |rungs|
  {
    seq(|rungs|, i requires 0 <= i < |rungs| => Expectation(rungs[i].name, SizeOf(rungs[i], v)))
  }

  const ThumbnailTask := NewTask("thumbnails", "thumbnail", NoRequirements.(slotClass := Some("thumbnail")), [], 0, 0)

  function ValidateTask(keys: seq<string>): NewTask {
    NewTask("validate", "validate", NoRequirements, keys, 0, 3)
  }

  function PackageTask(keys: seq<string>): NewTask {
    NewTask("package", "package", NoRequirements, keys + ["validate"], 0, 3)
  }

  /** The graph of a ladder: the encodes, perhaps thumbnails, validation after every encode, perhaps packaging last. */
  function LadderGraph(p: Preset, rungs: seq<Rung>): seq<NewTask> {
    EncodeTasks(rungs)
    + (if p.thumbnails then [ThumbnailTask] else [])
    + [ValidateTask(EncodeKeys(rungs))]
    + (if p.package then [PackageTask(EncodeKeys(rungs))] else [])
  }

  function PlanOf(p: Preset, media: Media): PlanResult {
    if !p.NeedsProbe() then Planned(Plan_(p.tasks, []))
    else if media.video.None? then NoVideoTrack
    else
      var v := media.video.value;
      var rungs := RungsOf(p.ladder, v.width, v.height);
      if exists i :: 0 <= i < |rungs| && !ValidConfig(SizeOf(rungs[i], v), rungs[i], media) then InvalidConfig
      else Planned(Plan_(LadderGraph(p, rungs), Expectations(rungs, v)))
  }

  /** Plan itself: one loop over the rungs, appending to three lists, then the closing tasks. */
  method Plan(p: Preset, media: Media) returns (r: PlanResult)
    ensures r == PlanOf(p, media)
  {
    if !p.NeedsProbe() {
      return Planned(Plan_(p.tasks, []));
    }
    if media.video.None? {
      return NoVideoTrack;
    }
    var v := media.video.value;
    var rungs := RungsFor(p.ladder, v.width, v.height);
    var tasks: seq<NewTask>, expectations: seq<Expectation>, encodeKeys: seq<string> := [], [], [];
    for n := 0 to |rungs|
      invariant tasks == EncodeTasks(rungs[..n])
      invariant expectations == Expectations(rungs[..n], v)
      invariant encodeKeys == EncodeKeys(rungs[..n])
      invariant forall i | 0 <= i < n :: ValidConfig(SizeOf(rungs[i], v), rungs[i], media)
    {
      var rung := rungs[n];
      var size := Fit(rung.width, rung.height, v.width, v.height);
      if !ValidConfig(size, rung, media) {
        return InvalidConfig;
      }
      tasks := tasks + [EncodeTask(rung)];
      expectations := expectations + [Expectation(rung.name, size)];
      encodeKeys := encodeKeys + ["encode-" + rung.name];
    }
    assert rungs[..|rungs|] == rungs;
    if p.thumbnails {
      tasks := tasks + [ThumbnailTask];
    }
    tasks := tasks + [ValidateTask(encodeKeys)];
    if p.package {
      tasks := tasks + [PackageTask(encodeKeys)];
    }
    r := Planned(Plan_(tasks, expectations));
  }

  // ---- what is planned, and what is refused ----

  /** Which sources and ladders have no plan. */
  lemma PlanRefusals(p: Preset, media: Media)
    ensures p.ladder == [] ==> PlanOf(p, media) == Planned(Plan_(p.tasks, []))
    ensures PlanOf(p, media) == NoVideoTrack <==> p.ladder != [] && media.video == None
    ensures PlanOf(p, media) == InvalidConfig <==>
            && p.ladder != [] && media.video.Some?
            && var v := media.video.value;
            && exists r :: r in RungsOf(p.ladder, v.width, v.height) &&
                 (|| Fit(r.width, r.height, v.width, v.height).width > 7680
                  || Fit(r.width, r.height, v.width, v.height).height > 7680
                  || (v.fpsNum > 0 && v.fpsDen > 0 && v.fpsNum > 240 * v.fpsDen)
                  || r.crf < 0 || r.crf > 63 || r.maxrateBps < 0 || r.maxrateBps > 400_000_000
                  || (media.audioChannels.Some? && media.audioChannels.value < 0))
  {
    if p.ladder != [] && media.video.Some? {
      var v := media.video.value;
      var rungs := RungsOf(p.ladder, v.width, v.height);
      if i :| 0 <= i < |rungs| && !ValidConfig(SizeOf(rungs[i], v), rungs[i], media) { assert rungs[i] in rungs; }
    }
  }

  function EncodeSpec(name: string): NewTask {
    NewTask("encode-" + name, "encode", Requirements(Some("libx264"), None, false, 0, 0, Some("encode")), [], 0, 0)
  }

  /**
   The tasks of a plan, in order: one encode for each rung; thumbnails from the source, if asked for; validation of every
   encode; packaging, if asked for, of every encode once it is validated. Validation is told each rung's name and size.
   */
  lemma PlanContents(p: Preset, media: Media)
    requires p.ladder != [] && PlanOf(p, media).Planned?
    ensures var v := media.video.value;
            var rungs, plan := RungsOf(p.ladder, v.width, v.height), PlanOf(p, media).plan;
            var n := |rungs|;
            var m := if p.thumbnails then n + 1 else n;
            && |plan.tasks| == m + (if p.package then 2 else 1) && |plan.expectations| == n
            && (forall i | 0 <= i < n ::
                  && plan.tasks[i] == EncodeSpec(rungs[i].name)
                  && plan.expectations[i] == Expectation(rungs[i].name, Fit(rungs[i].width, rungs[i].height, v.width, v.height)))
            && (p.thumbnails ==>
                plan.tasks[n] == NewTask("thumbnails", "thumbnail", Requirements(None, None, false, 0, 0, Some("thumbnail")), [], 0, 0))
            && plan.tasks[m].(dependsOn := []) == NewTask("validate", "validate", Requirements(None, None, false, 0, 0, None), [], 0, 3)
            && |plan.tasks[m].dependsOn| == n
            && (forall i | 0 <= i < n :: plan.tasks[m].dependsOn[i] == "encode-" + rungs[i].name)
            && (p.package ==>
                && plan.tasks[m + 1].(dependsOn := []) == NewTask("package", "package", Requirements(None, None, false, 0, 0, None), [], 0, 3)
                && plan.tasks[m + 1].dependsOn == plan.tasks[m].dependsOn + ["validate"])
  {
    var v := media.video.value;
    var rungs := RungsOf(p.ladder, v.width, v.height);
    var n := |rungs|;
    var m := if p.thumbnails then n + 1 else n;
    forall i: nat | i < n ensures LadderGraph(p, rungs)[i] == EncodeSpec(rungs[i].name) { GraphIndex(p, rungs, i); }
    if p.thumbnails { GraphIndex(p, rungs, n); }
    GraphIndex(p, rungs, m);
    if p.package { GraphIndex(p, rungs, m + 1); }
  }

  // ---- the graph is one the protocol can run ----

  predicate DistinctNames(rungs: seq<Rung>) {
    forall i, k | 0 <= i < k < |rungs| :: rungs[i].name != rungs[k].name
  }

  lemma EncodeKeyInjective(a: Rung, b: Rung)
    requires EncodeKey(a) == EncodeKey(b)
    ensures a.name == b.name
  {
    assert EncodeKey(a)[7..] == a.name;
    assert EncodeKey(b)[7..] == b.name;
  }

  /** Where each task of the graph stands. */
  lemma GraphIndex(p: Preset, rungs: seq<Rung>, i: nat)
    requires i < |LadderGraph(p, rungs)|
    ensures var g, n := LadderGraph(p, rungs), |rungs|;
            var m := if p.thumbnails then n + 1 else n;
            && (i < n ==> g[i] == EncodeTask(rungs[i]))
            && (n <= i < m ==> g[i] == ThumbnailTask)
            && (i == m ==> g[i] == ValidateTask(EncodeKeys(rungs)))
            && (i > m ==> i == m + 1 && p.package && g[i] == PackageTask(EncodeKeys(rungs)))
            && |g| == m + 1 + (if p.package then 1 else 0)
  {
  }

  /** Every dependency the planner writes names an earlier task of its list. */
  lemma GraphIsOrdered(p: Preset, rungs: seq<Rung>)
    ensures ListedInOrder(LadderGraph(p, rungs))
  {
    var g, n := LadderGraph(p, rungs), |rungs|;
    var m := if p.thumbnails then n + 1 else n;
    forall i: nat | i < |g| ensures forall d | d in g[i].dependsOn :: exists k :: 0 <= k < i && g[k].key == d {
      GraphIndex(p, rungs, i);
      forall d | d in g[i].dependsOn ensures exists k :: 0 <= k < i && g[k].key == d {
        if d in EncodeKeys(rungs) {
          var k :| 0 <= k < n && EncodeKeys(rungs)[k] == d;
          GraphIndex(p, rungs, k);
          assert g[k].key == d;
        } else {
          GraphIndex(p, rungs, m);
          assert g[m].key == d;
        }
      }
    }
  }

  /** No two tasks share a key exactly if no two rungs share a name. */
  lemma GraphKeysDistinct(p: Preset, rungs: seq<Rung>)
    ensures DistinctKeys(LadderGraph(p, rungs)) <==> DistinctNames(rungs)
  {
    if DistinctNames(rungs) {
      NamesMakeKeys(p, rungs);
    } else {
      var g := LadderGraph(p, rungs);
      var i, k :| 0 <= i < k < |rungs| && rungs[i].name == rungs[k].name;
      GraphIndex(p, rungs, i);
      GraphIndex(p, rungs, k);
      assert g[i].key == g[k].key;
    }
  }

  lemma NamesMakeKeys(p: Preset, rungs: seq<Rung>)
    requires DistinctNames(rungs)
    ensures DistinctKeys(LadderGraph(p, rungs))
  {
    var g := LadderGraph(p, rungs);
    forall i, k | 0 <= i < k < |g| ensures g[i].key != g[k].key {
      GraphIndex(p, rungs, i);
      GraphIndex(p, rungs, k);
      if k < |rungs| && g[i].key == g[k].key {
        EncodeKeyInjective(rungs[i], rungs[k]);
      } else if i < |rungs| {
        assert g[i].key[0] == 'e';
      }
    }
  }

  lemma GraphOperationsKnown(p: Preset, rungs: seq<Rung>)
    ensures KnownOperations(LadderGraph(p, rungs))
  {
    var g := LadderGraph(p, rungs);
    forall i: nat | i < |g| ensures KnownOperation(g[i].operation) {
      GraphIndex(p, rungs, i);
    }
  }

  lemma {:induction false} KeptNames(ladder: seq<Rung>, height: int)
    requires DistinctNames(ladder)
    ensures DistinctNames(Kept(ladder, height))
    ensures forall r | r in Kept(ladder, height) :: r in ladder
  {
    if ladder != [] {
      var n := |ladder| - 1;
      KeptNames(ladder[..n], height);
      var front := Kept(ladder[..n], height);
      forall i | 0 <= i < |front| ensures front[i].name != ladder[n].name {
        assert front[i] in ladder[..n];
        var m :| 0 <= m < n && ladder[m] == front[i];
      }
    }
  }

  /** A ladder of distinct names makes rungs of distinct names, whatever the source. */
  lemma LadderNamesSuffice(ladder: seq<Rung>, width: int, height: int)
    requires DistinctNames(ladder)
    ensures DistinctNames(RungsOf(ladder, width, height))
  {
    KeptNames(ladder, height);
  }

  /** Create takes the plan of a ladder exactly if the rungs it makes have distinct names. */
  lemma PlanIsAccepted(p: Preset, media: Media, db: DB, tenant: TenantId, key: Option<string>, priority: int,
                       j: JobId, uuids: seq<TaskId>)
    requires p.NeedsProbe() && PlanOf(p, media).Planned?
    requires |uuids| == |PlanOf(p, media).plan.tasks|
    requires j !in db.jobs && (forall i | 0 <= i < |uuids| :: uuids[i] !in db.tasks)
    requires forall i, k | 0 <= i < k < |uuids| :: uuids[i] != uuids[k]
    requires key == None || forall k | k in db.jobs :: db.jobs[k].tenant != tenant || db.jobs[k].idempotencyKey != key
    ensures var v, tx := media.video.value, Create(db, tenant, key, priority, PlanOf(p, media).plan.tasks, j, uuids);
            tx.Commit? <==> DistinctNames(RungsOf(p.ladder, v.width, v.height))
  {
    var rungs := RungsOf(p.ladder, media.video.value.width, media.video.value.height);
    var specs := PlanOf(p, media).plan.tasks;
    assert specs == LadderGraph(p, rungs);
    GraphIsOrdered(p, rungs);
    GraphOperationsKnown(p, rungs);
    GraphKeysDistinct(p, rungs);
    KnownKeys(specs, uuids);
    CreateAccepts(db, tenant, key, priority, specs, j, uuids);
  }

  /** The job of a plan is never stuck in any run: until it is finished, a task of it is queued, leased or running. */
  lemma PlanNeverStuck(p: Preset, media: Media, r: Run, i: nat, k: nat)
    requires p.NeedsProbe() && PlanOf(p, media).Planned?
    requires FromEmpty(r) && i < k < |r.states| && r.states[i + 1] != r.states[i]
    requires r.events[i].Submit? && r.events[i].specs == PlanOf(p, media).plan.tasks
    ensures !Stuck(r.states[k], r.events[i].newJob)
  {
    GraphIsOrdered(p, RungsOf(p.ladder, media.video.value.width, media.video.value.height));
    OrderedJobNeverStuck(r, i, k);
  }

  /** ... and as long as it is unfinished it can still succeed, if the workers do their work. */
  lemma PlanCanSucceed(p: Preset, media: Media, r: Run, i: nat, k: nat)
    requires p.NeedsProbe() && PlanOf(p, media).Planned?
    requires FromEmpty(r) && i < k < |r.states| && r.states[i + 1] != r.states[i]
    requires r.events[i].Submit? && r.events[i].specs == PlanOf(p, media).plan.tasks
    requires r.events[i].newJob in r.states[k].jobs && !r.states[k].jobs[r.events[i].newJob].state.IsTerminal()
    ensures CanSucceed(r.states[k], r.events[i].newJob)
  {
    var rungs := RungsOf(p.ladder, media.video.value.width, media.video.value.height);
    GraphIsOrdered(p, rungs);
    OrderUnties(LadderGraph(p, rungs));
    SucceedsIffUntied(r, i, k);
  }

  // ---- packaging waits for everything it is built from ----

  /** A task of a planned job, wherever the run has got to, is still the row its spec described. */
  lemma PlannedRow(r: Run, i: nat, k: nat, t: TaskId) returns (n: nat)
    requires FromEmpty(r) && i < k < |r.states| && r.events[i].Submit? && r.states[i + 1] != r.states[i]
    requires t in r.states[k].tasks && r.states[k].tasks[t].job == r.events[i].newJob
    ensures var e := r.events[i];
            && |e.specs| == |e.uuids| && n < |e.specs|
            && var ids := KeyIds(e.specs, e.uuids);
            && DependenciesKnown(e.specs, ids)
            && e.specs[n].key in ids && ids[e.specs[n].key] == t
            && r.states[k].tasks[t].operation == e.specs[n].operation
            && r.states[k].tasks[t].dependsOn == DependencyIds(e.specs[n].dependsOn, ids)
  {
    var e, db, db1 := r.events[i], r.states[i], r.states[i + 1];
    assert StepOf(r, i);
    ReachableInv(r, i);
    var ids := KeyIds(e.specs, e.uuids);
    CreateInserts(db, e.tenant, e.key, e.priority, e.specs, e.newJob, e.uuids);
    RunAdvances(r, i + 1, k);
    assert TaskIsOld(db1, r.states[k], t);
    assert TaskAdvances(db1, r.states[k], t);
    NewJobTasksAreNew(db, db1, e.specs, ids, e.newJob, e.tenant, e.priority, t);
    n :| IsNewRow(t, db1.tasks[t], e.specs, n, ids, e.newJob, e.tenant, e.priority, db.now);
  }

  /** The package task leaves pending only after every encode and the validation of its job have succeeded. */
  lemma PackageComesLast(p: Preset, rungs: seq<Rung>, r: Run, i: nat, k: nat, t: TaskId, u: TaskId)
    requires FromEmpty(r) && i < k < |r.states| && r.states[i + 1] != r.states[i]
    requires r.events[i].Submit? && r.events[i].specs == LadderGraph(p, rungs)
    requires var tasks := r.states[k].tasks;
             && t in tasks && tasks[t].job == r.events[i].newJob && tasks[t].operation == "package"
             && tasks[t].state != TaskPending && tasks[t].state != TaskCancelled
             && u in tasks && tasks[u].job == r.events[i].newJob && tasks[u].operation in {"encode", "validate"}
    ensures r.states[k].tasks[u].state == TaskSucceeded
  {
    var g := LadderGraph(p, rungs);
    var n := PlannedRow(r, i, k, t);
    var m := PlannedRow(r, i, k, u);
    GraphIndex(p, rungs, n);
    GraphIndex(p, rungs, m);
    var ids := KeyIds(g, r.events[i].uuids);
    var keys := EncodeKeys(rungs) + ["validate"];
    assert g[n].dependsOn == keys;
    var q := if m < |rungs| then m else |rungs|;
    assert keys[q] == g[m].key;
    assert DependencyIds(keys, ids)[q] == u;
    ReachableInv(r, k);
    assert WaitsExactly(r.states[k].tasks, t);
  }
}
