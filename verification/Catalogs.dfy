/**
 The artifact tables as internal/artifact keeps them, updated in place by the two worker handlers.
 */
module Catalogs {
  import opened Rows
  import P = Protocol
  import opened Invariant
  import opened Delivery
  import opened Stores

  class Catalog {
    const store: Store
    var sets: map<SetId, ArtifactSet>
    var artifacts: map<ArtifactId, Artifact>

    ghost function World_(): World
      reads this, store
    {
      World(store.Db(), sets, artifacts)
    }

    ghost predicate Valid()
      reads this, store
    {
      WorldInv(World_())
    }

    constructor (s: Store)
      requires s.Db() == EmptyDB
      ensures Valid() && store == s && World_() == EmptyWorld
    {
      store := s;
      sets, artifacts := map[], map[];
    }

    /** currentSet: the job's newest set, opened on demand; nothing is opened if the identifier is taken. */
    method CurrentOrNew(j: JobId, newSet: SetId) returns (r: Option<SetId>)
      requires Valid()
      modifies `sets
      ensures HasSet(old(sets), j) ==> sets == old(sets) && r == Some(CurrentSet(sets, j))
      ensures !HasSet(old(sets), j) && newSet in old(sets) ==> sets == old(sets) && r == None
      ensures !HasSet(old(sets), j) && newSet !in old(sets) ==>
                sets == old(sets)[newSet := ArtifactSet(j, 1, SetBuilding)] && r == Some(newSet)
    {
      if HasSet(sets, j) {
        ghost var current := CurrentSet(sets, j);
        var s :| s in sets && IsCurrent(sets, j, s);
        assert IsCurrent(sets, j, s) && IsCurrent(sets, j, current);
        assert sets[s].job == j && sets[current].job == j;
        return Some(s);
      }
      if newSet in sets {
        return None;
      }
      sets := sets[newSet := ArtifactSet(j, 1, SetBuilding)];
      return Some(newSet);
    }

    method RegisterArtifact(j: JobId, a: AttemptId, reg: Registration, stored: Option<int>,
                            newSet: SetId, newArtifact: ArtifactId) returns (r: Option<Refusal>)
      requires Valid()
      modifies `sets, `artifacts
      ensures match Register(old(World_()), j, a, reg, stored, newSet, newArtifact)
              case Accepted(w) => World_() == w && r == None
              case Refused(why) => World_() == old(World_()) && r == Some(why)
    {
      if !ValidLabel(reg.name) {
        return Some(BadLabel);
      }
      if stored.None? {
        return Some(MissingObject);
      }
      if reg.sizeBytes > 0 && stored.value != reg.sizeBytes {
        return Some(SizeMismatch);
      }
      var savedSets := sets;
      var found := CurrentOrNew(j, newSet);
      if found.None? {
        return Some(DuplicateId);
      }
      var s := found.value;
      if x :| x in artifacts && Labelled(artifacts, s, reg.name, x) {
        sets := savedSets;
        return Repeated(artifacts[x], reg);
      }
      assert forall x :: !Labelled(artifacts, s, reg.name, x);
      r := Insert(newArtifact, RowOf(s, reg, stored.value, a));
      if r.Some? {
        sets := savedSets;
      }
    }

    method Insert(x: ArtifactId, row: Artifact) returns (r: Option<Refusal>)
      modifies `artifacts
      ensures match InsertArtifact(old(World_()), x, row)
              case Accepted(w) => World_() == w && r == None
              case Refused(why) => artifacts == old(artifacts) && r == Some(why)
    {
      if !KnownKind(row.kind) {
        return Some(BadKind);
      }
      if x in artifacts {
        return Some(DuplicateId);
      }
      if y :| y in artifacts && artifacts[y].storageKey == row.storageKey {
        return Some(KeyConflict);
      }
      artifacts := artifacts[x := row];
      return None;
    }

    method MarkComplete(j: JobId)
      modifies `sets
      ensures sets == CloseSets(old(sets), j, SetComplete) && Closed(old(sets), sets, j, SetComplete)
    {
      sets := map s | s in sets :: if sets[s].job == j && sets[s].Open() then sets[s].(state := SetComplete) else sets[s];
    }

    method MarkFailed(j: JobId)
      modifies `sets
      ensures sets == CloseSets(old(sets), j, SetFailed) && Closed(old(sets), sets, j, SetFailed)
    {
      sets := map s | s in sets :: if sets[s].job == j && sets[s].Open() then sets[s].(state := SetFailed) else sets[s];
    }

    /** handleWorkerComplete: complete the attempt, then close the set if that finished the job. */
    method WorkerComplete(a: AttemptId, worker: WorkerId, res: P.Report) returns (r: Result<P.Completion>)
      requires Valid()
      modifies `sets, store
      ensures Valid()
      ensures World_() == HandleComplete(old(World_()), a, worker, res)
    {
      CompleteKeepsWorld(World_(), a, worker, res);
      r := store.Complete(a, worker, res);
      if r.Err? {
        return;
      }
      match r.value.jobState
      case JobSucceeded => MarkComplete(r.value.job);
      case JobFailed => MarkFailed(r.value.job);
      case JobCancelled => MarkFailed(r.value.job);
      case _ =>
    }

    /** handleRegisterArtifact: only the current holder of the lease may add a result. */
    method WorkerRegister(a: AttemptId, worker: WorkerId, reg: Registration, stored: Option<int>,
                          newSet: SetId, newArtifact: ArtifactId) returns (r: Option<Refusal>)
      requires Valid()
      modifies `sets, `artifacts
      ensures Valid()
      ensures match HandleRegister(old(World_()), a, worker, reg, stored, newSet, newArtifact)
              case Accepted(w) => World_() == w && r == None
              case Refused(why) => World_() == old(World_()) && r == Some(why)
    {
      RegisterKeepsWorld(World_(), Registers(a, worker, reg, stored, newSet, newArtifact));
      var auth := P.AuthorizeAttempt(store.Db(), a, worker);
      if auth.Rollback? {
        return Some(Stale);
      }
      r := RegisterArtifact(auth.value, a, reg, stored, newSet, newArtifact);
    }
  }
}
