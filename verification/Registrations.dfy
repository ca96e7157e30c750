/**
 Registering an output again, as a worker does after a dropped response: internal/artifact/artifact.go.
 */
module Registrations {
  import opened Rows
  import opened States
  import opened Protocol
  import opened Outcomes
  import opened Delivery

  // ---- what registration decides ----

  /** A label that may stand for itself in a storage key. */
  ghost predicate Clean(name: string) {
    && name != "" && |name| <= 128 && name != "." && name != ".."
    && forall c | c in name :: 'a' <= c <= 'z' || 'A' <= c <= 'Z' || '0' <= c <= '9' || c == '-' || c == '_' || c == '.'
  }

  lemma CleanIsValid(name: string)
    ensures ValidLabel(name) <==> Clean(name)
  {
    if ValidLabel(name) {
      forall c | c in name ensures LabelChar(c) {
        var i :| 0 <= i < |name| && name[i] == c;
      }
    }
    if Clean(name) {
      forall i | 0 <= i < |name| ensures LabelChar(name[i]) {
        assert name[i] in name;
      }
    }
  }

  /** What is refused before the database is asked: a bad label, an object storage does not hold, a size it contradicts. */
  lemma RefusedAtOnce(w: World, j: JobId, a: AttemptId, reg: Registration, stored: Option<int>, newSet: SetId, newArtifact: ArtifactId)
    ensures var r := Register(w, j, a, reg, stored, newSet, newArtifact);
            && (r == Refused(BadLabel) <==> !Clean(reg.name))
            && (r == Refused(MissingObject) <==> Clean(reg.name) && stored == None)
            && (r == Refused(SizeMismatch) <==>
                Clean(reg.name) && stored.Some? && reg.sizeBytes > 0 && stored.value != reg.sizeBytes)
  {
    CleanIsValid(reg.name);
  }

  /** Storage holds the object, and the report does not contradict its size. */
  ghost predicate Reported(reg: Registration, stored: Option<int>) {
    Clean(reg.name) && stored.Some? && (reg.sizeBytes <= 0 || stored.value == reg.sizeBytes)
  }

  /** The row an insert makes: what was reported, with the size storage gave. */
  ghost predicate RowReported(row: Artifact, s: SetId, reg: Registration, size: int, a: AttemptId) {
    && row.inSet == s && row.kind == reg.kind && row.name == reg.name && row.storageKey == reg.storageKey
    && row.sizeBytes == size && row.attempt == a
    && (reg.checksumAlgo == "" <==> row.checksumAlgo == None)
    && (reg.checksumAlgo != "" ==> row.checksumAlgo == Some(reg.checksumAlgo))
  }

  /** A label that is taken in the job's set: nothing is written, and only the same object again is accepted. */
  lemma TakenLabel(w: World, j: JobId, a: AttemptId, reg: Registration, stored: Option<int>,
                   newSet: SetId, newArtifact: ArtifactId, s: SetId, x: ArtifactId)
    requires WorldInv(w) && Reported(reg, stored) && s in w.sets && w.sets[s].job == j
    requires x in w.artifacts && w.artifacts[x].inSet == s && w.artifacts[x].name == reg.name
    ensures Register(w, j, a, reg, stored, newSet, newArtifact) ==
            if w.artifacts[x].checksumAlgo == None then Refused(UnreadableRow)
            else if w.artifacts[x].storageKey != reg.storageKey then Refused(LabelConflict)
            else Accepted(w)
  {
    CleanIsValid(reg.name);
    assert CurrentSet(w.sets, j) == s;
    assert Labelled(w.artifacts, s, reg.name, x);
  }

  /** A new label in the job's set: one row, unless its kind is unknown or a key is taken. */
  lemma NewLabel(w: World, j: JobId, a: AttemptId, reg: Registration, stored: Option<int>,
                 newSet: SetId, newArtifact: ArtifactId, s: SetId)
    requires WorldInv(w) && Reported(reg, stored) && s in w.sets && w.sets[s].job == j
    requires forall x | x in w.artifacts :: !(w.artifacts[x].inSet == s && w.artifacts[x].name == reg.name)
    ensures Inserts(w, w.sets, s, Register(w, j, a, reg, stored, newSet, newArtifact), reg, stored.value, a, newArtifact)
  {
    CleanIsValid(reg.name);
    assert CurrentSet(w.sets, j) == s;
    assert forall x :: !Labelled(w.artifacts, s, reg.name, x);
  }

  /** The first output of a job opens its set; if the row is refused, no set is opened. */
  lemma FirstLabel(w: World, j: JobId, a: AttemptId, reg: Registration, stored: Option<int>, newSet: SetId, newArtifact: ArtifactId)
    requires WorldInv(w) && Reported(reg, stored) && !HasSet(w.sets, j) && newSet !in w.sets
    ensures Inserts(w, w.sets[newSet := ArtifactSet(j, 1, SetBuilding)], newSet,
                    Register(w, j, a, reg, stored, newSet, newArtifact), reg, stored.value, a, newArtifact)
  {
    CleanIsValid(reg.name);
    assert forall x :: !Labelled(w.artifacts, newSet, reg.name, x);
  }

  /** The kinds an artifact may have. */
  lemma KindsAre(kind: string)
    ensures KnownKind(kind) <==>
            || kind == "rendition" || kind == "segment_set" || kind == "manifest" || kind == "thumbnail" || kind == "sprite"
            || kind == "sprite_index" || kind == "poster" || kind == "subtitle" || kind == "transcript" || kind == "clip"
            || kind == "drm_metadata" || kind == "log"
  {
  }

  ghost predicate Inserts(w: World, sets': map<SetId, ArtifactSet>, s: SetId, r: Outcome, reg: Registration, size: int,
                          a: AttemptId, x: ArtifactId)
  {
    var keyTaken := exists y :: y in w.artifacts && w.artifacts[y].storageKey == reg.storageKey;
    && (!KnownKind(reg.kind) <==> r == Refused(BadKind))
    && (KnownKind(reg.kind) && x in w.artifacts <==> r == Refused(DuplicateId))
    && (KnownKind(reg.kind) && x !in w.artifacts && keyTaken <==> r == Refused(KeyConflict))
    && (KnownKind(reg.kind) && x !in w.artifacts && !keyTaken <==> r.Accepted?)
    && (r.Accepted? ==>
        && r.world.db == w.db && r.world.sets == sets'
        && x in r.world.artifacts && r.world.artifacts == w.artifacts[x := r.world.artifacts[x]]
        && RowReported(r.world.artifacts[x], s, reg, size, a))
  }

  /** The handler: only the worker that holds the lease of a task not cancelled registers, and only for its own job. */
  lemma HandlerAsks(w: World, a: AttemptId, worker: WorkerId, reg: Registration, stored: Option<int>,
                    newSet: SetId, newArtifact: ArtifactId)
    requires WorldInv(w)
    ensures HandleRegister(w, a, worker, reg, stored, newSet, newArtifact) ==
            if Wanted(w.db, a, worker)
            then Register(w, w.db.tasks[w.db.attempts[a].task].job, a, reg, stored, newSet, newArtifact)
            else Refused(Stale)
  {
    AuthorizeOutcome(w.db, a, worker);
  }

  // ---- what a completion does to the job's set ----

  /** The open sets of a job that has ended are closed, complete exactly if it succeeded; every other set is left alone. */
  lemma CompletionCloses(w: World, a: AttemptId, worker: WorkerId, report: Report)
    ensures var tx, w' := Complete(w.db, a, worker, report), HandleComplete(w, a, worker, report);
            && (tx.Rollback? ==> w' == w)
            && (tx.Commit? ==>
                && w'.db == tx.db && w'.artifacts == w.artifacts && w'.sets.Keys == w.sets.Keys
                && forall s | s in w.sets ::
                     var set_, state := w.sets[s], tx.value.jobState;
                     w'.sets[s] ==
                     if set_.job != tx.value.job || set_.state == SetComplete || set_.state == SetFailed then set_
                     else if state == JobSucceeded then set_.(state := SetComplete)
                     else if state == JobFailed || state == JobCancelled then set_.(state := SetFailed)
                     else set_)
  {
  }

  // ---- repeats ----

  /**
   A repeat of an accepted registration, as after a dropped response, changes nothing. It is accepted again if the first
   one was a repeat itself; after an insert it is accepted again exactly if the registration names a checksum algorithm.
   */
  lemma RepeatedRegistration(w: World, j: JobId, a: AttemptId, reg: Registration, stored: Option<int>,
                             newSet: SetId, newArtifact: ArtifactId, otherSet: SetId, otherArtifact: ArtifactId)
    requires WorldInv(w) && Register(w, j, a, reg, stored, newSet, newArtifact).Accepted?
    ensures var once := Register(w, j, a, reg, stored, newSet, newArtifact).world;
            var again := Register(once, j, a, reg, stored, otherSet, otherArtifact);
            && (again == Accepted(once) || again == Refused(UnreadableRow))
            && (again.Accepted? <==> once == w || reg.checksumAlgo != "")
  {
    var once := Register(w, j, a, reg, stored, newSet, newArtifact).world;
    if once != w {
      var s := RegisterInserts(w, j, a, reg, stored, newSet, newArtifact);
      assert s in once.sets && once.sets[s].job == j;
      assert CurrentSet(once.sets, j) == s;
      assert Labelled(once.artifacts, s, reg.name, newArtifact);
      assert once.artifacts[newArtifact].checksumAlgo == Nullable(reg.checksumAlgo);
    }
  }

  /** An input at which registration is not idempotent: any first output of a job reported without an algorithm. */
  lemma RepeatWithoutAlgorithmRefused(w: World, j: JobId, a: AttemptId, newSet: SetId, newArtifact: ArtifactId)
    requires WorldInv(w) && !HasSet(w.sets, j) && newSet !in w.sets && newArtifact !in w.artifacts
    requires forall y | y in w.artifacts :: w.artifacts[y].storageKey != "k"
    ensures var reg := Registration("poster", "p", "k", 0, "");
            var first := Register(w, j, a, reg, Some(1), newSet, newArtifact);
            && first.Accepted?
            && Register(first.world, j, a, reg, Some(1), newSet, newArtifact) == Refused(UnreadableRow)
  {
    var reg := Registration("poster", "p", "k", 0, "");
    assert forall x :: !Labelled(w.artifacts, newSet, reg.name, x);
    assert KnownKind(reg.kind);
    var once := Register(w, j, a, reg, Some(1), newSet, newArtifact).world;
    assert newArtifact in once.artifacts;
    RepeatedRegistration(w, j, a, reg, Some(1), newSet, newArtifact, newSet, newArtifact);
  }
}
