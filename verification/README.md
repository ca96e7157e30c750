# Lease protocol, ladder planner and delivery, in Dafny

A control plane hands the tasks of a dependency graph to workers it does not trust and cannot reach. This project models that protocol as state machines and proves what it promises in every reachable state, over every run and against any behaviour of the workers. On top of it stand the planner that produces the graphs, the artifact sets that say when a job may be delivered, the arithmetic of resumable uploads, and the sprite index behind the scrub bar with the rewriter that signs it.

## How the model is built

- `States`, `Rows`: the lifecycle tables, the rows of the job tables as finite maps, and the aggregate query behind a job's state.
- `Protocol`: each transaction as a function from the committed database to a commit or a rollback. **One committed transaction is one atomic step.** `Stores.Store` is the same store as a class that updates its tables statement by statement; each method is proved equal to its transaction function, errors and rollbacks included.
- `Invariant`, `Preservation`, `Creation`, `Sweep`: one inductive invariant, and the proof that each transaction keeps it.
- `Steps`: the step relation. Any worker may send any report, for any attempt, at any time, late or repeated; the clock moves on its own (`Tick`). Only what a query may return is restricted: a lease goes to an eligible task, a sweep acts on expired leases (of which `skip locked` may leave any out).
- `Outcomes`: for every input, which requests each transaction refuses and how, which rows it changes, what they become, and that nothing else does.
- `Progression`, `Safety`, `Slots`, `Leases`, `Deadlock`, `Liveness`, `Work`, `Submissions`: what holds in every state and over every run.
- `Scheduling`, `Matching`: feasibility requirement by requirement, the score, and what its weights mean.
- `Delivery`, `Gates`, `Registrations`, `Fencing`, `Catalogs`: artifact sets and the two worker handlers that drive them, each handler one step; `Catalogs.Catalog` is the class that updates the rows in place.
- `Ladder`, `Planner`: rung selection, rounding, and the task graph of a preset, which the protocol never leaves stuck.
- `Uploads`: part sizes, the check before assembly, and resuming. `Integers` holds Go's division.
- `Texts`, `Manifests`, `Sprites`: the text routines of Go's library that are used, `RewriteVTT`, and `SpriteIndex`. The index format is WebVTT (section 4.1, file structure), with regions as in section 4.2.2 of Media Fragments URI 1.0.

Times are milliseconds. Identifiers that the original draws at random are parameters, so a repeated one is the case in which a primary key refuses it.

## Where the code and its documentation differ

- `internal/job/job.go:442-444` says that the graph can never stall with everything satisfied but nothing queued. That holds (`Safety.PendingExactlyWhileBlocked`). But a job can stall without everything being satisfied: Create takes cyclic graphs, and `Deadlock.SelfDependencyIsStuck` gives one. `Liveness.SucceedsIffUntied` is the exact condition, on the list a caller submits: at every later time while the job is unfinished, it can still succeed iff no keys of the list all wait for one another. Lists in order, the planner's among them, have no such keys.
- `internal/job/job.go:458-459` says that a job's state is never set independently. Cancel writes it directly; `Preservation.CancelDerives` shows that the value is the one that would have been derived.
- `internal/artifact/artifact.go:159-160` says that a re-run opens a new version of a set. No code does: a job has one set, of version 1, for good.
- `internal/artifact/artifact.go:82-83` says that registration is idempotent. A registration without a checksum algorithm stores NULL, which the lookup on the repeat cannot read into a plain string, so the repeat is refused with an error; `Registrations.RepeatedRegistration` gives the exact condition and `Registrations.RepeatWithoutAlgorithmRefused` an input.
- `internal/upload/upload.go:137-138` makes the provider's list the authority on progress. Status goes by part numbers alone, and Complete by sizes too, so after a short part resuming reports nothing missing while assembly is refused for ever; `Uploads.ResumedUploadPasses` gives the exact condition and `Uploads.ShortPartIsFinal` an input.
- `internal/pipeline/plan.go:216-217` says that fit never upscales. It does for a source with a side of one pixel, since no size is below 2; `Ladder.UpscalesIffTooThin` gives the exact condition.

## Model

| member | source | states |
|---|---|---|
| `Rows.DerivedMeaning` | internal/job/job.go:474-486 | The five counts mean what a reader takes them to mean: failed iff some task failed; cancelled iff none failed and some is cancelled; succeeded iff all succeeded; pending iff nothing has begun and something is left |
| `Rows.DerivedFrame` | internal/job/job.go:460-486 | Moves between pending and queued, or between leased and running, cannot change a job's state |
| `Protocol.KeyIdsDomain` | internal/job/job.go:76-79 | The map Create fills has exactly the keys of the list, each with the identifier of one of its specs |
| `Creation.CreateInserts` | internal/job/job.go:69-155 | A submission that changes anything adds one job, and one row per spec as the spec describes it: queued iff it depends on nothing, defaults applied, dependencies translated; it adds nothing else and touches nothing old |
| `Creation.CreateKeeps` | internal/job/job.go:69-155 | Create keeps the invariant |
| `Invariant.SuccessKeepsGraph` | internal/job/job.go:434-456 | After a success and its release, a task is pending exactly if some dependency has not succeeded |
| `Invariant.ReconcileKeepsJobs` | internal/job/job.go:460-495 | Reconciling the one job whose tasks moved makes every stored job state derived again |
| `Preservation.LiveAttempt` | internal/job/lease.go:259-297 | An attempt that has not ended is its task's latest, and its task is leased, running or cancelled to match |
| `Preservation.LeaseKeeps` | internal/job/schedule.go:119-150 | Leasing a queued task commits unless the attempt identifier is in use, and keeps the invariant, though max_attempts is not looked at |
| `Preservation.StartKeeps` | internal/job/lease.go:64-84 | Start keeps the invariant, job states included, without reconciling |
| `Preservation.ProgressKeeps` | internal/job/lease.go:89-106 | Progress keeps the invariant |
| `Preservation.CompleteKeeps` | internal/job/lease.go:125-210 | Complete keeps the invariant on every path: cancelled, refused, succeeded with release, retried, failed |
| `Preservation.ReclaimKeeps` | internal/job/expire.go:72-119 | Reclaiming one expired lease commits and keeps the invariant |
| `Preservation.CancelKeeps` | internal/job/job.go:360-395 | Cancel keeps the invariant, with live attempts left behind |
| `Preservation.CancelDerives` | internal/job/job.go:383-391 | The state Cancel writes directly is the one reconcileJob would derive, because an unfinished job has no failed task and an unfinished one |
| `Sweep.BatchRows` | internal/job/expire.go:37-69 | The rows of a sweep belong to distinct tasks, and none is finished other than cancelled, so the terminal-but-not-cancelled branch is never taken |
| `Sweep.BatchIsSequential` | internal/job/expire.go:28-122 | The sweep, deciding from rows read before its loop, never meets an illegal transition, and ends exactly where reclaiming the same leases one at a time from the current state ends |
| `States.TaskMoves` | internal/job/state.go:54-67 | The task table, read by target: leased only from queued, running only from leased, succeeded only from running, cancelled from anything unfinished, queued again from leased, running and failed |
| `States.AttemptMoves` | internal/job/state.go:69-77 | An attempt is started once, succeeds only when started, and ends once |
| `Outcomes.StartOutcome` | internal/job/lease.go:64-84 | Who is refused and how; the rows a start writes, the deadline included; a cancelled task's attempt is closed instead; nothing else changes |
| `Outcomes.ProgressOutcome` | internal/job/lease.go:89-106 | The answer is true exactly if the task was cancelled, and then, and only then, the lease is not renewed |
| `Outcomes.AuthorizeOutcome` | internal/job/lease.go:234-244 | Exactly the holder of an attempt whose task is not cancelled is told the task's job |
| `Outcomes.CompleteRefusals` | internal/job/lease.go:142-148 | A stale worker, and a success reported before Start, are refused, each with its own error, and nobody else |
| `Outcomes.CancelledOutcome` | internal/job/lease.go:133-140 | A report on a cancelled task ends its attempt, is answered as no success and no retry, and changes nothing else |
| `Outcomes.FailureOutcome` | internal/job/lease.go:174-201 | After a failure the task is queued again iff the class is transient, resource, infrastructure, unknown or unrecognised and budget is left, and has failed otherwise; the attempt has failed; the answer says which |
| `Outcomes.SuccessOutcome` | internal/job/lease.go:165-172 | After a success exactly the pending tasks of the job for which it was the last dependency are queued; attempt, task and answer say succeeded; nothing else changes |
| `Outcomes.CancelOutcome` | internal/job/job.go:360-395 | An unfinished job of the caller's is cancelled with every task that has not succeeded, and nothing else; a finished one is left alone with no error; any other is not found |
| `Outcomes.CancelStops` | internal/job/job.go:358-395 | From a Cancel on, in every later state, the job is cancelled, its tasks are those it had, succeeded or cancelled, nothing of it is leased and no deadline of it moves |
| `Outcomes.LeaseOutcome` | internal/job/schedule.go:119-150 | A lease adds one attempt, numbered next, due one time-to-live from now, and moves task and job accordingly; only a used attempt identifier is refused |
| `Outcomes.OverdueMayBeSwept` | internal/job/expire.go:42-43 | The query may return exactly the attempts that have not ended and are past their deadline |
| `Outcomes.SweepOutcome` | internal/job/expire.go:71-119 | Every swept attempt is expired; its task is queued again iff budget is left, has failed otherwise, and is untouched if cancelled; the answers say which were queued again; nothing else changes |
| `Outcomes.OperationsAre` | internal/db/migrations/0003_jobs.sql:79-82 | The operations a task may have |
| `Outcomes.CreateRefusals` | internal/job/job.go:72-86 | No tasks, and a dependency no spec provides, are refused each with its own error |
| `Outcomes.CreateOutcome` | internal/job/job.go:94-155 | One pending job, and for each spec one row under its own identifier with its operation, requirements, dependencies in order, its own or the job's priority, its own or three attempts, queued iff it depends on nothing |
| `Steps.StepKeeps` | internal/job/lease.go:64-297 | The invariant is inductive over every step, whatever the workers send |
| `Steps.ReachableInv` | internal/job/job.go:66-67 | ... so it holds in every state of every run from the empty database |
| `Progression.StepAdvances` | internal/job/state.go:54-77 | No step undoes anything: rows persist, counts grow, finished tasks, attempts and jobs stay, and no task joins an old job |
| `Progression.TerminalJobsStay` | internal/job/job.go:474-488 | The derived states succeeded, failed and cancelled are absorbing, as a consequence of what happens to tasks |
| `Safety.StatesCoupled` | internal/job/lease.go:64-297 | Leased or running means exactly one live attempt, in the same state and the latest; cancelled means at most one; anything else none. So no task has two live attempts |
| `Safety.BudgetHolds` | internal/job/lease.go:174-192 | attempt_count never passes max_attempts, a queued task has budget left, and attempts are numbered exactly 1..attempt_count |
| `Safety.PendingExactlyWhileBlocked` | internal/job/job.go:442-456 | A task that is not cancelled is pending exactly while a dependency has not succeeded: nothing starts early, nothing satisfied stays unqueued |
| `Safety.OneSuccess` | internal/job/lease.go:165-172 | At most one attempt of a task ever succeeds, and a task is succeeded exactly when its latest attempt is |
| `Safety.StaleReportsIgnored` | internal/job/lease.go:256-297 | Once an attempt has ended or been overtaken it stays so, no report naming it changes anything ever again, and it authorises nothing |
| `Safety.JobStateIsDerived` | internal/job/job.go:458-495 | Every stored job state is what its tasks imply, also after Start and after Cancel; a job is cancelled iff some task is |
| `Safety.FinishedStaysFinished` | internal/job/state.go:91-97 | Finished jobs keep their state, and finished tasks and attempts their whole row, over any stretch of any run |
| `Safety.StepIsLegal` | internal/job/state.go:54-77 | Every step moves tasks and attempts along the two tables only, though Cancel and Lease move tasks, and the sweep and the closing of cancelled attempts end attempts, without consulting them; and no step requeues a failed task |
| `Slots.CapacityHolds` | internal/job/schedule.go:78-91 | Over every interleaving, the live attempts a worker holds in a slot class never exceed what it declared for it, zero if it declared nothing |
| `Slots.HeldSlotsShrink` | internal/job/schedule.go:206-217 | Only a worker's own lease of that class adds to what it holds, and adds one |
| `Slots.QuotaHolds` | internal/job/schedule.go:198-201 | If every lease is one step and goes to a candidate of the query, no tenant ever has more live attempts than its quota |
| `Slots.NumberTellsStaleness` | internal/db/migrations/0003_jobs.sql:132 | The number a snapshot would give the next attempt is taken exactly if the task has been leased since |
| `Slots.TwoPhaseRefines` | internal/job/schedule.go:191-204 | A lease chosen from any old snapshot, rechecking only the task's state, either aborts and changes nothing or is an atomic lease of the current state; it commits exactly if the task is queued, was not leased since, and the attempt identifier is new |
| `Leases.DeadlineMoves` | internal/job/lease.go:75-102 | A deadline changes only by a lease, Start or Progress that is honoured, and is then one time-to-live from now |
| `Leases.CancelIsFinal` | internal/job/job.go:377-394 | After Cancel nothing of the job is leased again, its tasks are succeeded or cancelled for good, and no deadline of it ever moves |
| `Leases.KeptAlive` | internal/job/expire.go:42-43 | A worker whose lease, Start and Progress steps are never more than a time-to-live apart is never reclaimed |
| `Deadlock.StuckMeansKnot` | internal/job/job.go:442-456 | An unfinished job has nothing queued, leased or running only if some of its tasks all wait for one another: a knot |
| `Deadlock.KnotNeverFinishes` | internal/job/job.go:80-86 | Tasks of a knot are never queued in any run, and their job never succeeds |
| `Deadlock.KnotIffTied` | internal/job/job.go:80-117 | A committed Create stores a knot iff the submitted list has one: some keys each of which depends on one of them |
| `Deadlock.OrderUnties` | internal/job/job.go:80-86 | A list in which every dependency comes first has none |
| `Liveness.SucceedsIffNoKnot` | internal/job/job.go:442-456 | In every reachable state an unfinished job has a continuation in which it succeeds iff its rows have no knot |
| `Liveness.SucceedsIffUntied` | internal/job/job.go:80-86 | ... that is, iff the list it was submitted with has none, however much later |
| `Liveness.OpenCanSucceed` | internal/job/lease.go:64-210 | Such a continuation needs at most three steps, lease, start and completion, for each unfinished task |
| `Deadlock.SelfDependencyIsStuck` | internal/job/job.go:80-86 | A task depending on itself is accepted, and its job is stuck at once |
| `Deadlock.OrderedJobNeverStuck` | internal/job/job.go:76-86 | A job whose tasks were listed with dependencies first always has a task queued, leased or running until it is finished |
| `Deadlock.CreateAccepts` | internal/job/job.go:72-155 | With fresh identifiers and an unused key, Create commits exactly for lists that are not empty, depend on their own keys, repeat no key and name known operations |
| `Submissions.OneJobPerKey` | internal/db/migrations/0003_jobs.sql:68 | No tenant ever has two jobs under one idempotency key |
| `Submissions.RetriedSubmission` | internal/job/job.go:104-108 | A submission retried at any later time, with any well-formed graph, answers with the first one's job and changes nothing |
| `Work.ChangeIsWork` | internal/job/lease.go:64-210 | Every step that changes a state begins or ends an attempt, adds one, or closes a job; Progress, Create and time change none |
| `Work.AttemptsFitBudget` | internal/db/migrations/0003_jobs.sql:132 | Uniquely numbered attempts within the tasks' budgets are no more than the sum of max_attempts |
| `Work.RunsAreBounded` | internal/job/schedule.go:119-137 | In any run, however long, at most 3 x (sum of max_attempts) + (number of jobs) steps change the state of a task, an attempt or a job |
| `Scheduling.FirstExists` | internal/job/schedule.go:182-204 | Among any candidates one is ranked first, so the query comes back empty only when nothing is feasible |
| `Scheduling.Weight` | internal/job/schedule.go:186-188 | Fair share, locality and idle GPU together weigh a score by at most 1.25 and at least 0.4 / (1 + active tasks of the tenant) |
| `Scheduling.RankIsTimeless` | internal/job/schedule.go:182-202 | Between candidates weighed alike the order, tie-break included, never changes with time: the later passes the earlier iff queued under 6 seconds later per extra point of priority, and of equal scores the one queued no later goes first |
| `Scheduling.WaitingWins` | internal/job/schedule.go:46-51 | A task that has waited longer than an explicit bound beats every rival of bounded priority and age, whatever its tenant, locality and GPU need |
| `Matching.AssignedWorkFits` | internal/job/schedule.go:174-179 | In every run with declared facts, each attempt's worker has the operation, architecture, encoder, GPU, memory and disk its task requires |
| `Matching.PoolMeans` | internal/job/schedule.go:162 | A task draws on the pool it names, or else on its operation's |
| `Matching.NoWorkMeans` | internal/job/schedule.go:171-201 | There is no candidate iff every queued task requires something the worker lacks, or its pool is undeclared or full, or its tenant is at quota |
| `Matching.PointsMean` | internal/job/schedule.go:46-51 | A point of priority weighs as much as six seconds of waiting |
| `Matching.LocalWorkFirst` | internal/job/schedule.go:52-53 | Other things equal, work on a source the worker has scores a quarter more, and so goes first iff its points are positive |
| `Matching.GpuWorkFirst` | internal/job/schedule.go:54-56 | Other things equal, a GPU worker scores GPU work two and a half times other work |
| `Matching.FairShare` | internal/job/schedule.go:185-186 | Other things equal, scores are in inverse proportion to one more than the tenant's active tasks, so the tenant with fewer goes first |
| `Stores.Store.constructor` | internal/job/job.go:60-62 | A new store is the empty database, in which the invariant holds |
| `Stores.Store.ReconcileJob` | internal/job/job.go:460-495 | Overwrites one job's state with what its tasks imply |
| `Stores.Store.TransitionTx` | internal/job/job.go:399-440 | Commits or refuses exactly as the transition table says, with the release in the same transaction |
| `Stores.Store.Create` | internal/job/job.go:69-155 | Is the Create transaction, statement by statement; an insert that fails undoes those before it |
| `Stores.Store.InsertTasks` | internal/job/job.go:113-153 | Inserts every row or none |
| `Stores.Store.Cancel` | internal/job/job.go:360-395 | Is the Cancel transaction and keeps the invariant |
| `Stores.Store.Start` | internal/job/lease.go:64-84 | Is the Start transaction and keeps the invariant |
| `Stores.Store.Progress` | internal/job/lease.go:89-106 | Is the Progress transaction, answering whether the task was cancelled |
| `Stores.Store.Complete` | internal/job/lease.go:125-210 | Is the Complete transaction, with its completion, every refusal undone |
| `Stores.Store.ExpireLeases` | internal/job/expire.go:28-122 | The in-place loop over rows read first reports the sweep's outcomes and ends where one-at-a-time reclaiming ends |
| `Stores.Store.FreeSlotClasses` | internal/job/schedule.go:210-242 | Returns exactly the declared classes with fewer live attempts than capacity |
| `Stores.Store.LeaseQuery` | internal/job/schedule.go:156-204 | Returns a candidate no candidate outranks, and none exactly if there is no candidate |
| `Stores.Store.Lease` | internal/job/schedule.go:67-151 | Reports no work iff nothing is feasible; otherwise hands out a feasible task of maximal score as an enabled step of the protocol, or changes nothing |
| `Delivery.CurrentSet` | internal/artifact/artifact.go:161-171 | A job that has a set has a current one, of maximal version |
| `Delivery.WorldStepKeeps` | internal/api/workers.go:275-286 | Every step and handler keeps: one set per job, complete exactly when the job has succeeded; labels unique in a set, storage keys unique |
| `Delivery.AuthorizedJobIsOpen` | internal/job/lease.go:234-244 | Whoever may register holds a live lease, so the job has neither succeeded nor been cancelled |
| `Delivery.WorldStepAdvances` | internal/artifact/artifact.go:187-203 | Closed sets keep their state, artifacts their object, and nothing enters a complete set |
| `Gates.DeliveryGate` | internal/api/workers.go:275-281 | A set is complete iff every task of its job, validation included, has succeeded; from then on the set, its artifacts and those successes are the same for ever |
| `Registrations.RepeatedRegistration` | internal/artifact/artifact.go:82-157 | A repeat of an accepted registration never changes anything; it is accepted again iff the first was itself a repeat or names a checksum algorithm, and otherwise refused as unreadable |
| `Registrations.RepeatWithoutAlgorithmRefused` | internal/artifact/artifact.go:117-137 | An input at which the promised idempotence fails: the first output of a job, reported without an algorithm |
| `Registrations.RefusedAtOnce` | internal/artifact/artifact.go:87-103 | A bad label, an object storage does not hold, and a size it contradicts are refused, each exactly then |
| `Registrations.TakenLabel` | internal/artifact/artifact.go:116-137 | Under a taken label nothing is written, and only the same object is accepted |
| `Registrations.NewLabel` | internal/artifact/artifact.go:139-156 | A new label adds one row, as reported but with the size storage gave, unless kind, identifier or key is refused |
| `Registrations.FirstLabel` | internal/artifact/artifact.go:176-183 | The first output of a job opens its set, and opens none if its row is refused |
| `Registrations.KindsAre` | internal/db/migrations/0009_sprite_index.sql:5-7 | The kinds an artifact may have |
| `Registrations.HandlerAsks` | internal/api/artifacts.go:24-41 | Exactly the worker that holds the lease of a task not cancelled registers, and for its own job |
| `Fencing.FencedWorkerWritesNothing` | internal/api/artifacts.go:24-41 | No start, progress, completion or registration that names an ended or overtaken attempt changes anything |
| `Fencing.FencedForEver` | internal/job/lease.go:229-297 | Over every run with artifacts: once ended or overtaken an attempt stays so, and no later request that names it changes a task, job, attempt, set or artifact |
| `Catalogs.Catalog.CurrentOrNew` | internal/artifact/artifact.go:161-183 | Answers the newest set, or opens version 1 if there is none |
| `Catalogs.Catalog.RegisterArtifact` | internal/artifact/artifact.go:84-157 | Is the Register transaction: every refusal leaves sets and artifacts as they were |
| `Delivery.ClosingKeeps` | internal/artifact/artifact.go:185-203 | Closing the sets of the one job whose state moved, by that state, makes every set complete exactly if its job has succeeded and failed only if it failed or was cancelled |
| `Registrations.CompletionCloses` | internal/api/workers.go:275-286 | A completion that leaves its job succeeded completes the job's open sets, one that leaves it failed or cancelled fails them, and no other set changes |
| `Catalogs.Catalog.WorkerComplete` | internal/api/workers.go:222-286 | Completes the attempt and closes the set by the job state that completion left; keeps the delivery invariant |
| `Catalogs.Catalog.WorkerRegister` | internal/api/artifacts.go:24-41 | Registers only for the current holder of the lease; keeps the delivery invariant |
| `Ladder.RungsFor` | internal/pipeline/plan.go:199-214 | The appending loop returns the rungs the source fills, and something for every ladder that has anything |
| `Ladder.RungsAreThoseTheSourceFills` | internal/pipeline/plan.go:190-196 | While one rung is no taller than the source, exactly those that are not are made |
| `Ladder.EvenOfWhole` | internal/pipeline/plan.go:230-244 | A whole number of at least 2 rounds down to an even one |
| `Ladder.EvenIsNearest` | internal/pipeline/plan.go:230-244 | From 2 on, the nearest even number, and the lower of two equally near; below it, 2 |
| `Ladder.FitKeepsShape` | internal/pipeline/plan.go:216-228 | A source that does not fit is scaled by the smaller ratio, each dimension to within a pixel; one that fits keeps its size but for an odd line or column; an unknown source gets the rung's |
| `Ladder.Conventional480` | internal/pipeline/plan.go:232-234 | 16:9 at 480 high is 854 wide |
| `Ladder.RungsAre` | internal/pipeline/plan.go:199-214 | The whole ladder for a source of unknown height; else the rungs it fills, in order; else the last rung's quality at the source's size |
| `Ladder.NeverUpscales` | internal/pipeline/plan.go:216-228 | A planned size never exceeds a source of at least 2x2 in either dimension |
| `Ladder.UpscalesIffTooThin` | internal/pipeline/plan.go:240-242 | ... and 2x2 is exactly what that takes |
| `Ladder.StaysInRung` | internal/pipeline/plan.go:218-228 | A planned size stays inside an even rung, and meets it in one dimension unless the source fits inside |
| `Ladder.LowerRungIsSmaller` | internal/pipeline/plan.go:190-196 | Of two rungs the source fills, the lower gives a strictly smaller picture |
| `Ladder.PlannedSizes` | internal/pipeline/plan.go:190-244 | For every strictly decreasing even ladder and every source of at least 2x2: at least one size, all even and at least 2, none beyond source or rung, shrinking down the ladder with no two equal |
| `Planner.Plan` | internal/pipeline/plan.go:28-181 | The loop with its three lists produces the specified graph and expectations, or the specified refusal |
| `Planner.PlanRefusals` | internal/pipeline/plan.go:42-45 | A ladder's plan is refused exactly for a source without video or out of the encoder's bounds; without a ladder the tasks are handed through |
| `Planner.PlanContents` | internal/pipeline/plan.go:105-178 | The tasks in order, with their keys, operations, requirements, dependencies and attempts, and what validation is told to expect |
| `Planner.GraphIsOrdered` | internal/pipeline/plan.go:150-178 | Every dependency the planner writes names an earlier task of its list |
| `Planner.GraphKeysDistinct` | internal/pipeline/plan.go:122-178 | No two tasks of the graph share a key iff no two rungs share a label |
| `Planner.LadderNamesSuffice` | internal/pipeline/plan.go:199-214 | A ladder of distinct labels makes rungs of distinct labels, whatever the source |
| `Planner.PlanIsAccepted` | internal/pipeline/plan.go:28-181 | Create takes the plan of a ladder iff the rungs it makes have distinct labels |
| `Planner.PlanNeverStuck` | internal/pipeline/plan.go:28-181 | In every run, an accepted plan's job has something queued, leased or running until it is finished |
| `Planner.PlanCanSucceed` | internal/pipeline/plan.go:28-181 | ... and from every state in which it is unfinished it can still succeed |
| `Planner.PackageComesLast` | internal/pipeline/plan.go:160-178 | In every run, packaging leaves pending only after every encode and the validation have succeeded |
| `Integers.RoundUpIsCeiling` | internal/upload/upload.go:106 | (a + d - 1) / d is the least number of d that reach a |
| `Uploads.PartSizeFor` | internal/upload/upload.go:80-88 | Ends with the least 8 MiB x 2^k that needs at most 10000 parts, at most 2^30 for every legal size |
| `Uploads.PartsTile` | internal/upload/upload.go:295-304 | The wanted part sizes tile the object: each part non-empty and inside, each ending where the next begins, every byte in exactly one |
| `Uploads.VerifyParts` | internal/upload/upload.go:287-315 | Hands over parts 1..count in order, or names the first of a wrong size, or else all that are missing |
| `Uploads.PassesExactlyWhenWhole` | internal/upload/upload.go:284-286 | The check passes iff every part is there with the size that tiles the object |
| `Uploads.AssembledSize` | internal/upload/upload.go:194-202 | What passes adds up to the declared size |
| `Uploads.Resume` | internal/upload/upload.go:154-165 | Lists what is held and what is missing, ascending, and offers the first hundred |
| `Uploads.MissingAscends` | internal/upload/upload.go:159-163 | The missing numbers are listed in order |
| `Uploads.SupplyPrefix` | internal/upload/upload.go:159-165 | Supplying the first k missing parts leaves exactly the others missing |
| `Uploads.RoundsRemove` | internal/upload/upload.go:269-272 | Each resume round that uploads what it was offered removes min(100, missing) from the front of the list |
| `Uploads.ResumeFinishes` | internal/upload/upload.go:154-165 | So nothing is missing after n rounds iff 100 n is at least what was missing |
| `Uploads.ResumedUploadPasses` | internal/upload/upload.go:137-165 | After k rounds, each supplying what was offered, the check before assembly passes iff 100 k is at least what was missing and no part held at the start had a wrong size |
| `Uploads.ShortPartIsFinal` | internal/upload/upload.go:154-163 | An input at which resuming never ends: a part cut short is reported as there, is not offered again, and assembly is refused after any number of rounds |
| `Uploads.ByNumberKeys` | internal/upload/upload.go:288-291 | Status and the check before assembly see the same part numbers |
| `Uploads.Create` | internal/upload/upload.go:90-135 | Opens an upload exactly for sizes from 1 to 5 TiB, with URLs as if resuming from nothing |
| `Uploads.Upload.constructor` | internal/upload/upload.go:100-109 | A new upload has a part size and a part count within the limits |
| `Uploads.Upload.Status` | internal/upload/upload.go:139-167 | An open upload reports what is missing and what to send next, a closed one nothing |
| `Uploads.Upload.Complete` | internal/upload/upload.go:171-238 | Succeeds iff already completed, or open with every part right, the assembled size as declared and no other source for the asset version; otherwise nothing changes |
| `Uploads.Upload.Abort` | internal/upload/upload.go:240-253 | Aborts exactly an open upload |
| `Texts.CutAtFirst` | internal/playback/manifest.go:127 | Cutting at a separator recovers what stands before and after it |
| `Texts.CutMeans` | internal/playback/manifest.go:127 | strings.Cut splits around the first occurrence, exactly |
| `Texts.TrimSpaceMeans` | internal/playback/manifest.go:127 | Only space is trimmed, and none is left at either end |
| `Texts.ScanReturn` | internal/playback/manifest.go:118-123 | A carriage return goes with its newline |
| `Texts.ScanLast` | internal/playback/manifest.go:118-123 | The last line needs no newline |
| `Texts.LongLine` | internal/playback/manifest.go:119 | A line past the limit ends the scan |
| `Texts.ScanJoin` | internal/playback/manifest.go:118-123 | Scanning text made of lines gives those lines back |
| `Manifests.RewriteVTT` | internal/playback/manifest.go:114-155 | With its memo map, gives what signing each cue separately gives, failures included, and calls the signer once per sheet, at its first use |
| `Manifests.SignLine` | internal/playback/manifest.go:127-149 | One line: structure is copied, a region is signed, and the signer is asked only for a sheet not yet known |
| `Manifests.RegionMeans` | internal/playback/manifest.go:125-128 | A line is a region exactly if, trimmed, it reads a safe name, the first "#xywh=" and a fragment |
| `Manifests.SafeFileBounds` | internal/playback/manifest.go:157-178 | No slash, no two dots in a row, no other character, no empty or overlong name is safe; names of letters, digits, dashes and underscores are |
| `Manifests.SafeFileWithExtension` | internal/playback/manifest.go:162-178 | ... and so are two such names with one dot between |
| `Manifests.FirstUsesDistinct` | internal/playback/manifest.go:134-144 | The calls repeat no sheet and leave none out |
| `Manifests.FailureIsFinal` | internal/playback/manifest.go:139-142 | After a refused signature nothing more is asked or written |
| `Sprites.SheetSize` | internal/agent/thumbnail.go:197-221 | For every duration 1 to 100 tiles, at the shortest interval at which a hundred reach the end; their cues reach from zero to less than one interval of whole seconds before the end, and not past it |
| `Sprites.GridFits` | internal/agent/thumbnail.go:90-92 | The columns asked for, ten by default, unless there are fewer tiles; only the last row may be short |
| `Sprites.TilesFill` | internal/agent/thumbnail.go:225-235 | For every duration and column count the tiles lie inside columns x rows and no two overlap |
| `Sprites.ReadingOrder` | internal/agent/thumbnail.go:231-232 | The sheet is filled along each row from the left, row after row |
| `Sprites.SpriteIndex` | internal/agent/thumbnail.go:225-238 | The builder's loop writes the header and, for each tile, its timing, payload and blank line |
| `Sprites.TimeReads` | internal/agent/thumbnail.go:240-244 | A printed time reads back as the same instant, for any number of hours |
| `Sprites.IndexHeader` | internal/agent/thumbnail.go:227 | An index begins with the WebVTT line and a blank one |
| `Sprites.IndexMapsMoments` | internal/agent/thumbnail.go:223-235 | Read back, cue i is for exactly the moments in interval i, so cues abut, and points at cell i |
| `Sprites.IndexRewritten` | internal/playback/manifest.go:109-155 | Rewriting the index of a sheet gives exactly the index of the signed URL: every timing and region kept, the signer called once |
| `Sprites.IndexRefused` | internal/playback/manifest.go:139-142 | If the signer refuses, the rewriter fails with its error after that one call |

## Left out

- READ COMMITTED interleaving inside a transaction, apart from the two-phase lease: `withAttempt` and the sweep lock only the attempt row, and the release and the reconcile read sibling rows unlocked, so nothing here is claimed below transaction-atomic steps.
- Slots.QuotaHolds: for leases that are one step, because under concurrent leases the quota is computed from the snapshot and not rechecked.
- Slots.TwoPhaseRefines: takes the worker's own leases as serialised, which the advisory lock of `internal/job/schedule.go:78-82` provides, for the claim that the atomic lease is an enabled step.
- Handlers run several transactions: completing and closing the set, or authorising and registering. The model takes each handler as one step, so Gates.DeliveryGate says nothing of a registration that commits between the two halves of another request, or of a crash between them. The job state in a completion is read in the same step.
- `Store.Transition` and `Store.Fail`: only tests call them, and they move a task without its attempt, outside the protocol's invariants.
- Scheduling.WaitingWins: bounds waiting against rivals of bounded priority and age only, because two tasks of different tenants weigh the same waiting differently for as long as both wait.
- Ladder.PlannedSizes: scaling is exact real arithmetic; float64 rounding is abstracted. So is that of the score and of durations.
- Planner.Plan: of the encoder configuration's validation only the checks that depend on the source or the rung are there; specs, colour and audio settings are not.
- Planner.PlanIsAccepted: for presets with a ladder; the tasks of a preset without one are handed through as they are.
- Sprites.IndexRewritten: for sheets whose printed numbers are within Go's int, since a scanned line has a length limit.
- Manifests.RewriteVTT: the signer is a function of the key, with time and context left out, and lines are scanned before the loop rather than as it goes. Text is a sequence of code points, so invalid UTF-8 is not modelled.
- Stores.Store.ExpireLeases: receives the batch its query returned; the choice of that batch is the database's.
- Uploads.Upload.Complete: what the storage provider lists and assembles, and whether the asset version has a source already, are arguments; the rows it writes for the source and the asset are not modelled, nor what the provider still holds after an assembly whose result was refused, nor a storage or database error in the middle.
- Uploads.ResumedUploadPasses: a client uploads only what it is offered; one that keeps an old URL and sends a short part again is not modelled.
- Catalogs.Catalog.RegisterArtifact: the checksum itself and the media description of an artifact, which decide nothing, are not modelled.
- Upload arithmetic is on unbounded integers; legal sizes stay far below the source's 64-bit range, and part numbers below its 32-bit one.
- Timestamps other than deadlines and queueing times, failure reasons, metrics, outputs, specs and schedule explanations, which decide nothing in the protocol.
- Foreign keys, and the tenant column repeated on tasks' attempts.
- HTTP routing, JSON, SQL text, storage, presigning, signatures, tokens, API keys and path safety beyond `SafeFile`.
- HLS rewriting, probe parsing, subprocess supervision, the worker registry and the worker's own loop, metrics, audit, migrations and the user interface.
