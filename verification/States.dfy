/**
 The lifecycle vocabulary of internal/job/state.go: task, attempt and job states,
 the two legal-transition tables, and the failure classes.
 */
module States {

  datatype TaskState =
    | TaskPending
    | TaskQueued
    | TaskLeased
    | TaskRunning
    | TaskSucceeded
    | TaskFailed
    | TaskCancelled
  {
    predicate IsTerminal() {
      TaskSucceeded? || TaskCancelled? || TaskFailed?
    }
  }

  datatype AttemptState =
    | AttemptLeased
    | AttemptRunning
    | AttemptSucceeded
    | AttemptFailed
    | AttemptCancelled
    | AttemptExpired
  {
    predicate IsTerminal() {
      LegalAttemptTransitions(this) == {}
    }

    /** What the queries select with `state in ('leased','running')`. */
    predicate IsLive() {
      AttemptLeased? || AttemptRunning?
    }
  }

  datatype JobState = JobPending | JobRunning | JobSucceeded | JobFailed | JobCancelled {
    predicate IsTerminal() {
      JobSucceeded? || JobFailed? || JobCancelled?
    }
  }

  function LegalTaskTransitions(from: TaskState): set<TaskState> {
    match from
    case TaskPending => {TaskQueued, TaskCancelled}
    case TaskQueued => {TaskLeased, TaskCancelled}
    case TaskLeased => {TaskRunning, TaskQueued, TaskFailed, TaskCancelled}
    case TaskRunning => {TaskSucceeded, TaskFailed, TaskCancelled, TaskQueued}
    case TaskFailed => {TaskQueued}
    case TaskSucceeded => {}
    case TaskCancelled => {}
  }

  function LegalAttemptTransitions(from: AttemptState): set<AttemptState> {
    match from
    case AttemptLeased => {AttemptRunning, AttemptFailed, AttemptCancelled, AttemptExpired}
    case AttemptRunning => {AttemptSucceeded, AttemptFailed, AttemptCancelled, AttemptExpired}
    case AttemptSucceeded => {}
    case AttemptFailed => {}
    case AttemptCancelled => {}
    case AttemptExpired => {}
  }

  predicate CanTransitionTask(from: TaskState, to: TaskState) {
    to in LegalTaskTransitions(from)
  }

  predicate CanTransitionAttempt(from: AttemptState, to: AttemptState) {
    to in LegalAttemptTransitions(from)
  }

  /** The task table, read by where a task may come from. */
  lemma TaskMoves(from: TaskState)
    ensures !CanTransitionTask(from, TaskPending)
    ensures CanTransitionTask(from, TaskQueued) <==> from == TaskPending || from == TaskLeased || from == TaskRunning || from == TaskFailed
    ensures CanTransitionTask(from, TaskLeased) <==> from == TaskQueued
    ensures CanTransitionTask(from, TaskRunning) <==> from == TaskLeased
    ensures CanTransitionTask(from, TaskSucceeded) <==> from == TaskRunning
    ensures CanTransitionTask(from, TaskFailed) <==> from == TaskLeased || from == TaskRunning
    ensures CanTransitionTask(from, TaskCancelled) <==> !from.IsTerminal()
  {
  }

  /** The attempt table: started once, succeeded only when started, and ended once. */
  lemma AttemptMoves(from: AttemptState)
    ensures !CanTransitionAttempt(from, AttemptLeased)
    ensures CanTransitionAttempt(from, AttemptRunning) <==> from == AttemptLeased
    ensures CanTransitionAttempt(from, AttemptSucceeded) <==> from == AttemptRunning
    ensures forall to | to in {AttemptFailed, AttemptCancelled, AttemptExpired} ::
              CanTransitionAttempt(from, to) <==> from.IsLive()
    ensures from.IsTerminal() <==> !from.IsLive()
  {
  }

  /** A class as it arrives from a worker: one of the six known names, or any other text. */
  datatype FailureClass =
    | ClassTransient
    | ClassResource
    | ClassPermanentInput
    | ClassPermanentConfig
    | ClassInfrastructure
    | ClassUnknown
    | ClassOther(text: string)
  {
    predicate Valid() {
      !ClassOther?
    }

    predicate Retryable() {
      ClassTransient? || ClassResource? || ClassInfrastructure? || ClassUnknown?
    }
  }
}
