/** The task status table (`internal/domain/status.go`). */
module TaskStatuses {

  datatype TaskStatus =
    | Draft | Ready | InProgress | Implemented | Testing | Reviewing | Done
    | Blocked | NeedUserInput | ReviewFailed | Failed | Cancelled

  function Transitions(from: TaskStatus): set<TaskStatus> {
    match from
    case Draft => {Ready, Blocked, Cancelled}
    case Ready => {InProgress, Blocked, Cancelled}
    case InProgress => {Implemented, Blocked, NeedUserInput, Failed, Cancelled}
    case Implemented => {Testing, Failed, Cancelled}
    case Testing => {Reviewing, ReviewFailed, Failed, Cancelled}
    case Reviewing => {Done, ReviewFailed, Failed, Cancelled}
    case Blocked => {Ready, Cancelled}
    case NeedUserInput => {Ready, Blocked, Cancelled}
    case ReviewFailed => {Ready, Done, Cancelled}
    case Failed => {Ready, Done, Cancelled}
    case Done => {}
    case Cancelled => {}
  }

  /** Staying where one is counts as allowed, from every status. */
  predicate CanTransition(from: TaskStatus, to: TaskStatus) {
    from == to || to in Transitions(from)
  }

  /** Read the other way round: from where a status can be reached. */
  lemma ReachedFrom(from: TaskStatus, to: TaskStatus)
    ensures to in Transitions(from) <==>
              match to
              case Draft => false
              case Ready => from in {Draft, Blocked, NeedUserInput, ReviewFailed, Failed}
              case InProgress => from == Ready
              case Implemented => from == InProgress
              case Testing => from == Implemented
              case Reviewing => from == Testing
              case Done => from in {Reviewing, ReviewFailed, Failed}
              case Blocked => from in {Draft, Ready, InProgress, NeedUserInput}
              case NeedUserInput => from == InProgress
              case ReviewFailed => from in {Testing, Reviewing}
              case Failed => from in {InProgress, Implemented, Testing, Reviewing}
              case Cancelled => from !in {Done, Cancelled}
  {
  }

  /** The statuses a task can only have once it was claimed with all its dependencies done. */
  predicate Started(s: TaskStatus) {
    s in {InProgress, Implemented, Testing, Reviewing, NeedUserInput, ReviewFailed, Failed, Done}
  }

  predicate Finished(s: TaskStatus) {
    s == Done || s == Cancelled
  }

  /** Claiming is the only way in: no other allowed step starts a task. Finished tasks never move. */
  lemma StartedOnlyByClaim(from: TaskStatus, to: TaskStatus)
    requires CanTransition(from, to)
    ensures Started(to) && !Started(from) ==> from == Ready && to == InProgress
    ensures Finished(from) ==> to == from
    ensures to == Draft ==> from == Draft
  {
  }
}
