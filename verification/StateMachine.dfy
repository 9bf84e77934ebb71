/** The request lifecycle graph (src/time-off/state-machine.js). */
module StateMachine {
  import opened Types

  function Targets(from: RequestState): set<RequestState> {
    match from
    case Pending => {Approved, Rejected, Cancelled}
    case Approved => {RequestState.Consumed, Cancelled, HcmFailed, ReviewRequired}
    case ReviewRequired => {Approved, Rejected, Cancelled}
    case Rejected => {}
    case Cancelled => {}
    case Consumed => {}
    case HcmFailed => {Cancelled}
  }

  predicate CanTransition(from: RequestState, to: RequestState) {
    to in Targets(from)
  }

  /** What a request in this state holds of its employee's balance. */
  function Held(s: RequestState): ReservationState {
    match s
    case Pending | Approved | ReviewRequired => Open
    case Consumed => ReservationState.Consumed
    case Rejected | Cancelled | HcmFailed => Released
  }

  /** The audit action that records arrival in a state. */
  function ActionFor(s: RequestState): RequestAction {
    match s
    case Pending => RequestCreated
    case Approved => RequestApproved
    case Rejected => RequestRejected
    case Cancelled => RequestCancelled
    case Consumed => RequestConsumed
    case HcmFailed => RequestHcmFailed
    case ReviewRequired => RequestReviewRequired
  }

  /** How many more arrivals in Approved than in ReviewRequired a path to this state may hold. */
  predicate NetApprovals(s: RequestState, n: int) {
    match s
    case Approved | Consumed | HcmFailed => n == 1
    case Pending | ReviewRequired | Rejected => n == 0
    case Cancelled => n == 0 || n == 1
  }

  function Arrival(s: RequestState): int {
    match s
    case Approved => 1
    case ReviewRequired => -1
    case _ => 0
  }

  lemma NetApprovalsStep(from: RequestState, to: RequestState, n: int)
    requires CanTransition(from, to) && NetApprovals(from, n)
    ensures NetApprovals(to, n + Arrival(to))
  {
  }

  lemma ClosedStaysClosed(from: RequestState, to: RequestState)
    requires CanTransition(from, to)
    ensures !Held(from).Open? ==> Held(to) == Held(from)
    ensures to != RequestState.Pending
  {
  }
}
