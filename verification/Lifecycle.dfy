/** The authorization lifecycle of internal/authority/state_machine.go. */
module Lifecycle {
  import opened Common

  datatype State =
    | Requested | Pending | Approved | Active | Suspended | Rejected | Expired | Revoked

  /** An event type is a string in the journal, so anything outside the eight known ones is possible. */
  datatype EventType =
    | Submit | Approve | Reject | Activate | Suspend | Reinstate | Expire | Revoke
    | Unrecognized(name: string)

  datatype Reason = TransitionApplied | ConditionsNotSatisfied | InvalidTransition

  datatype TransitionResult = TransitionResult(state: State, applied: bool, reason: Reason)

  /** `nextAuthorizationState`: the edges of the lifecycle. */
  function NextState(current: State, event: EventType): Option<State> {
    match (current, event)
    case (Requested, Submit) => Some(Pending)
    case (Pending, Approve) => Some(Approved)
    case (Pending, Reject) => Some(Rejected)
    case (Approved, Activate) => Some(Active)
    case (Active, Suspend) => Some(Suspended)
    case (Active, Expire) => Some(Expired)
    case (Active, Revoke) => Some(Revoked)
    case (Suspended, Reinstate) => Some(Active)
    case (Suspended, Expire) => Some(Expired)
    case (Suspended, Revoke) => Some(Revoked)
    case _ => None
  }

  /** An invalid or unsatisfied transition fails closed; an applied one always moves to another state. */
  function Transition(current: State, event: EventType, satisfied: bool): (r: TransitionResult)
    ensures r.applied <==> satisfied && NextState(current, event).Some?
    ensures !r.applied ==> r.state == current
    ensures r.applied ==> r.state != current
  {
    var next := NextState(current, event);
    if next.None? then TransitionResult(current, false, InvalidTransition)
    else if !satisfied then TransitionResult(current, false, ConditionsNotSatisfied)
    else TransitionResult(next.value, true, TransitionApplied)
  }
}
