/**
 * The order entity and its status state machine: the fixed table of allowed
 * transitions, the check `canTransitionTo`, and `changeStatus`, which guards
 * the private status field.
 */
module Orders {
  import opened Wrappers
  import opened Errors

  datatype Status = Pending | Processing | Completed | Cancelled

  /** The enum's string values. */
  function StatusName(s: Status): string {
    match s
    case Pending => "pending"
    case Processing => "processing"
    case Completed => "completed"
    case Cancelled => "cancelled"
  }

  /** The edges of the transition table, written as a relation. */
  const TableEdges: set<(Status, Status)> :=
    {(Pending, Processing), (Pending, Cancelled), (Processing, Completed), (Processing, Cancelled)}

  /** `ALLOWED_TRANSITIONS[s]`: exactly the table's edges out of `s`. No edge
      is a self-loop and no edge enters pending; completed and cancelled have
      no way out. */
  function AllowedTransitions(s: Status): (next: seq<Status>)
    ensures forall t :: t in next <==> (s, t) in TableEdges
    ensures s !in next && Pending !in next
    ensures next == [] <==> s == Completed || s == Cancelled
  {
    match s
    case Pending => [Processing, Cancelled]
    case Processing => [Completed, Cancelled]
    case Completed => []
    case Cancelled => []
  }

  predicate IsTerminal(s: Status) {
    AllowedTransitions(s) == []
  }

  /** `canTransitionTo`: with no status yet, or with the requested status
      equal to the current one, any request passes; otherwise the table
      decides. */
  predicate CanTransitionTo(current: Option<Status>, requested: Status) {
    current.None? || current.value == requested || requested in AllowedTransitions(current.value)
  }

  function TransitionMessage(from: Status, to: Status): string {
    "Cannot transition from " + StatusName(from) + " to " + StatusName(to)
  }

  /** The `ValidationError` `changeStatus` throws for a refused request: one
      message under `fieldErrors.status`. */
  function TransitionError(from: Status, to: Status): (e: AppError)
    ensures e.cls == ValidationErrorClass && e.statusCode == 422 && e.message == "Invalid data"
    ensures FieldErrorsOf(e.context) == map["status" := [TransitionMessage(from, to)]]
  {
    FieldError("status", TransitionMessage(from, to))
  }

  /** What `changeStatus(requested)` does to a status field holding `current`:
      the new status, or the error it throws. */
  function Step(current: Option<Status>, requested: Status): (r: Result<Status, AppError>)
    ensures r.Ok? <==> CanTransitionTo(current, requested)
    ensures r.Ok? ==> r.value == requested
    ensures r.Err? ==> current.Some? && r.error == TransitionError(current.value, requested)
  {
    if CanTransitionTo(current, requested) then Ok(requested)
    else Err(TransitionError(current.value, requested))
  }

  /** The status after a `changeStatus` call whose error, if any, is caught:
      a refused request leaves the status as it was. */
  function Apply(current: Status, requested: Status): Status {
    match Step(Some(current), requested)
    case Ok(s) => s
    case Err(_) => current
  }

  /** The status after a series of `changeStatus` calls, in order. */
  function Run(s: Status, requests: seq<Status>): Status
    decreases |requests|
  {
    if requests == [] then s else Run(Apply(s, requests[0]), requests[1..])
  }

  /** Requesting the current status always succeeds and changes nothing,
      cancelled included: a second cancellation is accepted. */
  lemma SameStatusAccepted(s: Status)
    ensures Step(Some(s), s) == Ok(s)
    ensures Step(Some(Cancelled), Cancelled).Ok?
  {
  }

  /** The first assignment, to a status that is not yet set, accepts anything. */
  lemma InitialAssignmentAccepted(t: Status)
    ensures Step(None, t) == Ok(t)
  {
  }

  /** For a set status `s` and a different request `t`, `changeStatus(t)`
      succeeds exactly when the table has the edge, and then the status is
      `t`; otherwise it throws the transition error. */
  lemma ChangeFollowsTable(s: Status, t: Status)
    requires s != t
    ensures Step(Some(s), t).Ok? <==> (s, t) in TableEdges
    ensures Step(Some(s), t).Ok? ==> Step(Some(s), t).value == t
    ensures Step(Some(s), t).Err? ==>
              FieldErrorsOf(Step(Some(s), t).error.context)["status"] == [TransitionMessage(s, t)]
  {
  }

  /** A set status never goes back to pending in the accepted step. */
  lemma NoStepBackToPending(s: Status)
    requires s != Pending
    ensures Step(Some(s), Pending).Err?
  {
  }

  /** Once completed or cancelled, no series of requests changes the status. */
  lemma {:induction false} TerminalIsFinal(s: Status, requests: seq<Status>)
    requires IsTerminal(s)
    ensures Run(s, requests) == s
    decreases |requests|
  {
    if requests != [] {
      assert Apply(s, requests[0]) == s;
      TerminalIsFinal(s, requests[1..]);
    }
  }

  /** Once a status has left pending it never returns to it. */
  lemma {:induction false} NeverBackToPending(s: Status, requests: seq<Status>)
    requires s != Pending
    ensures Run(s, requests) != Pending
    decreases |requests|
  {
    if requests != [] {
      assert Apply(s, requests[0]) != Pending;
      NeverBackToPending(Apply(s, requests[0]), requests[1..]);
    }
  }

  /** How far along the lifecycle a status is. */
  function Stage(s: Status): nat {
    match s
    case Pending => 0
    case Processing => 1
    case Completed => 2
    case Cancelled => 2
  }

  /** Accepted steps only move forward along the lifecycle, so a series of
      requests never ends behind where it started. */
  lemma {:induction false} RunMovesForward(s: Status, requests: seq<Status>)
    ensures Stage(Run(s, requests)) >= Stage(s)
    decreases |requests|
  {
    if requests != [] {
      assert Stage(Apply(s, requests[0])) >= Stage(s);
      RunMovesForward(Apply(s, requests[0]), requests[1..]);
    }
  }

  /** pending to completed is refused in one step but reached through
      processing in two accepted steps; after that, pending is refused. */
  lemma CompletionGoesThroughProcessing()
    ensures Step(Some(Pending), Completed).Err?
    ensures Step(Some(Pending), Processing) == Ok(Processing)
    ensures Step(Some(Processing), Completed) == Ok(Completed)
    ensures Run(Pending, [Completed, Processing, Completed]) == Completed
    ensures Step(Some(Completed), Pending).Err?
  {
    assert [Completed, Processing, Completed][1..] == [Processing, Completed];
    assert [Processing, Completed][1..] == [Completed];
  }

  /** The order entity. Its status is the private `_status` field, which has
      no value until first assigned; the `status` setter and `changeStatus`
      both write it through the transition check. */
  class Order {
    var id: nat
    var customerId: string
    var totalAmount: int
    var createdAt: nat
    var updatedAt: nat
    var deletedAt: Option<nat>
    var status: Option<Status>

    /** A fresh entity carrying the plain fields; its status is not set yet. */
    constructor (id: nat, customerId: string, totalAmount: int,
                 createdAt: nat, updatedAt: nat, deletedAt: Option<nat>)
      ensures this.id == id && this.customerId == customerId && this.totalAmount == totalAmount
      ensures this.createdAt == createdAt && this.updatedAt == updatedAt && this.deletedAt == deletedAt
      ensures status == None
    {
      this.id := id;
      this.customerId := customerId;
      this.totalAmount := totalAmount;
      this.createdAt := createdAt;
      this.updatedAt := updatedAt;
      this.deletedAt := deletedAt;
      status := None;
    }

    /** `changeStatus` (and the `status` setter, which calls it): on an
        accepted request the status becomes the requested one; on a refused
        one the transition error is thrown and the status is unchanged. No
        other field is written. */
    method ChangeStatus(requested: Status) returns (outcome: Outcome<AppError>)
      modifies this`status
      ensures outcome.Pass? <==> CanTransitionTo(old(status), requested)
      ensures outcome.Pass? ==> status == Some(requested) && Step(old(status), requested) == Ok(requested)
      ensures outcome.Fail? ==> status == old(status) && Step(old(status), requested) == Err(outcome.error)
    {
      if !CanTransitionTo(status, requested) {
        return Fail(TransitionError(status.value, requested));
      }
      status := Some(requested);
      outcome := Pass;
    }
  }
}
