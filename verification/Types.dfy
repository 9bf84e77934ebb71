/** The rows of the service's tables, and the values its callers pass in. */
module Types {

  datatype Option<+T> = None | Some(value: T)

  /** SQL's COALESCE(patch, current). */
  function Coalesce<T>(patch: Option<T>, current: Option<T>): Option<T> {
    if patch.Some? then patch else current
  }

  datatype Result<+T, +E> = Success(value: T) | Failure(error: E)

  type Id = string
  type Time = int  // milliseconds since the epoch

  datatype Key = Key(employeeId: Id, locationId: string, leaveType: string)

  datatype RequestState =
    | Pending | Approved | Rejected | Cancelled | Consumed | HcmFailed | ReviewRequired

  datatype Request = Request(
    id: Id, key: Key, managerId: Option<Id>,
    startDate: string, endDate: string, days: int, reason: Option<string>,
    state: RequestState, createdAt: Time, updatedAt: Time, correlationId: Id,
    externalRequestId: Option<Id>,
    approverId: Option<Id>, approvedAt: Option<Time>, hcmError: Option<string>)

  datatype ReservationState = Open | Consumed | Released

  datatype Reservation = Reservation(
    requestId: Id, key: Key, days: int, state: ReservationState, createdAt: Time, updatedAt: Time)

  /** When HCM says a balance held: a number, or a text that nobody parsed. */
  datatype Stamp = Ms(time: Time) | Iso(text: string)

  datatype Balance = Balance(hcmBalance: real, hcmSnapshotAt: Stamp, updatedAt: Time, version: int)

  datatype Payload = Payload(
    key: Key, days: int, startDate: string, endDate: string, externalRequestId: Id, correlationId: Id)

  datatype RowStatus = Pending | Inflight | Done | Dead

  /** A row of hcm_outbox; its id is its position in the table (ids are never reused). */
  datatype OutboxRow = OutboxRow(
    requestId: Id, payload: Payload, attempts: nat, nextAttemptAt: Time,
    status: RowStatus, lastError: Option<string>, createdAt: Time, updatedAt: Time)

  datatype AuditActor = User(id: Id) | System

  datatype RequestAction =
    | RequestCreated | RequestApproved | RequestRejected | RequestCancelled
    | RequestConsumed | RequestHcmFailed | RequestReviewRequired

  datatype SnapshotAction = SnapshotApplied | SnapshotIgnoredStale | SnapshotNegativeDrift

  datatype AuditRow =
    | RequestLogged(actor: AuditActor, action: RequestAction, requestId: Id,
                    before: Option<Request>, after: Request, at: Time)
    | BalanceLogged(snapshot: SnapshotAction, key: Key, cachedBefore: Option<Balance>, cachedAfter: Balance, at: Time)

  datatype Role = Employee | Manager | Admin

  datatype Actor = Actor(sub: Id, roles: set<Role>, managerId: Option<Id>)

  datatype Input = Input(
    locationId: string, leaveType: string, startDate: string, endDate: string, reason: Option<string>)

  datatype Error =
    | InvalidDate | EndBeforeStart
    | BalanceNotFound(key: Key)
    | InsufficientBalance(available: real, requested: int)
    | NotFound(id: Id) | Forbidden
    | InvalidTransition(from: RequestState, to: RequestState)
    | ConstraintViolation

  /** outboxMaxAttempts and outboxBatchSize. */
  datatype Config = Config(maxAttempts: int, batchSize: int) {
    predicate Valid() { maxAttempts >= 1 && batchSize >= 1 }
  }
}
