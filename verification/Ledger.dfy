/** The service transactions: which ones commit, what they write, what they return. */
module Ledger {
  import opened Types
  import opened StateMachine
  import opened Rounding
  import opened Dates
  import opened Stamps
  import opened Backoff
  import opened Tables

  /** A transaction either commits one write set or throws and changes nothing. */
  datatype Tx<+T> = Committed(change: Change, value: T) | RolledBack(error: Error)

  function ChangeOf<T>(tx: Tx<T>): Change {
    if tx.Committed? then tx.change else Nothing
  }

  // ----- time-off.service.js -----

  datatype Created = Created(row: Request, effectiveBalanceAfter: real)

  function Effective(db: Db, k: Key): real
    requires k in db.balances
  {
    Round(db.balances[k].hcmBalance - SumOpen(db.reservations, k) as real)
  }

  function CreateTx(db: Db, actor: Actor, input: Input, id: Id, corr: Id, now: Time): Tx<Created> {
    match CountDaysInclusive(input.startDate, input.endDate)
    case Failure(e) => RolledBack(e)
    case Success(days) =>
      var key := Key(actor.sub, input.locationId, input.leaveType);
      if key !in db.balances then RolledBack(BalanceNotFound(key))
      else if Effective(db, key) < days as real then RolledBack(InsufficientBalance(Effective(db, key), days))
      else if FindRequest(db.requests, id).Some? then RolledBack(ConstraintViolation)
      else
        var row := Request(id, key, actor.managerId, input.startDate, input.endDate, days, input.reason,
                           RequestState.Pending, now, now, corr, None, None, None, None);
        Committed(Insert(row), Created(row, Round(Effective(db, key) - days as real)))
  }

  /** An admin, or a manager to whom the request is assigned or left open. */
  predicate AuthorizeManager(actor: Actor, q: Request) {
    Admin in actor.roles
    || (Manager in actor.roles && (q.managerId.None? || q.managerId.value == "" || q.managerId.value == actor.sub))
  }

  predicate ExternalIdTaken(rs: seq<Request>, ext: Id) {
    exists i :: 0 <= i < |rs| && rs[i].externalRequestId == Some(ext)
  }

  function ApproveTx(db: Db, actor: Actor, id: Id, newExt: Id, now: Time): Tx<Request> {
    match FindRequest(db.requests, id)
    case None => RolledBack(NotFound(id))
    case Some(i) =>
      var before := db.requests[i];
      if !AuthorizeManager(actor, before) then RolledBack(Forbidden)
      else if !CanTransition(before.state, Approved) then RolledBack(InvalidTransition(before.state, Approved))
      else if before.externalRequestId.None? && ExternalIdTaken(db.requests, newExt) then RolledBack(ConstraintViolation)
      else
        var patch := Patch(Some(actor.sub), Some(now), Coalesce(before.externalRequestId, Some(newExt)), None);
        Committed(Move(i, Approved, patch, User(actor.sub), now), Moved(before, Approved, patch, now))
  }

  function RejectTx(db: Db, actor: Actor, id: Id, reason: Option<string>, now: Time): Tx<Request> {
    match FindRequest(db.requests, id)
    case None => RolledBack(NotFound(id))
    case Some(i) =>
      var before := db.requests[i];
      if !AuthorizeManager(actor, before) then RolledBack(Forbidden)
      else if !CanTransition(before.state, Rejected) then RolledBack(InvalidTransition(before.state, Rejected))
      else
        var patch := Patch(Some(actor.sub), None, None, reason);
        Committed(Move(i, Rejected, patch, User(actor.sub), now), Moved(before, Rejected, patch, now))
  }

  function CancelTx(db: Db, actor: Actor, id: Id, now: Time): Tx<Request> {
    match FindRequest(db.requests, id)
    case None => RolledBack(NotFound(id))
    case Some(i) =>
      var before := db.requests[i];
      if before.key.employeeId != actor.sub && Admin !in actor.roles then RolledBack(Forbidden)
      else if !CanTransition(before.state, Cancelled) then RolledBack(InvalidTransition(before.state, Cancelled))
      else
        Committed(Move(i, Cancelled, NO_PATCH, User(actor.sub), now), Moved(before, Cancelled, NO_PATCH, now))
  }

  /** markConsumed, markHcmFailed and markReviewRequired: a repeated call returns the row as it is. */
  function MarkTx(db: Db, id: Id, to: RequestState, error: Option<string>, now: Time): Tx<Request> {
    match FindRequest(db.requests, id)
    case None => RolledBack(NotFound(id))
    case Some(i) =>
      var before := db.requests[i];
      if before.state == to then Committed(Nothing, before)
      else if !CanTransition(before.state, to) then RolledBack(InvalidTransition(before.state, to))
      else
        var patch := Patch(None, None, None, error);
        Committed(Move(i, to, patch, System, now), Moved(before, to, patch, now))
  }

  // ----- balances.service.js -----

  datatype SnapshotResult = SnapshotResult(
    key: Key, balance: Balance, ignored: bool, negativeDrift: bool, reserved: int)

  /** The row after upsertBalance: an older snapshot leaves it alone, any other one replaces it. */
  function Upserted(m: map<Key, Balance>, k: Key, balance: real, asOf: Stamp, now: Time): Balance {
    if k !in m then Balance(balance, asOf, now, 1)
    else if Before(asOf, m[k].hcmSnapshotAt) then m[k]
    else Balance(balance, asOf, now, m[k].version + 1)
  }

  /** asOf is None when it is NaN: that compares with nothing, and no column takes it. */
  function SnapshotTx(db: Db, k: Key, balance: real, asOf: Option<Stamp>, now: Time): Tx<SnapshotResult> {
    var ignored := asOf.Some? && k in db.balances && Before(asOf.value, db.balances[k].hcmSnapshotAt);
    if asOf.None? || (!ignored && balance < 0.0) then RolledBack(ConstraintViolation)
    else
      var updated := Upserted(db.balances, k, balance, asOf.value, now);
      var reserved := SumOpen(db.reservations, k);
      var drift := !ignored && balance < reserved as real;
      var action := if ignored then SnapshotIgnoredStale
                    else if drift then SnapshotNegativeDrift else SnapshotApplied;
      Committed(Snapshot(k, updated, action, now), SnapshotResult(k, updated, ignored, drift, reserved))
  }

  // ----- hcm-outbox.service.js -----

  function RetryChange(c: Config, o: seq<OutboxRow>, r: nat, error: string, random: real, now: Time): Change {
    if r >= |o| then Nothing
    else
      var next := o[r].attempts + 1;
      if next >= c.maxAttempts then Retry(r, next, Dead, o[r].nextAttemptAt, error, now)
      else Retry(r, next, RowStatus.Pending, now + ComputeBackoffMs(next, random), error, now)
  }
}
