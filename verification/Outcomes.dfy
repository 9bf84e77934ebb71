/**
 * What each transaction answers and leaves, column by column and error by error.  The specification functions
 * the rest of the model shares (AuthorizeManager, Targets, Held, Moved, PayloadFor, ...) are not named here.
 */
module Outcomes {
  import opened Types
  import opened Sums
  import opened StateMachine
  import opened Rounding
  import opened Stamps
  import opened Tables
  import opened Ledger
  import opened Invariants
  import opened Lifecycle
  import opened Backoff
  import opened Protocol
  import opened Dates

  /** Request i is the one with this id. */
  predicate IsRow(db: Db, id: Id, i: nat) {
    Aligned(db) && DistinctIds(db.requests) && i < |db.requests| && db.requests[i].id == id
  }

  lemma FoundAt(db: Db, id: Id, i: nat)
    requires IsRow(db, id, i)
    ensures FindRequest(db.requests, id) == Some(i)
  {
  }

  /** The reservation at i, closed to a state if it was open. */
  function ClosedAt(vs: seq<Reservation>, i: nat, to: ReservationState, now: Time): seq<Reservation>
    requires i < |vs|
  {
    if vs[i].state.Open? then vs[i := vs[i].(state := to, updatedAt := now)] else vs
  }

  // ----- Filing -----

  /** What createRequest throws, in the order it looks. */
  lemma FilingRefused(db: Db, actor: Actor, input: Input, id: Id, corr: Id, now: Time)
    ensures var tx := CreateTx(db, actor, input, id, corr, now);
            var key := Key(actor.sub, input.locationId, input.leaveType);
            var days := CountDaysInclusive(input.startDate, input.endDate);
            && (days.Failure? ==> tx == RolledBack(days.error))
            && (days.Success? && key !in db.balances ==> tx == RolledBack(BalanceNotFound(key)))
            && (days.Success? && key in db.balances ==>
                  var left := db.balances[key].hcmBalance - SumOpen(db.reservations, key) as real;
                  if left < days.value as real - 0.005 then
                    tx.RolledBack? && tx.error.InsufficientBalance? && tx.error.requested == days.value
                    && tx.error.available - 0.005 <= left < tx.error.available + 0.005
                  else if exists i :: 0 <= i < |db.requests| && db.requests[i].id == id then tx == RolledBack(ConstraintViolation)
                  else tx.Committed?)
  {
    hide CountDaysInclusive, SumOpen, Round;
    var key := Key(actor.sub, input.locationId, input.leaveType);
    var days := CountDaysInclusive(input.startDate, input.endDate);
    if days.Success? && key in db.balances {
      var left := db.balances[key].hcmBalance - SumOpen(db.reservations, key) as real;
      RoundAtLeast(left, days.value);
      RoundIsNearest(left);
    }
  }

  /** What a filing writes: the actor's own manager, key, dates and reason, now. */
  lemma FilingLeaves(db: Db, actor: Actor, input: Input, id: Id, corr: Id, now: Time)
    requires Aligned(db) && CreateTx(db, actor, input, id, corr, now).Committed?
    ensures var tx := CreateTx(db, actor, input, id, corr, now);
            var days := CountDaysInclusive(input.startDate, input.endDate);
            && days.Success?
            && var key := Key(actor.sub, input.locationId, input.leaveType);
               var q := Request(id, key, actor.managerId, input.startDate, input.endDate, days.value, input.reason,
                                RequestState.Pending, now, now, corr, None, None, None, None);
               && tx.value.row == q
               && Apply(db, tx.change) ==
                  Db(db.balances, db.requests + [q],
                     db.reservations + [Reservation(id, key, days.value, Open, now, now)],
                     db.outbox, db.audit + [RequestLogged(User(actor.sub), RequestCreated, id, None, q, now)])
  {
    hide CountDaysInclusive, SumOpen, Round, FindRequest;
  }

  /** A request filed under a named manager is closed to every other manager: neither approval nor rejection passes. */
  lemma OnlyTheNamedManager(db: Db, actor: Actor, input: Input, id: Id, corr: Id, now: Time,
                            other: Actor, newExt: Id, reason: Option<string>, later: Time)
    requires Coupled(db) && CreateTx(db, actor, input, id, corr, now).Committed?
    requires actor.managerId.Some? && actor.managerId.value != "" && Admin !in other.roles && other.sub != actor.managerId.value
    ensures var filed := Apply(db, CreateTx(db, actor, input, id, corr, now).change);
            && ApproveTx(filed, other, id, newExt, later) == RolledBack(Forbidden)
            && RejectTx(filed, other, id, reason, later) == RolledBack(Forbidden)
  {
    hide CountDaysInclusive, SumOpen, Round;
    FilingLeaves(db, actor, input, id, corr, now);
  }

  // ----- Decisions -----

  /** A request nobody has is not found, by any of the calls. */
  lemma MissingIsNotFound(db: Db, actor: Actor, id: Id, newExt: Id, reason: Option<string>, to: RequestState, now: Time)
    requires forall i :: 0 <= i < |db.requests| ==> db.requests[i].id != id
    ensures ApproveTx(db, actor, id, newExt, now) == RolledBack(NotFound(id))
    ensures RejectTx(db, actor, id, reason, now) == RolledBack(NotFound(id))
    ensures CancelTx(db, actor, id, now) == RolledBack(NotFound(id))
    ensures MarkTx(db, id, to, reason, now) == RolledBack(NotFound(id))
  {
    assert FindRequest(db.requests, id).None?;
  }

  lemma ApprovalOutcome(db: Db, actor: Actor, id: Id, newExt: Id, now: Time, i: nat)
    requires IsRow(db, id, i)
    ensures var tx, q := ApproveTx(db, actor, id, newExt, now), db.requests[i];
            var taken := q.externalRequestId.None? && exists j :: 0 <= j < |db.requests| && db.requests[j].externalRequestId == Some(newExt);
            if Admin !in actor.roles
               && (Manager !in actor.roles || (q.managerId.Some? && q.managerId.value != "" && q.managerId.value != actor.sub))
            then tx == RolledBack(Forbidden)
            else if q.state !in {RequestState.Pending, ReviewRequired} then tx == RolledBack(InvalidTransition(q.state, Approved))
            else if taken then tx == RolledBack(ConstraintViolation)
            else
              var ext := if q.externalRequestId.Some? then q.externalRequestId.value else newExt;
              var q' := q.(state := Approved, updatedAt := now, approverId := Some(actor.sub), approvedAt := Some(now),
                           externalRequestId := Some(ext));
              && tx.Committed? && tx.value == q'
              && Apply(db, tx.change) ==
                 Db(db.balances, db.requests[i := q'], db.reservations,
                    db.outbox + [OutboxRow(id, Payload(q.key, q.days, q.startDate, q.endDate, ext, q.correlationId), 0, now,
                                           RowStatus.Pending, None, now, now)],
                    db.audit + [RequestLogged(User(actor.sub), RequestApproved, id, Some(q), q', now)])
  {
    hide FindRequest, Targets;
    FoundAt(db, id, i);
    Edges(db.requests[i].state, Approved);
    assert db.reservations[i := db.reservations[i]] == db.reservations;
  }

  lemma RejectionOutcome(db: Db, actor: Actor, id: Id, reason: Option<string>, now: Time, i: nat)
    requires IsRow(db, id, i)
    ensures var tx, q := RejectTx(db, actor, id, reason, now), db.requests[i];
            if Admin !in actor.roles
               && (Manager !in actor.roles || (q.managerId.Some? && q.managerId.value != "" && q.managerId.value != actor.sub))
            then tx == RolledBack(Forbidden)
            else if q.state !in {RequestState.Pending, ReviewRequired} then tx == RolledBack(InvalidTransition(q.state, Rejected))
            else
              var q' := q.(state := Rejected, updatedAt := now, approverId := Some(actor.sub),
                           hcmError := if reason.Some? then reason else q.hcmError);
              && tx.Committed? && tx.value == q'
              && Apply(db, tx.change) ==
                 Db(db.balances, db.requests[i := q'], ClosedAt(db.reservations, i, Released, now), db.outbox,
                    db.audit + [RequestLogged(User(actor.sub), RequestRejected, id, Some(q), q', now)])
  {
    hide FindRequest, Targets;
    FoundAt(db, id, i);
    Edges(db.requests[i].state, Rejected);
    assert db.reservations[i := db.reservations[i]] == db.reservations;
  }

  lemma CancellationOutcome(db: Db, actor: Actor, id: Id, now: Time, i: nat)
    requires IsRow(db, id, i)
    ensures var tx, q := CancelTx(db, actor, id, now), db.requests[i];
            if q.key.employeeId != actor.sub && Admin !in actor.roles then tx == RolledBack(Forbidden)
            else if q.state !in {RequestState.Pending, Approved, ReviewRequired, HcmFailed}
            then tx == RolledBack(InvalidTransition(q.state, Cancelled))
            else
              var q' := q.(state := Cancelled, updatedAt := now);
              && tx.Committed? && tx.value == q'
              && Apply(db, tx.change) ==
                 Db(db.balances, db.requests[i := q'], ClosedAt(db.reservations, i, Released, now), db.outbox,
                    db.audit + [RequestLogged(User(actor.sub), RequestCancelled, id, Some(q), q', now)])
  {
    hide FindRequest, Targets;
    FoundAt(db, id, i);
    Edges(db.requests[i].state, Cancelled);
    assert db.reservations[i := db.reservations[i]] == db.reservations;
  }

  // ----- Marks -----

  /** markConsumed: the reservation is consumed, not released. */
  lemma ConsumptionOutcome(db: Db, id: Id, now: Time, i: nat)
    requires IsRow(db, id, i)
    ensures var tx, q := MarkTx(db, id, RequestState.Consumed, None, now), db.requests[i];
            if q.state == RequestState.Consumed then tx.Committed? && tx.value == q && Apply(db, tx.change) == db
            else if q.state != Approved then tx == RolledBack(InvalidTransition(q.state, RequestState.Consumed))
            else
              var q' := q.(state := RequestState.Consumed, updatedAt := now);
              && tx.Committed? && tx.value == q'
              && Apply(db, tx.change) ==
                 Db(db.balances, db.requests[i := q'], ClosedAt(db.reservations, i, ReservationState.Consumed, now), db.outbox,
                    db.audit + [RequestLogged(System, RequestConsumed, id, Some(q), q', now)])
  {
    hide FindRequest, Targets;
    FoundAt(db, id, i);
    Edges(db.requests[i].state, RequestState.Consumed);
    assert db.reservations[i := db.reservations[i]] == db.reservations;
  }

  /** markHcmFailed: the reservation is released, and the error kept. */
  lemma FailureOutcome(db: Db, id: Id, error: string, now: Time, i: nat)
    requires IsRow(db, id, i)
    ensures var tx, q := MarkTx(db, id, HcmFailed, Some(error), now), db.requests[i];
            if q.state == HcmFailed then tx.Committed? && tx.value == q && Apply(db, tx.change) == db
            else if q.state != Approved then tx == RolledBack(InvalidTransition(q.state, HcmFailed))
            else
              var q' := q.(state := HcmFailed, updatedAt := now, hcmError := Some(error));
              && tx.Committed? && tx.value == q'
              && Apply(db, tx.change) ==
                 Db(db.balances, db.requests[i := q'], ClosedAt(db.reservations, i, Released, now), db.outbox,
                    db.audit + [RequestLogged(System, RequestHcmFailed, id, Some(q), q', now)])
  {
    hide FindRequest, Targets;
    FoundAt(db, id, i);
    Edges(db.requests[i].state, HcmFailed);
    assert db.reservations[i := db.reservations[i]] == db.reservations;
  }

  /** markReviewRequired: the reservation stays as it is. */
  lemma ReviewOutcome(db: Db, id: Id, reason: string, now: Time, i: nat)
    requires IsRow(db, id, i)
    ensures var tx, q := MarkTx(db, id, ReviewRequired, Some(reason), now), db.requests[i];
            if q.state == ReviewRequired then tx.Committed? && tx.value == q && Apply(db, tx.change) == db
            else if q.state != Approved then tx == RolledBack(InvalidTransition(q.state, ReviewRequired))
            else
              var q' := q.(state := ReviewRequired, updatedAt := now, hcmError := Some(reason));
              && tx.Committed? && tx.value == q'
              && Apply(db, tx.change) ==
                 Db(db.balances, db.requests[i := q'], db.reservations, db.outbox,
                    db.audit + [RequestLogged(System, RequestReviewRequired, id, Some(q), q', now)])
  {
    hide FindRequest, Targets;
    FoundAt(db, id, i);
    Edges(db.requests[i].state, ReviewRequired);
    assert db.reservations[i := db.reservations[i]] == db.reservations;
  }

  /** A permanent failure gives the employee exactly the request's days back, and nobody else any. */
  lemma FailureFreesDays(c: Config, db: Db, id: Id, error: string, now: Time, i: nat, k: Key)
    requires Coupled(db) && IsRow(db, id, i) && db.requests[i].state == Approved
    ensures var tx := MarkTx(db, id, HcmFailed, Some(error), now);
            && tx.Committed?
            && SumOpen(Apply(db, tx.change).reservations, k) ==
               SumOpen(db.reservations, k) - if db.requests[i].key == k then db.requests[i].days else 0
  {
    hide SumOpen, FindRequest, Targets, Allowed;
    FoundAt(db, id, i);
    Edges(db.requests[i].state, HcmFailed);
    MarkAllowed(c, db, id, HcmFailed, Some(error), now);
    OpenSumAfter(c, db, MarkTx(db, id, HcmFailed, Some(error), now).change, k);
  }

  // ----- Snapshots -----

  lemma SnapshotOutcome(db: Db, k: Key, balance: real, asOf: Stamp, now: Time)
    requires Aligned(db)
    ensures var tx := SnapshotTx(db, k, balance, Some(asOf), now);
            var reserved := SumOpen(db.reservations, k);
            if k in db.balances && Before(asOf, db.balances[k].hcmSnapshotAt) then
              && tx == Committed(tx.change, SnapshotResult(k, db.balances[k], true, false, reserved))
              && Apply(db, tx.change) ==
                 db.(audit := db.audit + [BalanceLogged(SnapshotIgnoredStale, k, Some(db.balances[k]), db.balances[k], now)])
            else if balance < 0.0 then tx == RolledBack(ConstraintViolation)
            else
              var b := Balance(balance, asOf, now, if k in db.balances then db.balances[k].version + 1 else 1);
              var drift := balance < reserved as real;
              && tx == Committed(tx.change, SnapshotResult(k, b, false, drift, reserved))
              && Apply(db, tx.change) ==
                 db.(balances := db.balances[k := b.(hcmSnapshotAt := Kept(asOf))],
                     audit := db.audit + [BalanceLogged(if drift then SnapshotNegativeDrift else SnapshotApplied, k,
                                                        if k in db.balances then Some(db.balances[k]) else None, b, now)])
  {
    hide SumOpen, Before, Kept;
  }

  lemma UnreadableIsRefused(db: Db, k: Key, balance: real, now: Time)
    ensures SnapshotTx(db, k, balance, None, now) == RolledBack(ConstraintViolation)
  {
    hide SumOpen;
  }

  // ----- Outbox rows -----

  /** A failed attempt: the wait counts from now. */
  lemma RetryOutcome(c: Config, db: Db, r: nat, error: string, random: real, now: Time)
    requires Aligned(db) && r < |db.outbox| && Jitter(random)
    ensures var row := db.outbox[r];
            var db' := Apply(db, RetryChange(c, db.outbox, r, error, random, now));
            var tried := row.(attempts := row.attempts + 1, lastError := Some(error), updatedAt := now);
            && |db'.outbox| == |db.outbox|
            && if row.attempts + 1 >= c.maxAttempts then db' == db.(outbox := db.outbox[r := tried.(status := Dead)])
               else
                 var at := db'.outbox[r].nextAttemptAt;
                 && db' == db.(outbox := db.outbox[r := tried.(status := RowStatus.Pending, nextAttemptAt := at)])
                 && 0.7 * Base(row.attempts + 1) as real <= (at - now) as real < 1.3 * Base(row.attempts + 1) as real
  {
    hide Base, ComputeBackoffMs;
    WaitRange(db.outbox[r].attempts + 1, random);
  }

  lemma DoneOutcome(db: Db, r: nat, now: Time)
    requires Aligned(db) && r < |db.outbox|
    ensures Apply(db, Finish(r, now)) ==
            db.(outbox := db.outbox[r := db.outbox[r].(status := Done, updatedAt := now, lastError := None)])
  {
  }

  lemma ResetOutcome(db: Db, r: nat)
    requires Aligned(db) && r < |db.outbox|
    ensures Apply(db, Reset(r)) ==
            db.(outbox := db.outbox[r := db.outbox[r].(status := RowStatus.Pending, nextAttemptAt := 0, attempts := 0, lastError := None)])
  {
  }

  function IsDue(now: Time): OutboxRow -> int {
    (row: OutboxRow) => if row.status == RowStatus.Pending && row.nextAttemptAt <= now then 1 else 0
  }

  /** A row is claimed exactly when it is PENDING, its time has come, and fewer than the limit such rows have lower ids. */
  lemma ClaimedIff(o: seq<OutboxRow>, now: Time, limit: nat, r: nat)
    ensures r in DueRows(o, now, limit, 0) <==>
            && r < |o| && o[r].status == RowStatus.Pending && o[r].nextAttemptAt <= now
            && Sum(o[..r], IsDue(now)) < limit
  {
    ClaimedFrom(o, now, limit, 0, r);
  }

  lemma {:induction false} ClaimedFrom(o: seq<OutboxRow>, now: Time, limit: nat, from: nat, r: nat)
    requires from <= |o|
    ensures r in DueRows(o, now, limit, from) <==>
            && from <= r < |o| && o[r].status == RowStatus.Pending && o[r].nextAttemptAt <= now
            && Sum(o[from..r], IsDue(now)) < limit
    decreases |o| - from
  {
    if from < |o| && limit > 0 {
      if Due(o[from], now) {
        ClaimedFrom(o, now, limit - 1, from + 1, r);
      } else {
        ClaimedFrom(o, now, limit, from + 1, r);
      }
      if from < r < |o| {
        SumFirst(o[from..r], IsDue(now));
        assert o[from..r][1..] == o[from + 1..r];
      }
    } else if from <= r < |o| {
      DueNonNegative(o[from..r], now);
    }
  }

  lemma DueNonNegative(o: seq<OutboxRow>, now: Time)
    ensures Sum(o, IsDue(now)) >= 0
  {
    SumNonNegative(o, IsDue(now));
  }

  // ----- Ticks -----

  /** A tick that finds another one running changes nothing at all. */
  lemma TickWhileDraining(c: Config, s: Sys)
    requires Aligned(s.db) && !s.worker.Idle?
    ensures Next(c, s, Tick) == s
  {
  }

  // ----- HCM -----

  /** A known id is answered without a debit; a new one is debited if HCM holds the days, and otherwise nothing changes. */
  lemma ConsumeOutcome(h: Hcm, p: Payload)
    ensures var held := if p.key in h.balances then h.balances[p.key] else 0.0;
            Consume(h, p) ==
            if p.externalRequestId in h.consumed || held < p.days as real then h
            else Hcm(h.balances[p.key := held - p.days as real], h.consumed + {p.externalRequestId})
    ensures p.days >= 0 && (forall k :: k in h.balances ==> h.balances[k] >= 0.0) ==>
              forall k :: k in Consume(h, p).balances ==> Consume(h, p).balances[k] >= 0.0
  {
  }
}
