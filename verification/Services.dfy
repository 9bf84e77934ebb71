/** The services as the program writes them: each method commits exactly the write set of its transaction. */
module Services {
  import opened Types
  import opened Stamps
  import opened StateMachine
  import opened Rounding
  import opened Dates
  import opened Backoff
  import opened Tables
  import opened Ledger
  import opened Invariants
  import opened AuditTrail
  import opened Protocol
  import opened Filing
  import opened Reconciliation
  import opened Repositories

  function Returned<T>(tx: Tx<T>): Result<T, Error> {
    match tx
    case Committed(_, value) => Success(value)
    case RolledBack(error) => Failure(error)
  }

  // ----- hcm-outbox.service.js -----

  class HcmOutboxService {
    const db: Database
    const clock: Clock
    const c: Config

    constructor (db: Database, clock: Clock, c: Config)
      ensures this.db == db && this.clock == clock && this.c == c
    {
      this.db, this.clock, this.c := db, clock, c;
    }

    method Enqueue(requestId: Id, payload: Payload, now: Time)
      modifies db`outbox
      ensures db.outbox == old(db.outbox) + [OutboxRow(requestId, payload, 0, now, RowStatus.Pending, None, now, now)]
      ensures LastRow(db.outbox, requestId) == Some(|old(db.outbox)|) && Due(db.outbox[|old(db.outbox)|], now)
      ensures forall id :: id != requestId ==> LastRow(db.outbox, id) == LastRow(old(db.outbox), id)
    {
      ghost var o := db.outbox + [OutboxRow(requestId, payload, 0, now, RowStatus.Pending, None, now, now)];
      assert o[..|o| - 1] == db.outbox;
      db.outbox := db.outbox + [OutboxRow(requestId, payload, 0, now, RowStatus.Pending, None, now, now)];
    }

    method ClaimDue() returns (rows: seq<Claimed>)
      requires Aligned(db.State())
      modifies db`outbox
      ensures var ids := DueRows(old(db.outbox), clock.time, c.batchSize, 0);
              && db.State() == Apply(old(db.State()), Claim(ids, clock.time))
              && rows == ClaimedRows(old(db.outbox), ids)
    {
      var ids := DueRows(db.outbox, clock.time, c.batchSize, 0);
      rows := ClaimedRows(db.outbox, ids);
      if |rows| == 0 {
        assert ClaimRows(db.outbox, ids, clock.time) == db.outbox;
        return;
      }
      db.outbox := ClaimRows(db.outbox, ids, clock.time);
    }

    method MarkDone(id: nat)
      requires Aligned(db.State())
      modifies db`outbox
      ensures db.State() == Apply(old(db.State()), Finish(id, clock.time))
    {
      if id < |db.outbox| {
        db.outbox := db.outbox[id := db.outbox[id].(status := Done, updatedAt := clock.time, lastError := None)];
      }
    }

    method ScheduleRetry(id: nat, error: string, random: real)
      requires Aligned(db.State())
      modifies db`outbox
      ensures db.State() == Apply(old(db.State()), RetryChange(c, old(db.outbox), id, error, random, clock.time))
    {
      var now := clock.time;
      if id >= |db.outbox| { return; }
      var row := db.outbox[id];
      var nextAttempts := row.attempts + 1;
      if nextAttempts >= c.maxAttempts {
        db.outbox := db.outbox[id := row.(status := Dead, attempts := nextAttempts, updatedAt := now, lastError := Some(error))];
        return;
      }
      var backoff := ComputeBackoffMs(nextAttempts, random);
      db.outbox := db.outbox[id := row.(status := RowStatus.Pending, attempts := nextAttempts, updatedAt := now,
                                        nextAttemptAt := now + backoff, lastError := Some(error))];
    }

    method ResetToPending(id: nat)
      requires Aligned(db.State())
      modifies db`outbox
      ensures db.State() == Apply(old(db.State()), Reset(id))
    {
      if id < |db.outbox| {
        db.outbox := db.outbox[id := db.outbox[id].(status := RowStatus.Pending, nextAttemptAt := 0, attempts := 0,
                                                    lastError := None)];
      }
    }
  }

  // ----- time-off.service.js -----

  class TimeOffService {
    const db: Database
    const repo: TimeOffRepository
    const balancesRepo: BalancesRepository
    const audit: AuditService
    const clock: Clock
    const outbox: HcmOutboxService

    constructor (db: Database, clock: Clock, outbox: HcmOutboxService)
      requires outbox.db == db
      ensures this.db == db && this.clock == clock && this.outbox == outbox && Wired()
    {
      var r := new TimeOffRepository(db);
      var b := new BalancesRepository(db);
      var a := new AuditService(db);
      this.db, this.clock, this.outbox := db, clock, outbox;
      this.repo, this.balancesRepo, this.audit := r, b, a;
    }

    ghost predicate Wired() {
      repo.db == db && balancesRepo.db == db && audit.db == db && outbox.db == db
    }

    /** id and corr are the ids drawn at random. */
    method CreateRequest(actor: Actor, input: Input, id: Id, corr: Id) returns (r: Result<Created, Error>)
      requires Wired() && Coupled(db.State())
      modifies db`requests, db`reservations, db`audit
      ensures var tx := CreateTx(old(db.State()), actor, input, id, corr, clock.time);
              r == Returned(tx) && db.State() == Apply(old(db.State()), ChangeOf(tx))
      ensures Coupled(db.State())
    {
      hide CountDaysInclusive, Coupled, Round, SumOpen;
      CreateKeepsCoupled(outbox.c, db.State(), actor, input, id, corr, clock.time);
      var days := CountDaysInclusive(input.startDate, input.endDate);
      if days.Failure? { return Failure(days.error); }
      var now := clock.time;
      var key := Key(actor.sub, input.locationId, input.leaveType);
      var bal := balancesRepo.FindBalance(key);
      if bal.None? { return Failure(BalanceNotFound(key)); }
      var reserved := balancesRepo.SumOpenReservations(key);
      var effective := Round(bal.value.hcmBalance - reserved as real);
      if effective < days.value as real { return Failure(InsufficientBalance(effective, days.value)); }
      var row := Request(id, key, actor.managerId, input.startDate, input.endDate, days.value, input.reason,
                         RequestState.Pending, now, now, corr, None, None, None, None);
      var ok := repo.Insert(row);
      if !ok { return Failure(ConstraintViolation); }
      balancesRepo.InsertReservation(id, key, days.value, now);
      audit.LogInTx(RequestLogged(User(actor.sub), RequestCreated, id, None, row, now));
      r := Success(Created(row, Round(effective - days.value as real)));
    }

    method Approve(actor: Actor, requestId: Id, newExt: Id) returns (r: Result<Request, Error>)
      requires Wired() && Coupled(db.State()) && DistinctExternals(db.requests)
      modifies db`requests, db`outbox, db`audit
      ensures var tx := ApproveTx(old(db.State()), actor, requestId, newExt, clock.time);
              r == Returned(tx) && db.State() == Apply(old(db.State()), ChangeOf(tx))
      ensures Coupled(db.State()) && DistinctExternals(db.requests)
    {
      hide Coupled, DistinctIds, DistinctExternals, ExternalIdTaken, ExternalClash, CanTransition, AuthorizeManager, Apply, Settled,
           FindRequest, LastLogged, LastBalance, LastRow, Due;
      ghost var was := db.State();
      UserMoveKeepsCoupled(outbox.c, was, actor, requestId, newExt, None, clock.time);
      ApprovalKeepsExternals(outbox.c, was, actor, requestId, newExt, clock.time);
      NothingWritten(was);
      var now := clock.time;
      var before := repo.FindByIdOrThrow(requestId);
      if before.Failure? { return Failure(before.error); }
      if !AuthorizeManager(actor, before.value) { return Failure(Forbidden); }
      if !CanTransition(before.value.state, Approved) { return Failure(InvalidTransition(before.value.state, Approved)); }
      var externalRequestId := Coalesce(before.value.externalRequestId, Some(newExt));
      var patch := Patch(Some(actor.sub), Some(now), externalRequestId, None);
      ghost var i := FindRequest(was.requests, requestId).value;
      MoveWrites(was, i, Approved, patch, User(actor.sub), now);
      ApprovalClash(was.requests, i, newExt);
      var ok := repo.UpdateState(requestId, before.value.state, Approved, now, patch);
      if ok.Failure? { return Failure(ok.error); }
      // The row cannot have left its state within the transaction: CONCURRENT_UPDATE is never raised.
      assert ok.value;
      outbox.Enqueue(requestId, PayloadFor(before.value.(externalRequestId := externalRequestId)), now);
      FoundAfter(was, db.requests, i, db.requests[i]);
      var after := repo.FindByIdOrThrow(requestId);
      KeptOpen(was, i, Approved, now);
      audit.LogInTx(RequestLogged(User(actor.sub), RequestApproved, requestId, Some(before.value), after.value, now));
      r := after;
    }

    method Reject(actor: Actor, requestId: Id, reason: Option<string>) returns (r: Result<Request, Error>)
      requires Wired() && Coupled(db.State())
      modifies db`requests, db`reservations, db`audit
      ensures var tx := RejectTx(old(db.State()), actor, requestId, reason, clock.time);
              r == Returned(tx) && db.State() == Apply(old(db.State()), ChangeOf(tx))
      ensures Coupled(db.State())
    {
      hide Coupled, DistinctIds, CanTransition, AuthorizeManager, Apply, Moved, Settled, Closed, ClosedFor,
           FindRequest, LastLogged, LastBalance, LastRow, Due;
      ghost var was := db.State();
      UserMoveKeepsCoupled(outbox.c, was, actor, requestId, requestId, reason, clock.time);
      NothingWritten(was);
      var now := clock.time;
      var before := repo.FindByIdOrThrow(requestId);
      if before.Failure? { return Failure(before.error); }
      if !AuthorizeManager(actor, before.value) { return Failure(Forbidden); }
      if !CanTransition(before.value.state, Rejected) { return Failure(InvalidTransition(before.value.state, Rejected)); }
      ghost var i := FindRequest(was.requests, requestId).value;
      MoveWrites(was, i, Rejected, Patch(Some(actor.sub), None, None, reason), User(actor.sub), now);
      var _ := repo.UpdateState(requestId, before.value.state, Rejected, now, Patch(Some(actor.sub), None, None, reason));
      ClosedIsOneRow(was, i, Rejected, now);
      balancesRepo.ReleaseReservation(requestId, now);
      FoundAfter(was, db.requests, i, db.requests[i]);
      var after := repo.FindByIdOrThrow(requestId);
      audit.LogInTx(RequestLogged(User(actor.sub), RequestRejected, requestId, Some(before.value), after.value, now));
      r := after;
    }

    method Cancel(actor: Actor, requestId: Id) returns (r: Result<Request, Error>)
      requires Wired() && Coupled(db.State())
      modifies db`requests, db`reservations, db`audit
      ensures var tx := CancelTx(old(db.State()), actor, requestId, clock.time);
              r == Returned(tx) && db.State() == Apply(old(db.State()), ChangeOf(tx))
      ensures Coupled(db.State())
    {
      hide Coupled, DistinctIds, CanTransition, Apply, Moved, Settled, Closed, ClosedFor,
           FindRequest, LastLogged, LastBalance, LastRow, Due;
      ghost var was := db.State();
      UserMoveKeepsCoupled(outbox.c, was, actor, requestId, requestId, None, clock.time);
      NothingWritten(was);
      var now := clock.time;
      var before := repo.FindByIdOrThrow(requestId);
      if before.Failure? { return Failure(before.error); }
      var isOwner := before.value.key.employeeId == actor.sub;
      var isAdmin := Admin in actor.roles;
      if !isOwner && !isAdmin { return Failure(Forbidden); }
      if !CanTransition(before.value.state, Cancelled) { return Failure(InvalidTransition(before.value.state, Cancelled)); }
      ghost var i := FindRequest(was.requests, requestId).value;
      MoveWrites(was, i, Cancelled, NO_PATCH, User(actor.sub), now);
      var _ := repo.UpdateState(requestId, before.value.state, Cancelled, now, NO_PATCH);
      ClosedIsOneRow(was, i, Cancelled, now);
      balancesRepo.ReleaseReservation(requestId, now);
      FoundAfter(was, db.requests, i, db.requests[i]);
      var after := repo.FindByIdOrThrow(requestId);
      audit.LogInTx(RequestLogged(User(actor.sub), RequestCancelled, requestId, Some(before.value), after.value, now));
      r := after;
    }

    method MarkConsumed(requestId: Id) returns (r: Result<Request, Error>)
      requires Wired() && Coupled(db.State())
      modifies db`requests, db`reservations, db`audit
      ensures var tx := MarkTx(old(db.State()), requestId, RequestState.Consumed, None, clock.time);
              r == Returned(tx) && db.State() == Apply(old(db.State()), ChangeOf(tx))
      ensures Coupled(db.State())
    {
      hide Coupled, DistinctIds, CanTransition, Apply, Moved, Settled, Closed, ClosedFor,
           FindRequest, LastLogged, LastBalance, LastRow, Due;
      ghost var was := db.State();
      MarkKeepsCoupled(outbox.c, was, requestId, RequestState.Consumed, None, clock.time);
      NothingWritten(was);
      var now := clock.time;
      var before := repo.FindByIdOrThrow(requestId);
      if before.Failure? { return Failure(before.error); }
      if before.value.state == RequestState.Consumed { return before; }
      if !CanTransition(before.value.state, RequestState.Consumed) {
        return Failure(InvalidTransition(before.value.state, RequestState.Consumed));
      }
      ghost var i := FindRequest(was.requests, requestId).value;
      MoveWrites(was, i, RequestState.Consumed, NO_PATCH, System, now);
      var _ := repo.UpdateState(requestId, before.value.state, RequestState.Consumed, now, NO_PATCH);
      ClosedIsOneRow(was, i, RequestState.Consumed, now);
      balancesRepo.ConsumeReservation(requestId, now);
      FoundAfter(was, db.requests, i, db.requests[i]);
      var after := repo.FindByIdOrThrow(requestId);
      audit.LogInTx(RequestLogged(System, RequestConsumed, requestId, Some(before.value), after.value, now));
      r := after;
    }

    method MarkHcmFailed(requestId: Id, errorMessage: string) returns (r: Result<Request, Error>)
      requires Wired() && Coupled(db.State())
      modifies db`requests, db`reservations, db`audit
      ensures var tx := MarkTx(old(db.State()), requestId, HcmFailed, Some(errorMessage), clock.time);
              r == Returned(tx) && db.State() == Apply(old(db.State()), ChangeOf(tx))
      ensures Coupled(db.State())
    {
      hide Coupled, DistinctIds, CanTransition, Apply, Moved, Settled, Closed, ClosedFor,
           FindRequest, LastLogged, LastBalance, LastRow, Due;
      ghost var was := db.State();
      MarkKeepsCoupled(outbox.c, was, requestId, HcmFailed, Some(errorMessage), clock.time);
      NothingWritten(was);
      var now := clock.time;
      var before := repo.FindByIdOrThrow(requestId);
      if before.Failure? { return Failure(before.error); }
      if before.value.state == HcmFailed { return before; }
      if !CanTransition(before.value.state, HcmFailed) {
        return Failure(InvalidTransition(before.value.state, HcmFailed));
      }
      ghost var i := FindRequest(was.requests, requestId).value;
      MoveWrites(was, i, HcmFailed, Patch(None, None, None, Some(errorMessage)), System, now);
      var _ := repo.UpdateState(requestId, before.value.state, HcmFailed, now, Patch(None, None, None, Some(errorMessage)));
      ClosedIsOneRow(was, i, HcmFailed, now);
      balancesRepo.ReleaseReservation(requestId, now);
      FoundAfter(was, db.requests, i, db.requests[i]);
      var after := repo.FindByIdOrThrow(requestId);
      audit.LogInTx(RequestLogged(System, RequestHcmFailed, requestId, Some(before.value), after.value, now));
      r := after;
    }

    method MarkReviewRequired(requestId: Id, reason: string) returns (r: Result<Request, Error>)
      requires Wired() && Coupled(db.State())
      modifies db`requests, db`audit
      ensures var tx := MarkTx(old(db.State()), requestId, ReviewRequired, Some(reason), clock.time);
              r == Returned(tx) && db.State() == Apply(old(db.State()), ChangeOf(tx))
      ensures Coupled(db.State())
    {
      hide Coupled, DistinctIds, CanTransition, Apply, Moved, Settled, Closed, ClosedFor,
           FindRequest, LastLogged, LastBalance, LastRow, Due;
      ghost var was := db.State();
      MarkKeepsCoupled(outbox.c, was, requestId, ReviewRequired, Some(reason), clock.time);
      NothingWritten(was);
      var now := clock.time;
      var before := repo.FindByIdOrThrow(requestId);
      if before.Failure? { return Failure(before.error); }
      if before.value.state == ReviewRequired { return before; }
      if !CanTransition(before.value.state, ReviewRequired) {
        return Failure(InvalidTransition(before.value.state, ReviewRequired));
      }
      ghost var i := FindRequest(was.requests, requestId).value;
      MoveWrites(was, i, ReviewRequired, Patch(None, None, None, Some(reason)), System, now);
      var _ := repo.UpdateState(requestId, before.value.state, ReviewRequired, now, Patch(None, None, None, Some(reason)));
      KeptOpen(was, i, ReviewRequired, now);
      FoundAfter(was, db.requests, i, db.requests[i]);
      var after := repo.FindByIdOrThrow(requestId);
      audit.LogInTx(RequestLogged(System, RequestReviewRequired, requestId, Some(before.value), after.value, now));
      r := after;
    }
  }

  /** What a move writes, table by table. */
  lemma MoveWrites(db: Db, i: nat, to: RequestState, p: Patch, actor: AuditActor, now: Time)
    requires Aligned(db) && i < |db.requests|
    ensures var q' := Moved(db.requests[i], to, p, now);
            Apply(db, Move(i, to, p, actor, now)) ==
            db.(requests := db.requests[i := q'],
                reservations := db.reservations[i := Settled(db.reservations[i], to, now)],
                outbox := if to == Approved && q'.externalRequestId.Some? then db.outbox + [NewRow(q', now)] else db.outbox,
                audit := db.audit + [RequestLogged(actor, ActionFor(to), db.requests[i].id, Some(db.requests[i]), q', now)])
    ensures Moved(db.requests[i], to, p, now).id == db.requests[i].id
  {
  }

  /** The moves users and the worker make keep the ledger coupled. */
  lemma UserMoveKeepsCoupled(c: Config, db: Db, actor: Actor, id: Id, newExt: Id, reason: Option<string>, now: Time)
    requires Coupled(db)
    ensures Aligned(db) && DistinctIds(db.requests)
    ensures Coupled(Apply(db, ChangeOf(ApproveTx(db, actor, id, newExt, now))))
    ensures Coupled(Apply(db, ChangeOf(RejectTx(db, actor, id, reason, now))))
    ensures Coupled(Apply(db, ChangeOf(CancelTx(db, actor, id, now))))
  {
    UserMovesAllowed(c, db, actor, id, newExt, reason, now);
    hide Allowed, ApproveTx, RejectTx, CancelTx;
    CoupledKept(c, db, ChangeOf(ApproveTx(db, actor, id, newExt, now)));
    CoupledKept(c, db, ChangeOf(RejectTx(db, actor, id, reason, now)));
    CoupledKept(c, db, ChangeOf(CancelTx(db, actor, id, now)));
  }

  lemma ApprovalKeepsExternals(c: Config, db: Db, actor: Actor, id: Id, newExt: Id, now: Time)
    requires Coupled(db) && DistinctExternals(db.requests)
    ensures DistinctExternals(Apply(db, ChangeOf(ApproveTx(db, actor, id, newExt, now))).requests)
  {
    UserMovesAllowed(c, db, actor, id, newExt, None, now);
    DistinctExternalsKept(c, db, ChangeOf(ApproveTx(db, actor, id, newExt, now)));
  }

  lemma MarkKeepsCoupled(c: Config, db: Db, id: Id, to: RequestState, error: Option<string>, now: Time)
    requires Coupled(db) && to != Approved
    ensures Aligned(db) && DistinctIds(db.requests)
    ensures Coupled(Apply(db, ChangeOf(MarkTx(db, id, to, error, now))))
  {
    MarkAllowed(c, db, id, to, error, now);
    CoupledKept(c, db, ChangeOf(MarkTx(db, id, to, error, now)));
  }

  /** Ids read in a transaction still name the same rows after its updates. */
  lemma FoundAfter(db: Db, rs': seq<Request>, i: nat, q: Request)
    requires Coupled(db) && i < |db.requests| && q.id == db.requests[i].id && rs' == db.requests[i := q]
    ensures FindRequest(rs', q.id) == Some(i)
  {
    FindKept(db.requests, rs', q.id);
  }

  lemma CreateKeepsCoupled(c: Config, db: Db, actor: Actor, input: Input, id: Id, corr: Id, now: Time)
    requires Coupled(db)
    ensures Coupled(Apply(db, ChangeOf(CreateTx(db, actor, input, id, corr, now)))) && Aligned(db)
  {
    CreateAllowed(c, db, actor, input, id, corr, now);
    CoupledKept(c, db, ChangeOf(CreateTx(db, actor, input, id, corr, now)));
  }

  /** States that still hold days leave the reservation as it is. */
  lemma KeptOpen(db: Db, i: nat, to: RequestState, now: Time)
    requires Coupled(db) && i < |db.requests| && Held(to).Open?
    ensures db.reservations[i := Settled(db.reservations[i], to, now)] == db.reservations
  {
  }

  /** An approval's external id clashes exactly when a new one has to be used and is taken. */
  lemma ApprovalClash(rs: seq<Request>, i: nat, newExt: Id)
    requires i < |rs| && DistinctExternals(rs)
    ensures ExternalClash(rs, i, Coalesce(rs[i].externalRequestId, Some(newExt))) <==>
            rs[i].externalRequestId.None? && ExternalIdTaken(rs, newExt)
  {
  }

  // ----- balances.service.js -----

  class BalancesService {
    const db: Database
    const repo: BalancesRepository
    const audit: AuditService
    const clock: Clock

    constructor (db: Database, clock: Clock)
      ensures this.db == db && this.clock == clock && Wired()
    {
      var b := new BalancesRepository(db);
      var a := new AuditService(db);
      this.db, this.clock := db, clock;
      this.repo, this.audit := b, a;
    }

    ghost predicate Wired() { repo.db == db && audit.db == db }

    method GetEffectiveBalance(k: Key) returns (r: Result<real, Error>)
      requires Wired()
      ensures r == if k in db.balances then Success(Effective(db.State(), k)) else Failure(BalanceNotFound(k))
      ensures k in db.balances ==>
                var left := db.balances[k].hcmBalance - SumOpen(db.reservations, k) as real;
                r.value - 0.005 <= left < r.value + 0.005 && (r.value * 100.0).Floor as real == r.value * 100.0
    {
      hide Round, SumOpen;
      if k in db.balances { RoundIsNearest(db.balances[k].hcmBalance - SumOpen(db.reservations, k) as real); }
      var bal := repo.FindBalance(k);
      if bal.None? { return Failure(BalanceNotFound(k)); }
      var reserved := repo.SumOpenReservations(k);
      r := Success(Round(bal.value.hcmBalance - reserved as real));
    }

    method ApplyHcmBalanceSnapshot(k: Key, balance: real, asOf: Option<Stamp>) returns (r: Result<SnapshotResult, Error>)
      requires Wired() && Coupled(db.State())
      modifies db`balances, db`audit
      ensures var tx := SnapshotTx(old(db.State()), k, balance, asOf, clock.time);
              r == Returned(tx) && db.State() == Apply(old(db.State()), ChangeOf(tx))
      ensures Coupled(db.State())
    {
      hide SumOpen;
      var now := clock.time;
      var before := repo.FindBalance(k);
      var updated := repo.UpsertBalance(k, balance, asOf, now);
      if updated.Failure? { return Failure(updated.error); }
      var ignored := before.Some? && asOf.Some? && Before(asOf.value, before.value.hcmSnapshotAt);
      var reserved := repo.SumOpenReservations(k);
      var negativeDrift := !ignored && balance < reserved as real;
      var action := if ignored then SnapshotIgnoredStale
                    else if negativeDrift then SnapshotNegativeDrift else SnapshotApplied;
      audit.LogInTx(BalanceLogged(action, k, before, updated.value, now));
      r := Success(SnapshotResult(k, updated.value, ignored, negativeDrift, reserved));
    }
  }

  // ----- reconciliation.service.js -----

  class ReconciliationService {
    const db: Database
    const balances: BalancesService
    const timeOff: TimeOffService
    const clock: Clock

    constructor (balances: BalancesService, timeOff: TimeOffService)
      requires balances.Wired() && timeOff.Wired() && balances.db == timeOff.db && balances.clock == timeOff.clock
      ensures this.balances == balances && this.timeOff == timeOff && Wired()
    {
      this.db, this.clock := balances.db, balances.clock;
      this.balances, this.timeOff := balances, timeOff;
    }

    ghost predicate Wired() {
      && balances.Wired() && timeOff.Wired()
      && balances.db == db && timeOff.db == db && balances.clock == clock && timeOff.clock == clock
    }

    method EscalateAffectedRequests(k: Key)
      requires Wired() && Coupled(db.State())
      modifies db`requests, db`audit
      ensures db.State() == EscalateAll(old(db.State()), ApprovedIds(old(db.requests), k), clock.time)
      ensures Coupled(db.State())
    {
      ghost var was := db.State();
      var ids := timeOff.repo.ListApprovedIdsForKey(k);
      var n := 0;
      while n < |ids|
        invariant 0 <= n <= |ids|
        invariant Coupled(db.State())
        invariant db.State() == EscalateAll(was, ids[..n], clock.time)
      {
        assert ids[..n + 1][..n] == ids[..n];
        var _ := timeOff.MarkReviewRequired(ids[n], REASON);
        n := n + 1;
      }
      assert ids[..n] == ids;
    }

    method HandleBatch(rows: seq<BatchRow>, asOf: BatchTime) returns (r: Result<seq<Applied>, Error>)
      requires Wired() && Coupled(db.State())
      modifies db`requests, db`balances, db`audit
      ensures var b := Batch(old(db.State()), rows, asOf, clock.time);
              && db.State() == b.db
              && r == if b.error.Some? then Failure(b.error.value) else Success(b.applied)
      ensures Coupled(db.State())
    {
      hide Coupled, SnapshotTx, EscalateAll, ApprovedIds, AsOf;
      ghost var was := db.State();
      var applied: seq<Applied> := [];
      var n := 0;
      while n < |rows|
        invariant 0 <= n <= |rows|
        invariant Coupled(db.State()) && Aligned(was) && Aligned(db.State())
        invariant Batch(was, rows[..n], asOf, clock.time) == BatchResult(db.State(), applied, None)
      {
        var b := rows[n];
        assert rows[..n + 1][..n] == rows[..n];
        ghost var before := BatchResult(db.State(), applied, None);
        var t := AsOf(b, asOf, clock.time);
        var x := balances.ApplyHcmBalanceSnapshot(b.key, b.balance, t);
        if x.Failure? {
          assert Batch(was, rows[..n + 1], asOf, clock.time) == before.(error := Some(x.error));
          ErrorStops(was, rows, n + 1, asOf, clock.time);
          return Failure(x.error);
        }
        if x.value.negativeDrift {
          EscalateAffectedRequests(b.key);
        }
        applied := applied + [Applied(b.key, x.value.ignored, x.value.negativeDrift)];
        n := n + 1;
      }
      assert rows[..n] == rows;
      r := Success(applied);
    }

    /** reconcileKey: snapshot is HCM's answer, or None when the call failed and the key is skipped. */
    method ReconcileKey(k: Key, snapshot: Option<Arrived>) returns (r: Result<Option<SnapshotResult>, Error>)
      requires Wired() && Coupled(db.State())
      modifies db`requests, db`balances, db`audit
      ensures snapshot.None? ==> r == Success(None) && db.State() == old(db.State())
      ensures snapshot.Some? ==>
                var b := Batch(old(db.State()), [BatchRow(k, snapshot.value.balance, snapshot.value.asOf)], Absent, clock.time);
                && db.State() == b.db
                && r == match Returned(SnapshotTx(old(db.State()), k, snapshot.value.balance,
                                                  AsOf(BatchRow(k, snapshot.value.balance, snapshot.value.asOf), Absent, clock.time),
                                                  clock.time)) {
                     case Success(v) => Success(Some(v))
                     case Failure(e) => Failure(e)
                   }
      ensures Coupled(db.State())
    {
      if snapshot.None? { return Success(None); }
      ghost var row := BatchRow(k, snapshot.value.balance, snapshot.value.asOf);
      assert [row][..0] == [];
      var asOf := if snapshot.value.asOf.Some? then snapshot.value.asOf else Some(Ms(clock.time));
      ghost var was := db.State();
      assert Batch(was, [row], Absent, clock.time) == Reconciliation.Row(BatchResult(was, [], None), row, Absent, clock.time);
      var x := balances.ApplyHcmBalanceSnapshot(k, snapshot.value.balance, asOf);
      if x.Failure? { return Failure(x.error); }
      if x.value.negativeDrift {
        EscalateAffectedRequests(k);
      }
      r := Success(Some(x.value));
    }
  }

  /** HCM's answer to a pull. */
  datatype Arrived = Arrived(balance: real, asOf: Option<Stamp>)

  lemma {:induction false} ErrorStops(db: Db, rows: seq<BatchRow>, n: nat, asOf: BatchTime, now: Time)
    requires Aligned(db) && n <= |rows| && Batch(db, rows[..n], asOf, now).error.Some?
    ensures Batch(db, rows, asOf, now) == Batch(db, rows[..n], asOf, now)
    decreases |rows|
  {
    if n == |rows| {
      assert rows[..n] == rows;
    } else {
      assert rows[..|rows| - 1][..n] == rows[..n];
      ErrorStops(db, rows[..|rows| - 1], n, asOf, now);
    }
  }

  // ----- idempotency.service.js and time-off.controller.js -----

  class IdempotencyService {
    const db: Database
    const clock: Clock

    constructor (db: Database, clock: Clock)
      ensures this.db == db && this.clock == clock
    {
      this.db, this.clock := db, clock;
    }

    method Lookup(key: string, endpoint: string, actorId: Id) returns (r: Option<Created>)
      modifies db`idempotencyKeys
      ensures var ik := IdemKey(key, endpoint, actorId);
              var hit := IdemLookup(old(db.idempotencyKeys), ik, clock.time);
              && r == (if hit.Some? then Some(hit.value.response) else None)
              && db.idempotencyKeys == IdemPurged(old(db.idempotencyKeys), ik, clock.time)
              && if key != "" && ik in old(db.idempotencyKeys) && old(db.idempotencyKeys)[ik].expiresAt < clock.time
                 then r.None? && db.idempotencyKeys == old(db.idempotencyKeys) - {ik}
                 else db.idempotencyKeys == old(db.idempotencyKeys)
    {
      if key == "" { return None; }
      var ik := IdemKey(key, endpoint, actorId);
      if ik !in db.idempotencyKeys { return None; }
      var row := db.idempotencyKeys[ik];
      if row.expiresAt < clock.time {
        db.idempotencyKeys := db.idempotencyKeys - {ik};
        return None;
      }
      r := Some(row.response);
    }

    method Store(key: string, endpoint: string, actorId: Id, response: Created)
      modifies db`idempotencyKeys
      ensures db.idempotencyKeys == IdemStored(old(db.idempotencyKeys), IdemKey(key, endpoint, actorId), response, clock.time)
      ensures db.idempotencyKeys ==
              if key == "" then old(db.idempotencyKeys)
              else old(db.idempotencyKeys)[IdemKey(key, endpoint, actorId) := IdemRow(response, clock.time + 24 * 60 * 60 * 1000)]
    {
      if key == "" { return; }
      db.idempotencyKeys := db.idempotencyKeys[IdemKey(key, endpoint, actorId) := IdemRow(response, clock.time + TTL_MS)];
    }
  }

  class TimeOffController {
    const timeOff: TimeOffService
    const idem: IdempotencyService

    constructor (timeOff: TimeOffService, idem: IdempotencyService)
      requires timeOff.Wired() && idem.db == timeOff.db && idem.clock == timeOff.clock
      ensures this.timeOff == timeOff && this.idem == idem && Wired()
    {
      this.timeOff, this.idem := timeOff, idem;
    }

    ghost predicate Wired() {
      timeOff.Wired() && idem.db == timeOff.db && idem.clock == timeOff.clock
    }

    /** The part of the system the handler sees. */
    ghost function View(): Sys
      reads timeOff.db, timeOff.clock
    {
      Sys(timeOff.db.State(), timeOff.clock.time, timeOff.db.idempotencyKeys, Idle, [], Hcm(map[], {}))
    }

    method Create(actor: Actor, body: Input, idemKey: string, id: Id, corr: Id) returns (r: Result<Created, Error>)
      requires Wired() && Coupled(timeOff.db.State())
      modifies timeOff.db`requests, timeOff.db`reservations, timeOff.db`audit, timeOff.db`idempotencyKeys
      ensures var e := Post(actor, idemKey, body, id, corr, false);
              r == Response(old(View()), e) && View() == Next(timeOff.outbox.c, old(View()), e)
      ensures Coupled(timeOff.db.State())
    {
      hide CreateTx, Coupled;
      var cached := idem.Lookup(idemKey, ENDPOINT, actor.sub);
      if cached.Some? { return Success(cached.value); }
      var created := timeOff.CreateRequest(actor, body, id, corr);
      if created.Failure? { return created; }
      idem.Store(idemKey, ENDPOINT, actor.sub, created.value);
      r := created;
    }
  }
}
