/** The database, and the statements the services run on it. */
module Repositories {
  import opened Types
  import opened Sums
  import opened Stamps
  import opened StateMachine
  import opened Tables
  import opened Ledger
  import opened Invariants
  import opened AuditTrail
  import opened Protocol

  class Clock {
    var time: Time

    constructor (start: Time)
      ensures time == start
    {
      time := start;
    }
  }

  class Database {
    var balances: map<Key, Balance>
    var requests: seq<Request>
    var reservations: seq<Reservation>
    var outbox: seq<OutboxRow>
    var audit: seq<AuditRow>
    var idempotencyKeys: map<IdemKey, IdemRow>

    constructor ()
      ensures State() == EMPTY && idempotencyKeys == map[]
    {
      balances, requests, reservations, outbox, audit := map[], [], [], [], [];
      idempotencyKeys := map[];
    }

    function State(): Db
      reads this
    {
      Db(balances, requests, reservations, outbox, audit)
    }
  }

  // ----- UPDATE ... WHERE, row by row -----

  function Stated(rs: seq<Request>, id: Id, from: RequestState, to: RequestState, p: Patch, now: Time): (rs': seq<Request>)
    ensures |rs'| == |rs|
  {
    seq(|rs|, (i: int) requires 0 <= i < |rs| =>
      if rs[i].id == id && rs[i].state == from then Moved(rs[i], to, p, now) else rs[i])
  }

  function IsInState(id: Id, s: RequestState): Request -> int {
    (q: Request) => if q.id == id && q.state == s then 1 else 0
  }

  function Closed(vs: seq<Reservation>, id: Id, to: ReservationState, now: Time): (vs': seq<Reservation>)
    ensures |vs'| == |vs|
  {
    seq(|vs|, (i: int) requires 0 <= i < |vs| =>
      if vs[i].requestId == id && vs[i].state.Open? then vs[i].(state := to, updatedAt := now) else vs[i])
  }

  /** The request holds no days any more; its open reservations entered the state, and every other reservation is as it was. */
  ghost predicate ClosedFor(vs: seq<Reservation>, vs': seq<Reservation>, id: Id, to: ReservationState, now: Time) {
    && |vs'| == |vs|
    && (forall i :: 0 <= i < |vs| && vs'[i].requestId == id ==> !vs'[i].state.Open?)
    && (forall i :: 0 <= i < |vs| && (vs[i].requestId != id || !vs[i].state.Open?) ==> vs'[i] == vs[i])
    && (forall i :: 0 <= i < |vs| && vs[i].requestId == id && vs[i].state.Open? ==>
          vs'[i].state == to && vs'[i].updatedAt == now && vs'[i].days == vs[i].days && vs'[i].key == vs[i].key)
  }

  /** The rows matched by a primary key and a state are at most one. */
  lemma OneRowMatches(rs: seq<Request>, i: nat, from: RequestState)
    requires DistinctIds(rs) && i < |rs|
    ensures Sum(rs, IsInState(rs[i].id, from)) == if rs[i].state == from then 1 else 0
  {
    var w := IsInState(rs[i].id, from);
    var none := (q: Request) => 0;
    forall j | 0 <= j < |rs| && j != i ensures none(rs[j]) == w(rs[j]) {
      assert rs[j].id != rs[i].id;
    }
    SumExcept(rs, rs, none, w, i);
    SumZero(rs, none);
  }

  lemma StatedIsOneRow(rs: seq<Request>, i: nat, from: RequestState, to: RequestState, p: Patch, now: Time)
    requires DistinctIds(rs) && i < |rs|
    ensures Stated(rs, rs[i].id, from, to, p, now) ==
            if rs[i].state == from then rs[i := Moved(rs[i], to, p, now)] else rs
  {
    hide Moved;
    forall j | 0 <= j < |rs| ensures rs[j].id == rs[i].id <==> j == i {
    }
  }

  /** Closing by request id touches the one reservation of that request, if it is open. */
  lemma ClosedIsOneRow(db: Db, i: nat, to: RequestState, now: Time)
    requires Coupled(db) && i < |db.requests| && !Held(to).Open?
    ensures Closed(db.reservations, db.requests[i].id, Held(to), now) ==
            db.reservations[i := Settled(db.reservations[i], to, now)]
  {
    var vs := db.reservations;
    forall j | 0 <= j < |vs| ensures vs[j].requestId == db.requests[i].id <==> j == i {
      assert Matches(db.requests[j], vs[j]) && Matches(db.requests[i], vs[i]);
    }
  }

  /** Some approved request of the key has this id. */
  ghost predicate IsApprovedOf(rs: seq<Request>, k: Key, id: Id) {
    exists i :: 0 <= i < |rs| && rs[i].id == id && rs[i].key == k && rs[i].state == Approved
  }

  lemma {:induction false} ApprovedIdsAreApproved(rs: seq<Request>, k: Key)
    ensures forall id :: id in ApprovedIds(rs, k) <==> IsApprovedOf(rs, k, id)
  {
    if |rs| > 0 {
      var most, q := rs[..|rs| - 1], rs[|rs| - 1];
      ApprovedIdsAreApproved(most, k);
      forall id ensures IsApprovedOf(rs, k, id) <==> IsApprovedOf(most, k, id) || (q.id == id && q.key == k && q.state == Approved) {
        if IsApprovedOf(most, k, id) {
          var i :| 0 <= i < |most| && most[i].id == id && most[i].key == k && most[i].state == Approved;
          assert rs[i] == most[i];
        }
      }
    }
  }

  /** Another row already has this external id. */
  predicate ExternalClash(rs: seq<Request>, i: nat, ext: Option<Id>) {
    ext.Some? && exists j :: 0 <= j < |rs| && j != i && rs[j].externalRequestId == ext
  }

  class TimeOffRepository {
    const db: Database

    constructor (db: Database)
      ensures this.db == db
    {
      this.db := db;
    }

    /** INSERT: the primary key refuses a second row with the id. */
    method Insert(row: Request) returns (ok: bool)
      modifies db`requests
      ensures ok <==> forall i :: 0 <= i < |old(db.requests)| ==> old(db.requests)[i].id != row.id
      ensures db.requests == if ok then old(db.requests) + [row] else old(db.requests)
      ensures DistinctIds(old(db.requests)) ==> DistinctIds(db.requests)
    {
      ok := FindRequest(db.requests, row.id).None?;
      if ok { db.requests := db.requests + [row]; }
    }

    method FindByIdOrThrow(id: Id) returns (r: Result<Request, Error>)
      ensures r.Success? ==> r.value in db.requests && r.value.id == id
      ensures r.Failure? ==> r.error == NotFound(id) && forall q :: q in db.requests ==> q.id != id
      ensures match FindRequest(db.requests, id)
              case None => r.Failure?
              case Some(i) => r == Success(db.requests[i])
    {
      match FindRequest(db.requests, id)
      case None => r := Failure(NotFound(id));
      case Some(i) => r := Success(db.requests[i]);
    }

    method ListApprovedIdsForKey(k: Key) returns (ids: seq<Id>)
      ensures forall id :: id in ids <==> IsApprovedOf(db.requests, k, id)
      ensures ids == ApprovedIds(db.requests, k)
    {
      ids := ApprovedIds(db.requests, k);
      ApprovedIdsAreApproved(db.requests, k);
    }

    /**
     * The compare-and-set update: the row moves only if it is still in the state it was read in.
     * The unique column refuses an external id that another row already has.
     */
    method UpdateState(id: Id, from: RequestState, to: RequestState, now: Time, p: Patch)
      returns (r: Result<bool, Error>)
      requires DistinctIds(db.requests)
      modifies db`requests
      ensures match FindRequest(old(db.requests), id)
              case None => r == Success(false)
              case Some(i) =>
                r == if old(db.requests)[i].state != from then Success(false)
                     else if ExternalClash(old(db.requests), i, p.externalRequestId) then Failure(ConstraintViolation)
                     else Success(true)
      ensures var f := FindRequest(old(db.requests), id);
              db.requests == if r == Success(true) then old(db.requests)[f.value := Moved(old(db.requests)[f.value], to, p, now)]
                             else old(db.requests)
    {
      var f := FindRequest(db.requests, id);
      if f.Some? && db.requests[f.value].state == from && ExternalClash(db.requests, f.value, p.externalRequestId) {
        r := Failure(ConstraintViolation);
      } else {
        var changes := Sum(db.requests, IsInState(id, from));
        if f.Some? {
          OneRowMatches(db.requests, f.value, from);
          StatedIsOneRow(db.requests, f.value, from, to, p, now);
        } else {
          SumZero(db.requests, IsInState(id, from));
          assert Stated(db.requests, id, from, to, p, now) == db.requests;
        }
        db.requests := Stated(db.requests, id, from, to, p, now);
        r := Success(changes == 1);
      }
    }
  }

  class BalancesRepository {
    const db: Database

    constructor (db: Database)
      ensures this.db == db
    {
      this.db := db;
    }

    method FindBalance(k: Key) returns (b: Option<Balance>)
      ensures b == Lookup(db.balances, k)
    {
      b := Lookup(db.balances, k);
    }

    method SumOpenReservations(k: Key) returns (total: int)
      ensures total == SumOpen(db.reservations, k)
    {
      total := 0;
      for n := 0 to |db.reservations|
        invariant total == SumOpen(db.reservations[..n], k)
      {
        var v := db.reservations[n];
        SumAppend(db.reservations[..n], v, OpenDays(k));
        assert db.reservations[..n + 1] == db.reservations[..n] + [v];
        if v.key == k && v.state.Open? { total := total + v.days; }
      }
      assert db.reservations[..|db.reservations|] == db.reservations;
    }

    /**
     * A snapshot older than the cached one leaves the row alone; the columns refuse a negative balance and
     * NaN.  The row returned has the stamp as it was sent, the row stored as the column keeps it.
     */
    method UpsertBalance(k: Key, balance: real, asOf: Option<Stamp>, now: Time) returns (r: Result<Balance, Error>)
      modifies db`balances
      ensures var stale := asOf.Some? && k in old(db.balances) && Before(asOf.value, old(db.balances)[k].hcmSnapshotAt);
              && (r.Failure? <==> asOf.None? || (!stale && balance < 0.0))
              && (r.Failure? ==> r.error == ConstraintViolation)
              && (r.Success? ==> r.value == Upserted(old(db.balances), k, balance, asOf.value, now))
              && db.balances == if r.Failure? || stale then old(db.balances) else old(db.balances)[k := Stored(r.value)]
    {
      var existing := FindBalance(k);
      if existing.None? {
        if asOf.None? || balance < 0.0 { return Failure(ConstraintViolation); }
        var row := Balance(balance, asOf.value, now, 1);
        db.balances := db.balances[k := Stored(row)];
        return Success(row);
      }
      if asOf.Some? && Before(asOf.value, existing.value.hcmSnapshotAt) {
        return Success(existing.value);
      }
      if asOf.None? || balance < 0.0 { return Failure(ConstraintViolation); }
      var row := Balance(balance, asOf.value, now, existing.value.version + 1);
      db.balances := db.balances[k := Stored(row)];
      r := Success(row);
    }

    method InsertReservation(requestId: Id, k: Key, days: int, now: Time)
      modifies db`reservations
      ensures db.reservations == old(db.reservations) + [Reservation(requestId, k, days, Open, now, now)]
      ensures forall j :: SumOpen(db.reservations, j) == SumOpen(old(db.reservations), j) + if j == k then days else 0
    {
      forall j ensures SumOpen(db.reservations + [Reservation(requestId, k, days, Open, now, now)], j)
                       == SumOpen(db.reservations, j) + if j == k then days else 0 {
        SumAppend(db.reservations, Reservation(requestId, k, days, Open, now, now), OpenDays(j));
      }
      db.reservations := db.reservations + [Reservation(requestId, k, days, Open, now, now)];
    }

    method ReleaseReservation(requestId: Id, now: Time)
      modifies db`reservations
      ensures ClosedFor(old(db.reservations), db.reservations, requestId, Released, now)
      ensures db.reservations == Closed(old(db.reservations), requestId, Released, now)
    {
      db.reservations := Closed(db.reservations, requestId, Released, now);
    }

    method ConsumeReservation(requestId: Id, now: Time)
      modifies db`reservations
      ensures ClosedFor(old(db.reservations), db.reservations, requestId, ReservationState.Consumed, now)
      ensures db.reservations == Closed(old(db.reservations), requestId, ReservationState.Consumed, now)
    {
      db.reservations := Closed(db.reservations, requestId, ReservationState.Consumed, now);
    }
  }

  class AuditService {
    const db: Database

    constructor (db: Database)
      ensures this.db == db
    {
      this.db := db;
    }

    /** logInTx: the log is only appended to, and replaying it finds the new row for its target and no change for any other. */
    method LogInTx(entry: AuditRow)
      modifies db`audit
      ensures db.audit == old(db.audit) + [entry]
      ensures forall id :: LastLogged(db.audit, id) ==
                if entry.RequestLogged? && entry.requestId == id then Some(entry.after) else LastLogged(old(db.audit), id)
      ensures forall k :: LastBalance(db.audit, k) ==
                if entry.BalanceLogged? && entry.key == k then Some(Stored(entry.cachedAfter)) else LastBalance(old(db.audit), k)
    {
      assert (db.audit + [entry])[..|db.audit|] == db.audit;
      db.audit := db.audit + [entry];
    }
  }
}
