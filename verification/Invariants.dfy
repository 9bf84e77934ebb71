/** What every committed transaction keeps true of the tables. */
module Invariants {
  import opened Types
  import opened Sums
  import opened StateMachine
  import opened Tables
  import opened Ledger

  /** The guards under which the services commit each write set. */
  ghost predicate Allowed(c: Config, db: Db, ch: Change)
  {
    match ch
    case Nothing => true
    case Insert(q) =>
      && FindRequest(db.requests, q.id).None?
      && q.state == RequestState.Pending && q.externalRequestId.None? && q.days >= 1
      && q.key in db.balances && Effective(db, q.key) >= q.days as real
    case Move(i, to, p, _, _) =>
      && i < |db.requests| && CanTransition(db.requests[i].state, to)
      && (to != Approved ==> p.externalRequestId.None?)
      && (to == Approved ==> ApprovalIdOk(db.requests, i, p))
    case Snapshot(k, b, action, _) =>
      match action {
        case SnapshotIgnoredStale => k in db.balances && b == db.balances[k]
        case SnapshotApplied => b.hcmBalance >= SumOpen(db.reservations, k) as real
        case SnapshotNegativeDrift => b.hcmBalance < SumOpen(db.reservations, k) as real
      }
    case Claim(ids, at) => forall j :: 0 <= j < |ids| ==> ids[j] < |db.outbox| && Due(db.outbox[ids[j]], at)
    case Finish(r, _) => r < |db.outbox| && Live(db.outbox[r]) && Excused(db, r)
    case Retry(r, attempts, status, _, _, _) =>
      && r < |db.outbox| && Live(db.outbox[r]) && attempts == db.outbox[r].attempts + 1
      && status == if attempts >= c.maxAttempts then Dead else RowStatus.Pending
    case Reset(_) => true
  }

  ghost predicate ApprovalIdOk(rs: seq<Request>, i: nat, p: Patch)
    requires i < |rs|
  {
    && p.externalRequestId.Some?
    && (rs[i].externalRequestId.Some? ==> p.externalRequestId == rs[i].externalRequestId)
    && (rs[i].externalRequestId.None? ==> !ExternalIdTaken(rs, p.externalRequestId.value))
  }

  /** A row some worker may still act on. */
  predicate Live(row: OutboxRow) { row.status == RowStatus.Pending || row.status == Inflight }

  /** Closing row r loses no submission: its request is no longer approved, or has a newer row. */
  ghost predicate Excused(db: Db, r: nat)
    requires r < |db.outbox|
  {
    var f := FindRequest(db.requests, db.outbox[r].requestId);
    f.Some? && (db.requests[f.value].state != Approved || LastRow(db.outbox, db.outbox[r].requestId) != Some(r))
  }

  /** The services' transactions respect these guards. */
  lemma CreateAllowed(c: Config, db: Db, actor: Actor, input: Input, id: Id, corr: Id, now: Time)
    ensures Allowed(c, db, ChangeOf(CreateTx(db, actor, input, id, corr, now)))
  {
    Dates.CountAtLeastOne(input.startDate, input.endDate);
    hide Effective, FindRequest, Dates.CountDaysInclusive;
  }

  lemma UserMovesAllowed(c: Config, db: Db, actor: Actor, id: Id, newExt: Id, reason: Option<string>, now: Time)
    ensures Allowed(c, db, ChangeOf(ApproveTx(db, actor, id, newExt, now)))
    ensures Allowed(c, db, ChangeOf(RejectTx(db, actor, id, reason, now)))
    ensures Allowed(c, db, ChangeOf(CancelTx(db, actor, id, now)))
  {
    hide Targets;
  }

  lemma MarkAllowed(c: Config, db: Db, id: Id, to: RequestState, error: Option<string>, now: Time)
    requires to != Approved
    ensures Allowed(c, db, ChangeOf(MarkTx(db, id, to, error, now)))
  {
    hide Targets;
  }

  lemma SnapshotAllowed(c: Config, db: Db, k: Key, balance: real, asOf: Option<Stamp>, now: Time)
    ensures Allowed(c, db, ChangeOf(SnapshotTx(db, k, balance, asOf, now)))
  {
    hide SumOpen;
  }

  // ----- Ledger coupling -----

  predicate Matches(q: Request, v: Reservation) {
    v.requestId == q.id && v.key == q.key && v.days == q.days && q.days >= 1 && v.state == Held(q.state)
  }

  predicate DistinctIds(rs: seq<Request>) {
    forall i, j :: 0 <= i < j < |rs| ==> rs[i].id != rs[j].id
  }

  /** Every request has exactly one reservation: same key and days, open exactly while the request holds them. */
  predicate Coupled(db: Db) {
    && Aligned(db)
    && DistinctIds(db.requests)
    && forall i :: 0 <= i < |db.requests| ==> Matches(db.requests[i], db.reservations[i])
  }

  lemma AlignedWhenCoupled(db: Db)
    requires Coupled(db)
    ensures Aligned(db)
  {
  }

  lemma CoupledKept(c: Config, db: Db, ch: Change)
    requires Coupled(db) && Allowed(c, db, ch)
    ensures Coupled(Apply(db, ch))
  {
    if ch.Move? {
      ClosedStaysClosed(db.requests[ch.i].state, ch.to);
    }
  }

  /** The reservation sum of a key is the sum of the days of its open requests. */
  function RequestDays(k: Key): Request -> int {
    (q: Request) => if q.key == k && q.state in {RequestState.Pending, Approved, ReviewRequired} then q.days else 0
  }

  lemma {:induction false} OpenSumIsRequestSum(rs: seq<Request>, vs: seq<Reservation>, k: Key)
    requires |rs| == |vs| && forall i :: 0 <= i < |rs| ==> Matches(rs[i], vs[i])
    ensures SumOpen(vs, k) == Sum(rs, RequestDays(k))
    ensures SumOpen(vs, k) >= 0
  {
    if |rs| > 0 {
      var n := |rs| - 1;
      OpenSumIsRequestSum(rs[..n], vs[..n], k);
      assert Matches(rs[n], vs[n]);
    }
  }

  /** How each write set changes what a key's open reservations add up to. */
  lemma OpenSumAfter(c: Config, db: Db, ch: Change, k: Key)
    requires Coupled(db) && Allowed(c, db, ch)
    ensures SumOpen(Apply(db, ch).reservations, k) == SumOpen(db.reservations, k) +
            (match ch
             case Insert(q) => if q.key == k then q.days else 0
             case Move(i, to, _, _, _) =>
               if db.requests[i].key == k && db.requests[i].state in {RequestState.Pending, Approved, ReviewRequired}
                  && to in {Rejected, Cancelled, RequestState.Consumed, HcmFailed}
               then -db.requests[i].days else 0
             case _ => 0)
  {
    if ch.Insert? {
      SumAppend(db.reservations, NewReservation(ch.request), OpenDays(k));
    } else if ch.Move? {
      var vs := Apply(db, ch).reservations;
      SumExcept(db.reservations, vs, OpenDays(k), OpenDays(k), ch.i);
      assert Matches(db.requests[ch.i], db.reservations[ch.i]);
      ClosedStaysClosed(db.requests[ch.i].state, ch.to);
    }
  }

  // ----- Outbox ownership -----

  /** Every outbox row belongs to a request and carries that request's immutable fields and external id. */
  ghost predicate RowsOwned(db: Db) {
    forall r :: 0 <= r < |db.outbox| ==> Owned(db.requests, db.outbox[r])
  }

  ghost predicate Owned(rs: seq<Request>, row: OutboxRow) {
    var f := FindRequest(rs, row.requestId);
    f.Some? && rs[f.value].externalRequestId.Some? && row.payload == PayloadFor(rs[f.value])
  }

  /** Rows keep their position, request and payload forever; only their status columns change. */
  ghost predicate SameRows(o: seq<OutboxRow>, o': seq<OutboxRow>) {
    && |o| <= |o'|
    && forall r :: 0 <= r < |o| ==> o'[r].requestId == o[r].requestId && o'[r].payload == o[r].payload
  }

  lemma RowsKept(db: Db, ch: Change)
    requires Aligned(db)
    ensures SameRows(db.outbox, Apply(db, ch).outbox)
    ensures !ch.Move? ==> |Apply(db, ch).outbox| == |db.outbox|
  {
  }

  /** No two requests share an external id. */
  predicate DistinctExternals(rs: seq<Request>) {
    forall i, j :: 0 <= i < j < |rs| && rs[i].externalRequestId.Some? ==>
      rs[i].externalRequestId != rs[j].externalRequestId
  }

  /** A request has an external id exactly when it has an outbox row. */
  predicate ExternalIffRow(db: Db) {
    forall i :: 0 <= i < |db.requests| ==>
      (db.requests[i].externalRequestId.Some? <==> LastRow(db.outbox, db.requests[i].id).Some?)
  }

  /** No approved request is lost: its newest row is not DONE. */
  ghost predicate ApprovedTracked(db: Db) {
    forall i :: 0 <= i < |db.requests| && db.requests[i].state == Approved ==> Tracked(db.outbox, db.requests[i].id)
  }

  ghost predicate Tracked(o: seq<OutboxRow>, id: Id) {
    var l := LastRow(o, id);
    l.Some? && o[l.value].status != Done
  }

  lemma LastRowKept(o: seq<OutboxRow>, o': seq<OutboxRow>, id: Id)
    requires SameRows(o, o') && |o'| == |o|
    ensures LastRow(o', id) == LastRow(o, id)
  {
  }

  lemma LastRowAfter(o: seq<OutboxRow>, row: OutboxRow, id: Id)
    ensures LastRow(o + [row], id) == if row.requestId == id then Some(|o|) else LastRow(o, id)
  {
    assert (o + [row])[..|o|] == o;
  }

  /** Requests keep their position and id forever. */
  ghost predicate SameIds(rs: seq<Request>, rs': seq<Request>) {
    |rs| <= |rs'| && forall i :: 0 <= i < |rs| ==> rs'[i].id == rs[i].id
  }

  lemma FindKept(rs: seq<Request>, rs': seq<Request>, id: Id)
    requires SameIds(rs, rs') && DistinctIds(rs') && FindRequest(rs, id).Some?
    ensures FindRequest(rs', id) == FindRequest(rs, id)
  {
    var j := FindRequest(rs, id).value;
    assert rs'[j].id == id;
  }

  lemma OwnedKept(c: Config, db: Db, ch: Change)
    requires Coupled(db) && RowsOwned(db) && Allowed(c, db, ch)
    ensures RowsOwned(Apply(db, ch))
  {
    hide CanTransition, Effective, Due, Excused, LastRow, FindRequest;
    var db' := Apply(db, ch);
    CoupledKept(c, db, ch);
    RowsKept(db, ch);
    forall r | 0 <= r < |db'.outbox| ensures Owned(db'.requests, db'.outbox[r]) {
      if r < |db.outbox| {
        assert Owned(db.requests, db.outbox[r]);
        FindKept(db.requests, db'.requests, db.outbox[r].requestId);
      } else {
        assert db'.requests[ch.i].id == db'.outbox[r].requestId;
      }
    }
  }

  lemma DistinctExternalsKept(c: Config, db: Db, ch: Change)
    requires Aligned(db) && DistinctExternals(db.requests) && Allowed(c, db, ch)
    ensures DistinctExternals(Apply(db, ch).requests)
  {
    hide CanTransition, Effective;
    if ch.Move? && ch.to == Approved {
      assert ApprovalIdOk(db.requests, ch.i, ch.patch);
    }
  }

  /** An outbox row appended by an approval belongs to the request that was approved. */
  lemma RowsAfter(db: Db, ch: Change, i: nat)
    requires Coupled(db) && i < |db.requests| && ch.Move? && ch.i < |db.requests|
    ensures var db' := Apply(db, ch);
            var id := db.requests[i].id;
            || (db'.outbox == db.outbox && !(ch.to == Approved && db'.requests[ch.i].externalRequestId.Some?))
            || (&& |db'.outbox| == |db.outbox| + 1 && db'.requests[ch.i].externalRequestId.Some? && ch.to == Approved
                && db'.outbox[|db.outbox|].status == RowStatus.Pending
                && LastRow(db'.outbox, id) == if i == ch.i then Some(|db.outbox|) else LastRow(db.outbox, id))
  {
    var db' := Apply(db, ch);
    if |db'.outbox| > |db.outbox| {
      LastRowAfter(db.outbox, db'.outbox[|db.outbox|], db.requests[i].id);
    }
  }

  lemma ExternalIffRowKept(c: Config, db: Db, ch: Change)
    requires Coupled(db) && RowsOwned(db) && ExternalIffRow(db) && Allowed(c, db, ch)
    ensures ExternalIffRow(Apply(db, ch))
  {
    hide Coupled, RowsOwned, Allowed, Apply, LastRow;
    AlignedWhenCoupled(db);
    var db' := Apply(db, ch);
    forall i | 0 <= i < |db'.requests|
      ensures db'.requests[i].externalRequestId.Some? <==> LastRow(db'.outbox, db'.requests[i].id).Some?
    {
      if ch.Move? {
        ExternalIffRowAfterMove(c, db, ch, i);
      } else {
        ExternalIffRowOtherwise(c, db, ch, i);
      }
    }
  }

  lemma ExternalIffRowAfterMove(c: Config, db: Db, ch: Change, i: nat)
    requires Coupled(db) && ExternalIffRow(db) && Allowed(c, db, ch) && ch.Move? && i < |Apply(db, ch).requests|
    ensures var db' := Apply(db, ch);
            db'.requests[i].externalRequestId.Some? <==> LastRow(db'.outbox, db'.requests[i].id).Some?
  {
    hide CanTransition, LastRow;
    RowsAfter(db, ch, i);
  }

  lemma ExternalIffRowOtherwise(c: Config, db: Db, ch: Change, i: nat)
    requires Coupled(db) && RowsOwned(db) && ExternalIffRow(db) && Allowed(c, db, ch) && !ch.Move? && i < |Apply(db, ch).requests|
    ensures var db' := Apply(db, ch);
            db'.requests[i].externalRequestId.Some? <==> LastRow(db'.outbox, db'.requests[i].id).Some?
  {
    hide CanTransition, Effective, Due, Excused, LastRow, RowsOwned, FindRequest;
    var db' := Apply(db, ch);
    RowsKept(db, ch);
    LastRowKept(db.outbox, db'.outbox, db'.requests[i].id);
    if i == |db.requests| {
      NoRowsYet(db, db'.requests[i].id);
    }
  }

  lemma NoRowsYet(db: Db, id: Id)
    requires RowsOwned(db) && FindRequest(db.requests, id).None?
    ensures LastRow(db.outbox, id).None?
  {
    var l := LastRow(db.outbox, id);
    if l.Some? {
      assert Owned(db.requests, db.outbox[l.value]);
    }
  }

  lemma TrackedKept(c: Config, db: Db, ch: Change)
    requires Coupled(db) && RowsOwned(db) && ApprovedTracked(db) && Allowed(c, db, ch)
    ensures ApprovedTracked(Apply(db, ch))
  {
    var db' := Apply(db, ch);
    forall i | 0 <= i < |db'.requests| && db'.requests[i].state == Approved
      ensures Tracked(db'.outbox, db'.requests[i].id)
    {
      if ch.Move? {
        assert db.requests[i].state == Approved ==> Tracked(db.outbox, db.requests[i].id);
        TrackedAfterMove(c, db, ch, i);
      } else {
        assert i < |db.requests|;
        assert Tracked(db.outbox, db.requests[i].id);
        TrackedOtherwise(c, db, ch, i);
      }
    }
  }

  lemma TrackedAfterMove(c: Config, db: Db, ch: Change, i: nat)
    requires Coupled(db) && ch.Move? && Allowed(c, db, ch) && i < |db.requests| && Apply(db, ch).requests[i].state == Approved
    requires db.requests[i].state == Approved ==> Tracked(db.outbox, db.requests[i].id)
    ensures Tracked(Apply(db, ch).outbox, db.requests[i].id)
  {
    hide Effective, Due, Excused, Matches, DistinctIds;
    RowsAfter(db, ch, i);
    RowsKept(db, ch);
    if ch.to == Approved { assert ApprovalIdOk(db.requests, ch.i, ch.patch); }
  }

  lemma TrackedOtherwise(c: Config, db: Db, ch: Change, i: nat)
    requires Coupled(db) && !ch.Move? && Allowed(c, db, ch) && i < |db.requests|
    requires db.requests[i].state == Approved && Tracked(db.outbox, db.requests[i].id)
    ensures Tracked(Apply(db, ch).outbox, db.requests[i].id)
  {
    hide Effective, Due;
    RowsKept(db, ch);
    LastRowKept(db.outbox, Apply(db, ch).outbox, db.requests[i].id);
  }

  // ----- Retry accounting -----

  predicate AttemptsOk(c: Config, row: OutboxRow) {
    if row.status == Dead then row.attempts == c.maxAttempts else row.attempts < c.maxAttempts
  }

  /** Only a DEAD row has used up its attempts. */
  predicate RetryBounds(c: Config, db: Db) {
    forall r :: 0 <= r < |db.outbox| ==> AttemptsOk(c, db.outbox[r])
  }

  lemma RetryBoundsKept(c: Config, db: Db, ch: Change)
    requires c.Valid() && Aligned(db) && RetryBounds(c, db) && Allowed(c, db, ch)
    ensures RetryBounds(c, Apply(db, ch))
  {
  }
}
