/** The append-only audit log: replaying it rebuilds the request and balance tables. */
module AuditTrail {
  import opened Types
  import opened Sums
  import opened Stamps
  import opened StateMachine
  import opened Tables
  import opened Ledger
  import opened Invariants

  /** Replay for one request: the row after its last event. */
  function LastLogged(log: seq<AuditRow>, id: Id): Option<Request> {
    if |log| == 0 then None
    else
      var e := log[|log| - 1];
      if e.RequestLogged? && e.requestId == id then Some(e.after) else LastLogged(log[..|log| - 1], id)
  }

  /** Replay for one balance: its columns after its last event. */
  function LastBalance(log: seq<AuditRow>, k: Key): Option<Balance> {
    if |log| == 0 then None
    else
      var e := log[|log| - 1];
      if e.BalanceLogged? && e.key == k then Some(Stored(e.cachedAfter)) else LastBalance(log[..|log| - 1], k)
  }

  function RowOf(rs: seq<Request>, id: Id): Option<Request> {
    match FindRequest(rs, id)
    case None => None
    case Some(i) => Some(rs[i])
  }

  /** Replaying the log from empty gives every row of both tables, and no others. */
  ghost predicate Replays(db: Db) {
    && (forall id :: LastLogged(db.audit, id) == RowOf(db.requests, id))
    && (forall k :: LastBalance(db.audit, k) == Lookup(db.balances, k))
  }

  lemma LoggedAfter(log: seq<AuditRow>, e: AuditRow, id: Id, k: Key)
    ensures LastLogged(log + [e], id) == if e.RequestLogged? && e.requestId == id then Some(e.after) else LastLogged(log, id)
    ensures LastBalance(log + [e], k) == if e.BalanceLogged? && e.key == k then Some(Stored(e.cachedAfter)) else LastBalance(log, k)
  {
    assert (log + [e])[..|log|] == log;
  }

  lemma RowAfter(c: Config, db: Db, ch: Change, id: Id)
    requires Coupled(db) && Allowed(c, db, ch)
    ensures RowOf(Apply(db, ch).requests, id) ==
            if ch.Insert? && ch.request.id == id then Some(ch.request)
            else if ch.Move? && db.requests[ch.i].id == id then Some(Moved(db.requests[ch.i], ch.to, ch.patch, ch.at))
            else RowOf(db.requests, id)
  {
    CoupledKept(c, db, ch);
    var rs, rs' := db.requests, Apply(db, ch).requests;
    if ch.Insert? {
      assert rs'[..|rs|] == rs;
    } else if ch.Move? && ch.i < |rs| {
      assert SameIds(rs, rs');
      if FindRequest(rs, id).Some? {
        FindKept(rs, rs', id);
      }
    }
  }

  lemma ReplaysKept(c: Config, db: Db, ch: Change)
    requires Coupled(db) && Replays(db) && Allowed(c, db, ch)
    ensures Replays(Apply(db, ch))
  {
    var db' := Apply(db, ch);
    forall id ensures LastLogged(db'.audit, id) == RowOf(db'.requests, id) {
      LoggedStep(c, db, ch, id);
      RowAfter(c, db, ch, id);
    }
    forall k ensures LastBalance(db'.audit, k) == Lookup(db'.balances, k) {
      hide RowOf, LastLogged;
      ReplayedIsStored(db.audit, k);
      if |db'.audit| > |db.audit| {
        LoggedAfter(db.audit, db'.audit[|db.audit|], "", k);
      }
    }
  }

  lemma ReplayedIsStored(log: seq<AuditRow>, k: Key)
    ensures LastBalance(log, k).Some? ==> Stored(LastBalance(log, k).value) == LastBalance(log, k).value
  {
  }

  lemma LoggedStep(c: Config, db: Db, ch: Change, id: Id)
    requires Coupled(db) && Allowed(c, db, ch)
    ensures LastLogged(Apply(db, ch).audit, id) ==
            if ch.Insert? && ch.request.id == id then Some(ch.request)
            else if ch.Move? && db.requests[ch.i].id == id then Some(Moved(db.requests[ch.i], ch.to, ch.patch, ch.at))
            else LastLogged(db.audit, id)
  {
    hide LastLogged;
    var log' := Apply(db, ch).audit;
    if |log'| > |db.audit| {
      LoggedAfter(db.audit, log'[|db.audit|], id, Key("", "", ""));
    }
  }

  // ----- The log as one chained path per request -----

  /** Each event starts from the row the log had reached, and moves along an edge of the lifecycle. */
  predicate Links(log: seq<AuditRow>, e: AuditRow) {
    match e
    case RequestLogged(_, action, id, before, after, _) =>
      && before == LastLogged(log, id) && after.id == id && action == ActionFor(after.state)
      && (before.None? ==> after.state == RequestState.Pending)
      && (before.Some? ==> CanTransition(before.value.state, after.state))
    case BalanceLogged(snapshot, k, before, after, _) =>
      && before == LastBalance(log, k)
      && (snapshot == SnapshotIgnoredStale ==> before == Some(after))
  }

  predicate Chained(log: seq<AuditRow>) {
    |log| == 0 || (Chained(log[..|log| - 1]) && Links(log[..|log| - 1], log[|log| - 1]))
  }

  lemma ChainedKept(c: Config, db: Db, ch: Change)
    requires Coupled(db) && Replays(db) && Chained(db.audit) && Allowed(c, db, ch)
    ensures Chained(Apply(db, ch).audit)
  {
    hide Effective, LastLogged, LastBalance;
    var log' := Apply(db, ch).audit;
    if |log'| > |db.audit| {
      var e := log'[|db.audit|];
      assert log'[..|db.audit|] == db.audit;
      if e.RequestLogged? {
        assert LastLogged(db.audit, e.requestId) == RowOf(db.requests, e.requestId);
      } else {
        assert LastBalance(db.audit, e.key) == Lookup(db.balances, e.key);
      }
      assert Links(db.audit, e);
    }
  }

  /** The states a request went through, as the log tells them. */
  function LoggedStates(log: seq<AuditRow>, id: Id): seq<RequestState> {
    if |log| == 0 then []
    else
      var e := log[|log| - 1];
      LoggedStates(log[..|log| - 1], id) + if e.RequestLogged? && e.requestId == id then [e.after.state] else []
  }

  predicate IsPath(p: seq<RequestState>) {
    && (|p| > 0 ==> p[0] == RequestState.Pending)
    && forall n :: 1 <= n < |p| ==> CanTransition(p[n - 1], p[n])
  }

  lemma {:induction false} LogIsPath(log: seq<AuditRow>, id: Id)
    requires Chained(log)
    ensures IsPath(LoggedStates(log, id))
    ensures LastLogged(log, id).None? <==> LoggedStates(log, id) == []
    ensures LastLogged(log, id).Some? ==>
              var p := LoggedStates(log, id); p[|p| - 1] == LastLogged(log, id).value.state
  {
    if |log| > 0 {
      LogIsPath(log[..|log| - 1], id);
      assert Links(log[..|log| - 1], log[|log| - 1]);
    }
  }

  // ----- Counting approvals -----

  function IsLogged(id: Id, action: RequestAction): AuditRow -> int {
    (e: AuditRow) => if e.RequestLogged? && e.requestId == id && e.action == action then 1 else 0
  }

  /** How often the log records this action on a request. */
  function Logged(log: seq<AuditRow>, id: Id, action: RequestAction): int { Sum(log, IsLogged(id, action)) }

  function IsRowOf(id: Id): OutboxRow -> int {
    (row: OutboxRow) => if row.requestId == id then 1 else 0
  }

  function RowCount(o: seq<OutboxRow>, id: Id): int { Sum(o, IsRowOf(id)) }

  /** Every approval enqueued exactly one row. */
  ghost predicate RowsCounted(db: Db) {
    forall id :: RowCount(db.outbox, id) == Logged(db.audit, id, RequestApproved)
  }

  lemma RowsCountedKept(c: Config, db: Db, ch: Change)
    requires Aligned(db) && RowsCounted(db) && Allowed(c, db, ch)
    ensures RowsCounted(Apply(db, ch))
  {
    hide RowCount, Logged, Apply, Allowed;
    forall id ensures RowCount(Apply(db, ch).outbox, id) == Logged(Apply(db, ch).audit, id, RequestApproved) {
      assert RowCount(db.outbox, id) == Logged(db.audit, id, RequestApproved);
      CountsStep(c, db, ch, id);
    }
  }

  /** Rows and logged approvals grow together. */
  lemma CountsStep(c: Config, db: Db, ch: Change, id: Id)
    requires Aligned(db) && Allowed(c, db, ch)
    ensures RowCount(Apply(db, ch).outbox, id) - RowCount(db.outbox, id)
            == Logged(Apply(db, ch).audit, id, RequestApproved) - Logged(db.audit, id, RequestApproved)
  {
    hide CanTransition, Effective, Excused, Due, Logged, RowCount, Apply;
    LoggedGrows(c, db, ch, id);
    RowsGrow(c, db, ch, id);
  }

  /** The write set approves this request. */
  predicate Approves(db: Db, ch: Change, id: Id) {
    ch.Move? && ch.to == Approved && ch.i < |db.requests| && db.requests[ch.i].id == id
  }

  lemma LoggedGrows(c: Config, db: Db, ch: Change, id: Id)
    requires Aligned(db) && Allowed(c, db, ch)
    ensures Logged(Apply(db, ch).audit, id, RequestApproved)
            == Logged(db.audit, id, RequestApproved) + if Approves(db, ch, id) then 1 else 0
  {
    hide CanTransition, Effective, Excused, Due;
    var db' := Apply(db, ch);
    if |db'.audit| > |db.audit| {
      SumAppend(db.audit, db'.audit[|db.audit|], IsLogged(id, RequestApproved));
    }
  }

  lemma RowsGrow(c: Config, db: Db, ch: Change, id: Id)
    requires Aligned(db) && Allowed(c, db, ch)
    ensures RowCount(Apply(db, ch).outbox, id) == RowCount(db.outbox, id) + if Approves(db, ch, id) then 1 else 0
  {
    hide CanTransition, Effective, Excused, Due;
    var db' := Apply(db, ch);
    RowsKept(db, ch);
    if |db'.outbox| > |db.outbox| {
      SumAppend(db.outbox, db'.outbox[|db.outbox|], IsRowOf(id));
    } else {
      SumSame(db.outbox, db'.outbox, IsRowOf(id), IsRowOf(id));
    }
  }

  /** Approvals minus reviews, read off the log, is settled by the state the request is in. */
  lemma {:induction false} ApprovalsMinusReviews(log: seq<AuditRow>, id: Id)
    requires Chained(log)
    ensures var n := Logged(log, id, RequestApproved) - Logged(log, id, RequestReviewRequired);
            match LastLogged(log, id)
            case None => n == 0
            case Some(q) => NetApprovals(q.state, n)
  {
    if |log| > 0 {
      var e := log[|log| - 1];
      ApprovalsMinusReviews(log[..|log| - 1], id);
      assert Links(log[..|log| - 1], e);
      if e.RequestLogged? && e.requestId == id && e.before.Some? {
        NetApprovalsStep(e.before.value.state, e.after.state,
          Logged(log[..|log| - 1], id, RequestApproved) - Logged(log[..|log| - 1], id, RequestReviewRequired));
      }
    }
  }
}
