/**
 * The tables, the queries over them, and the write sets of the committed transactions.
 * A request and its reservation are inserted together, so both sit at the same position.
 */
module Tables {
  import opened Types
  import opened Sums
  import opened Stamps
  import opened StateMachine

  datatype Db = Db(
    balances: map<Key, Balance>, requests: seq<Request>, reservations: seq<Reservation>,
    outbox: seq<OutboxRow>, audit: seq<AuditRow>)

  const EMPTY := Db(map[], [], [], [], [])

  predicate Aligned(db: Db) { |db.requests| == |db.reservations| }

  // ----- Queries -----

  /** The row with this primary key. */
  function FindRequest(rs: seq<Request>, id: Id): (r: Option<nat>)
    ensures r.Some? ==> r.value < |rs| && rs[r.value].id == id
    ensures r.None? ==> forall i :: 0 <= i < |rs| ==> rs[i].id != id
  {
    if |rs| == 0 then None
    else if rs[|rs| - 1].id == id then Some(|rs| - 1)
    else FindRequest(rs[..|rs| - 1], id)
  }

  function OpenDays(k: Key): Reservation -> int {
    (v: Reservation) => if v.key == k && v.state.Open? then v.days else 0
  }

  function SumOpen(vs: seq<Reservation>, k: Key): int { Sum(vs, OpenDays(k)) }

  /** The newest outbox row of a request. */
  function LastRow(o: seq<OutboxRow>, id: Id): (r: Option<nat>)
    ensures r.Some? ==> r.value < |o| && o[r.value].requestId == id
                        && forall q :: r.value < q < |o| ==> o[q].requestId != id
    ensures r.None? ==> forall q :: 0 <= q < |o| ==> o[q].requestId != id
  {
    if |o| == 0 then None
    else if o[|o| - 1].requestId == id then Some(|o| - 1)
    else LastRow(o[..|o| - 1], id)
  }

  predicate Due(row: OutboxRow, now: Time) {
    row.status == RowStatus.Pending && row.nextAttemptAt <= now
  }

  /** The first limit due rows at positions from onwards, in ascending order. */
  function DueRows(o: seq<OutboxRow>, now: Time, limit: int, from: nat): (ids: seq<nat>)
    ensures forall j :: 0 <= j < |ids| ==> from <= ids[j] < |o| && Due(o[ids[j]], now)
    ensures forall i, j :: 0 <= i < j < |ids| ==> ids[i] < ids[j]
    ensures |ids| <= if limit < 0 then 0 else limit
    decreases |o| - from
  {
    if from >= |o| || limit <= 0 then []
    else if Due(o[from], now) then [from] + DueRows(o, now, limit - 1, from + 1)
    else DueRows(o, now, limit, from + 1)
  }

  function ApprovedIds(rs: seq<Request>, k: Key): seq<Id> {
    if |rs| == 0 then []
    else
      var q := rs[|rs| - 1];
      ApprovedIds(rs[..|rs| - 1], k) + if q.key == k && q.state == Approved then [q.id] else []
  }

  // ----- Write sets -----

  /** Columns overwritten by updateState where present. */
  datatype Patch = Patch(
    approverId: Option<Id>, approvedAt: Option<Time>, externalRequestId: Option<Id>, hcmError: Option<string>)

  const NO_PATCH := Patch(None, None, None, None)

  /** What one committed transaction writes. */
  datatype Change =
    | Nothing
    | Insert(request: Request)
    | Move(i: nat, to: RequestState, patch: Patch, actor: AuditActor, at: Time)
    | Snapshot(key: Key, balance: Balance, action: SnapshotAction, at: Time)
    | Claim(ids: seq<nat>, at: Time)
    | Finish(row: nat, at: Time)
    | Retry(row: nat, attempts: nat, status: RowStatus, nextAttemptAt: Time, error: string, at: Time)
    | Reset(row: nat)

  function PayloadFor(q: Request): Payload
    requires q.externalRequestId.Some?
  {
    Payload(q.key, q.days, q.startDate, q.endDate, q.externalRequestId.value, q.correlationId)
  }

  function Moved(q: Request, to: RequestState, p: Patch, at: Time): Request {
    q.(state := to, updatedAt := at,
       approverId := Coalesce(p.approverId, q.approverId),
       approvedAt := Coalesce(p.approvedAt, q.approvedAt),
       externalRequestId := Coalesce(p.externalRequestId, q.externalRequestId),
       hcmError := Coalesce(p.hcmError, q.hcmError))
  }

  /** The reservation of a request that enters a state: closed when that state no longer holds days. */
  function Settled(v: Reservation, to: RequestState, at: Time): Reservation {
    if v.state.Open? && !Held(to).Open? then v.(state := Held(to), updatedAt := at) else v
  }

  function NewReservation(q: Request): Reservation {
    Reservation(q.id, q.key, q.days, Open, q.createdAt, q.createdAt)
  }

  function NewRow(q: Request, at: Time): OutboxRow
    requires q.externalRequestId.Some?
  {
    OutboxRow(q.id, PayloadFor(q), 0, at, RowStatus.Pending, None, at, at)
  }

  /** Entering Approved enqueues the submission to HCM in the same transaction. */
  function Enqueued(o: seq<OutboxRow>, q: Request, at: Time): seq<OutboxRow> {
    if q.state == Approved && q.externalRequestId.Some? then o + [NewRow(q, at)] else o
  }

  function ClaimRows(o: seq<OutboxRow>, ids: seq<nat>, at: Time): (o': seq<OutboxRow>)
    ensures |o'| == |o|
  {
    seq(|o|, (r: int) requires 0 <= r < |o| =>
      if r in ids then o[r].(status := Inflight, updatedAt := at) else o[r])
  }

  function FinishRow(o: seq<OutboxRow>, r: nat, at: Time): (o': seq<OutboxRow>)
    ensures |o'| == |o|
  {
    if r < |o| then o[r := o[r].(status := Done, updatedAt := at, lastError := None)] else o
  }

  function RetryRow(o: seq<OutboxRow>, ch: Change): (o': seq<OutboxRow>)
    requires ch.Retry?
    ensures |o'| == |o|
  {
    if ch.row < |o| then
      o[ch.row := o[ch.row].(status := ch.status, attempts := ch.attempts, nextAttemptAt := ch.nextAttemptAt,
                             lastError := Some(ch.error), updatedAt := ch.at)]
    else o
  }

  function ResetRow(o: seq<OutboxRow>, r: nat): (o': seq<OutboxRow>)
    ensures |o'| == |o|
  {
    if r < |o| then
      o[r := o[r].(status := RowStatus.Pending, nextAttemptAt := 0, attempts := 0, lastError := None)]
    else o
  }

  function Lookup(m: map<Key, Balance>, k: Key): Option<Balance> {
    if k in m then Some(m[k]) else None
  }

  function Apply(db: Db, ch: Change): (db': Db)
    requires Aligned(db)
    ensures Aligned(db')
  {
    match ch
    case Nothing => db
    case Insert(row) =>
      db.(requests := db.requests + [row],
          reservations := db.reservations + [NewReservation(row)],
          audit := db.audit + [RequestLogged(User(row.key.employeeId), RequestCreated, row.id, None, row, row.createdAt)])
    case Move(i, to, p, actor, at) =>
      if i >= |db.requests| then db
      else
        var before := db.requests[i];
        var after := Moved(before, to, p, at);
        db.(requests := db.requests[i := after],
            reservations := db.reservations[i := Settled(db.reservations[i], to, at)],
            outbox := Enqueued(db.outbox, after, at),
            audit := db.audit + [RequestLogged(actor, ActionFor(to), before.id, Some(before), after, at)])
    case Snapshot(k, balance, action, at) =>
      db.(balances := if action == SnapshotIgnoredStale then db.balances else db.balances[k := Stored(balance)],
          audit := db.audit + [BalanceLogged(action, k, Lookup(db.balances, k), balance, at)])
    case Claim(ids, at) => db.(outbox := ClaimRows(db.outbox, ids, at))
    case Finish(r, at) => db.(outbox := FinishRow(db.outbox, r, at))
    case Retry(_, _, _, _, _, _) => db.(outbox := RetryRow(db.outbox, ch))
    case Reset(r) => db.(outbox := ResetRow(db.outbox, r))
  }

  lemma NothingWritten(db: Db)
    requires Aligned(db)
    ensures Apply(db, Nothing) == db
  {
  }
}
