/**
 * The whole service as one transition system: the tables, the worker's memory, the requests on
 * the wire to HCM, and HCM itself.  All nondeterminism is in the event, so a run is a sequence
 * of events.
 */
module Protocol {
  import opened Types
  import opened Backoff
  import opened Tables
  import opened Ledger
  import opened Invariants
  import opened AuditTrail
  import opened BalanceIntegrity

  /** A row as claimDue returned it. */
  datatype Claimed = Claimed(id: nat, requestId: Id, payload: Payload)

  /** The outbox worker.  rows are the claimed rows still to do, the first one in hand. */
  datatype Worker =
    | Idle
    | AwaitBalance(rows: seq<Claimed>)           // suspended on getBalance
    | AwaitConsume(rows: seq<Claimed>)           // suspended on consumeBalance
    | Marked(rows: seq<Claimed>, abort: bool)    // request updated, row not yet DONE; abort: then leave the tick

  datatype Hcm = Hcm(balances: map<Key, real>, consumed: set<Id>)

  datatype Reply = Accepted | TransientError | PermanentError

  datatype IdemKey = IdemKey(key: string, endpoint: string, actorId: Id)
  datatype IdemRow = IdemRow(response: Created, expiresAt: Time)

  const TTL_MS := 24 * 60 * 60 * 1000
  const ENDPOINT := "POST /me/requests"

  datatype Sys = Sys(
    db: Db, clock: Time, idem: map<IdemKey, IdemRow>, worker: Worker, sent: seq<Claimed>, hcm: Hcm)

  datatype Event =
    | Advance(to: Time)
    | Post(actor: Actor, key: string, input: Input, id: Id, corr: Id, dies: bool)
    | Approve(actor: Actor, id: Id, newExt: Id)
    | Reject(actor: Actor, id: Id, reason: Option<string>)
    | Cancel(actor: Actor, id: Id)
    | ApplySnapshot(k: Key, balance: real, asOf: Option<Stamp>)
    | Escalate(id: Id, text: string)
    | ResetToPending(row: nat)
    | Tick
    | BalanceReply(view: Option<real>, random: real, text: string)
    | ConsumeReply(reply: Reply, random: real, text: string)
    | MarkDone
    | HcmProcess(m: nat)
    | HcmChange(k: Key, delta: real)
    | Crash

  // ----- HCM (the mock's setBalance, getBalance and consume) -----

  function HcmBalance(h: Hcm, k: Key): real {
    if k in h.balances then h.balances[k] else 0.0
  }

  predicate Debits(h: Hcm, p: Payload) {
    p.externalRequestId !in h.consumed && HcmBalance(h, p.key) >= p.days as real
  }

  /** consume: a known external id is answered without a second debit, too low a balance is refused. */
  function Consume(h: Hcm, p: Payload): Hcm {
    if Debits(h, p) then
      Hcm(h.balances[p.key := HcmBalance(h, p.key) - p.days as real], h.consumed + {p.externalRequestId})
    else h
  }

  // ----- Idempotent filing (idempotency.service.js, time-off.controller.js) -----

  /** lookup: an expired row is deleted and not returned. */
  function IdemLookup(idem: map<IdemKey, IdemRow>, ik: IdemKey, now: Time): Option<IdemRow> {
    if ik.key != "" && ik in idem && !(idem[ik].expiresAt < now) then Some(idem[ik]) else None
  }

  function IdemPurged(idem: map<IdemKey, IdemRow>, ik: IdemKey, now: Time): map<IdemKey, IdemRow> {
    if ik.key != "" && ik in idem && idem[ik].expiresAt < now then idem - {ik} else idem
  }

  function IdemStored(idem: map<IdemKey, IdemRow>, ik: IdemKey, response: Created, now: Time): map<IdemKey, IdemRow> {
    if ik.key == "" then idem else idem[ik := IdemRow(response, now + TTL_MS)]
  }

  // ----- The worker -----

  function ClaimedRows(o: seq<OutboxRow>, ids: seq<nat>): (rows: seq<Claimed>)
    requires forall j :: 0 <= j < |ids| ==> ids[j] < |o|
  {
    seq(|ids|, (j: int) requires 0 <= j < |ids| && ids[j] < |o| =>
      Claimed(ids[j], o[ids[j]].requestId, o[ids[j]].payload))
  }

  function Holding(rows: seq<Claimed>): Worker {
    if |rows| == 0 then Idle else AwaitBalance(rows)
  }

  // ----- Steps -----

  /** What an event writes to the tables, and everything else it changes. */
  datatype Effect = Effect(change: Change, rest: Sys)

  function Continue(s: Sys, ch: Change, rows: seq<Claimed>): Effect
    requires |rows| > 0
  {
    Effect(ch, s.(worker := Holding(rows[1..])))
  }

  function PostEffect(s: Sys, e: Event): Effect
    requires e.Post?
  {
    var ik := IdemKey(e.key, ENDPOINT, e.actor.sub);
    if IdemLookup(s.idem, ik, s.clock).Some? then Effect(Nothing, s)
    else
      var idem := IdemPurged(s.idem, ik, s.clock);
      match CreateTx(s.db, e.actor, e.input, e.id, e.corr, s.clock)
      case RolledBack(_) => Effect(Nothing, s.(idem := idem))
      case Committed(ch, created) =>
        if e.dies then Effect(ch, s.(idem := idem, worker := Idle))
        else Effect(ch, s.(idem := IdemStored(idem, ik, created, s.clock)))
  }

  /** The worker resumes with HCM's view of the balance, or with none when the call failed. */
  function BalanceReplyEffect(c: Config, s: Sys, e: Event): Effect
    requires e.BalanceReply? && s.worker.AwaitBalance? && |s.worker.rows| > 0
  {
    var rows := s.worker.rows;
    if e.view.Some? && e.view.value < rows[0].payload.days as real then
      match MarkTx(s.db, rows[0].requestId, ReviewRequired, Some(e.text), s.clock)
      case Committed(ch, _) => Effect(ch, s.(worker := Marked(rows, false)))
      case RolledBack(_) => Continue(s, RetryChange(c, s.db.outbox, rows[0].id, e.text, e.random, s.clock), rows)
    else Effect(Nothing, s.(worker := AwaitConsume(rows), sent := s.sent + [rows[0]]))
  }

  /** The worker resumes with HCM's answer to consumeBalance. */
  function ConsumeReplyEffect(c: Config, s: Sys, e: Event): Effect
    requires e.ConsumeReply? && s.worker.AwaitConsume? && |s.worker.rows| > 0
  {
    var rows := s.worker.rows;
    var retry := Continue(s, RetryChange(c, s.db.outbox, rows[0].id, e.text, e.random, s.clock), rows);
    match e.reply
    case TransientError => retry
    case Accepted =>
      (match MarkTx(s.db, rows[0].requestId, RequestState.Consumed, None, s.clock)
       case Committed(ch, _) => Effect(ch, s.(worker := Marked(rows, false)))
       case RolledBack(_) => retry)
    case PermanentError =>
      match MarkTx(s.db, rows[0].requestId, HcmFailed, Some(e.text), s.clock)
      case Committed(ch, _) => Effect(ch, s.(worker := Marked(rows, false)))
      case RolledBack(_) => Effect(Nothing, s.(worker := Marked(rows, true)))
  }

  predicate Enabled(s: Sys, e: Event) {
    match e
    case Advance(to) => to >= s.clock
    case BalanceReply(_, random, _) => s.worker.AwaitBalance? && |s.worker.rows| > 0 && Jitter(random)
    case ConsumeReply(_, random, _) => s.worker.AwaitConsume? && |s.worker.rows| > 0 && Jitter(random)
    case MarkDone => s.worker.Marked? && |s.worker.rows| > 0
    case HcmProcess(m) => m < |s.sent|
    case _ => true
  }

  function EffectOf(c: Config, s: Sys, e: Event): Effect
    requires Enabled(s, e)
  {
    match e
    case Advance(to) => Effect(Nothing, s.(clock := to))
    case Post(_, _, _, _, _, _) => PostEffect(s, e)
    case Approve(actor, id, newExt) => Effect(ChangeOf(ApproveTx(s.db, actor, id, newExt, s.clock)), s)
    case Reject(actor, id, reason) => Effect(ChangeOf(RejectTx(s.db, actor, id, reason, s.clock)), s)
    case Cancel(actor, id) => Effect(ChangeOf(CancelTx(s.db, actor, id, s.clock)), s)
    case ApplySnapshot(k, balance, asOf) => Effect(ChangeOf(SnapshotTx(s.db, k, balance, asOf, s.clock)), s)
    case Escalate(id, text) => Effect(ChangeOf(MarkTx(s.db, id, ReviewRequired, Some(text), s.clock)), s)
    case ResetToPending(row) => Effect(Reset(row), s)
    case Tick =>
      if !s.worker.Idle? then Effect(Nothing, s)
      else
        var ids := DueRows(s.db.outbox, s.clock, c.batchSize, 0);
        Effect(Claim(ids, s.clock), s.(worker := Holding(ClaimedRows(s.db.outbox, ids))))
    case BalanceReply(_, _, _) => BalanceReplyEffect(c, s, e)
    case ConsumeReply(_, _, _) => ConsumeReplyEffect(c, s, e)
    case MarkDone =>
      var rows := s.worker.rows;
      Effect(Finish(rows[0].id, s.clock), s.(worker := if s.worker.abort then Idle else Holding(rows[1..])))
    case HcmProcess(m) => Effect(Nothing, s.(hcm := Consume(s.hcm, s.sent[m].payload)))
    case HcmChange(k, delta) =>
      Effect(Nothing, s.(hcm := s.hcm.(balances := s.hcm.balances[k := HcmBalance(s.hcm, k) + delta])))
    case Crash => Effect(Nothing, s.(worker := Idle))
  }

  function Next(c: Config, s: Sys, e: Event): (s': Sys)
    requires Aligned(s.db) && Enabled(s, e)
    ensures Aligned(s'.db)
  {
    var f := EffectOf(c, s, e);
    f.rest.(db := Apply(s.db, f.change))
  }

  // ----- Runs -----

  /** The service starts with empty tables and an idle worker; HCM may hold any balances. */
  predicate Init(s: Sys) {
    s.db == EMPTY && s.idem == map[] && s.worker == Idle && s.sent == [] && s.hcm.consumed == {}
  }

  /** The state after each event was possible and taken in turn; None when one was not possible. */
  function Exec(c: Config, s: Sys, run: seq<Event>): (r: Option<Sys>)
    requires Aligned(s.db)
    ensures r.Some? ==> Aligned(r.value.db)
  {
    if |run| == 0 then Some(s)
    else
      match Exec(c, s, run[..|run| - 1])
      case None => None
      case Some(t) => if Enabled(t, run[|run| - 1]) then Some(Next(c, t, run[|run| - 1])) else None
  }

  // ----- The inductive invariant -----

  ghost predicate DbInv(c: Config, db: Db) {
    && Coupled(db)
    && RowsOwned(db)
    && DistinctExternals(db.requests)
    && ExternalIffRow(db)
    && ApprovedTracked(db)
    && RetryBounds(c, db)
    && Replays(db)
    && Chained(db.audit)
    && RowsCounted(db)
    && Covered(db)
  }

  ghost predicate IsCopy(db: Db, row: Claimed) {
    row.id < |db.outbox| && row.requestId == db.outbox[row.id].requestId && row.payload == db.outbox[row.id].payload
  }

  /** The rows in the worker's memory are live copies, in ascending order. */
  ghost predicate HoldsRows(db: Db, rows: seq<Claimed>) {
    && (forall j :: 0 <= j < |rows| ==> IsCopy(db, rows[j]) && Live(db.outbox[rows[j].id]))
    && (forall i, j :: 0 <= i < j < |rows| ==> rows[i].id < rows[j].id)
  }

  ghost predicate WorkerInv(s: Sys) {
    s.worker.Idle? ||
    (&& |s.worker.rows| > 0 && HoldsRows(s.db, s.worker.rows)
     && (s.worker.Marked? ==> Excused(s.db, s.worker.rows[0].id)))
  }

  ghost predicate SentInv(s: Sys) {
    forall m :: 0 <= m < |s.sent| ==> IsCopy(s.db, s.sent[m])
  }

  /** HCM has seen only external ids of requests. */
  ghost predicate HcmInv(s: Sys) {
    forall x :: x in s.hcm.consumed ==> ExternalIdTaken(s.db.requests, x)
  }

  ghost predicate Inv(c: Config, s: Sys) {
    DbInv(c, s.db) && WorkerInv(s) && SentInv(s) && HcmInv(s)
  }
}
