/** Every step keeps the invariant, so every reachable state has it. */
module Safety {
  import opened Types
  import opened StateMachine
  import opened Tables
  import opened Ledger
  import opened Invariants
  import opened AuditTrail
  import opened BalanceIntegrity
  import opened Protocol

  lemma DbInvKept(c: Config, db: Db, ch: Change)
    requires c.Valid() && DbInv(c, db) && Allowed(c, db, ch)
    ensures DbInv(c, Apply(db, ch))
  {
    CoupledKept(c, db, ch);
    OwnedKept(c, db, ch);
    DistinctExternalsKept(c, db, ch);
    ExternalIffRowKept(c, db, ch);
    TrackedKept(c, db, ch);
    RetryBoundsKept(c, db, ch);
    ReplaysKept(c, db, ch);
    ChainedKept(c, db, ch);
    RowsCountedKept(c, db, ch);
    CoveredKept(c, db, ch);
    hide Allowed, Apply, Coupled, RowsOwned, DistinctExternals, ExternalIffRow, ApprovedTracked,
         RetryBounds, Replays, Chained, RowsCounted, Covered;
  }

  lemma EffectAllowed(c: Config, s: Sys, e: Event)
    requires Aligned(s.db) && WorkerInv(s) && Enabled(s, e)
    ensures Allowed(c, s.db, EffectOf(c, s, e).change)
  {
    hide CreateTx, ApproveTx, RejectTx, CancelTx, MarkTx, SnapshotTx, CanTransition, Effective, FindRequest, DueRows, LastRow;
    match e
    case Post(actor, _, input, id, corr, _) => CreateAllowed(c, s.db, actor, input, id, corr, s.clock);
    case Approve(actor, id, newExt) => UserMovesAllowed(c, s.db, actor, id, newExt, None, s.clock);
    case Reject(actor, id, reason) => UserMovesAllowed(c, s.db, actor, id, id, reason, s.clock);
    case Cancel(actor, id) => UserMovesAllowed(c, s.db, actor, id, id, None, s.clock);
    case ApplySnapshot(k, balance, asOf) => SnapshotAllowed(c, s.db, k, balance, asOf, s.clock);
    case Escalate(id, text) => MarkAllowed(c, s.db, id, ReviewRequired, Some(text), s.clock);
    case BalanceReply(_, _, _) => ReplyAllowed(c, s, e);
    case ConsumeReply(_, _, _) => ReplyAllowed(c, s, e);
    case _ =>
  }

  lemma ReplyAllowed(c: Config, s: Sys, e: Event)
    requires Aligned(s.db) && WorkerInv(s) && Enabled(s, e) && (e.BalanceReply? || e.ConsumeReply?)
    ensures Allowed(c, s.db, EffectOf(c, s, e).change)
  {
    hide MarkTx, CanTransition, Effective, FindRequest, DueRows, LastRow;
    var id := s.worker.rows[0].requestId;
    HeldIsLive(s);
    MarkAllowed(c, s.db, id, ReviewRequired, Some(e.text), s.clock);
    MarkAllowed(c, s.db, id, RequestState.Consumed, None, s.clock);
    MarkAllowed(c, s.db, id, HcmFailed, Some(e.text), s.clock);
  }

  lemma HeldIsLive(s: Sys)
    requires WorkerInv(s) && !s.worker.Idle?
    ensures |s.worker.rows| > 0 && s.worker.rows[0].id < |s.db.outbox| && Live(s.db.outbox[s.worker.rows[0].id])
  {
  }

  // ----- Memory of the worker and messages on the wire -----

  lemma CopyKept(db: Db, ch: Change, row: Claimed)
    requires Aligned(db) && IsCopy(db, row)
    ensures IsCopy(Apply(db, ch), row)
  {
    RowsKept(db, ch);
  }

  /** A row stays live unless its own handling is completed. */
  lemma LiveKept(db: Db, ch: Change, r: nat)
    requires Aligned(db) && r < |db.outbox| && Live(db.outbox[r])
    requires (ch.Finish? || ch.Retry?) ==> ch.row != r
    ensures r < |Apply(db, ch).outbox| && Live(Apply(db, ch).outbox[r])
  {
  }

  lemma ExcusedKept(c: Config, db: Db, ch: Change, r: nat)
    requires Coupled(db) && Allowed(c, db, ch) && r < |db.outbox| && Excused(db, r)
    ensures r < |Apply(db, ch).outbox| && Excused(Apply(db, ch), r)
  {
    var db' := Apply(db, ch);
    CoupledKept(c, db, ch);
    RowsKept(db, ch);
    var id := db.outbox[r].requestId;
    FindKept(db.requests, db'.requests, id);
    hide Allowed, CanTransition;
    if !ch.Move? {
      LastRowKept(db.outbox, db'.outbox, id);
    } else if |db'.outbox| > |db.outbox| {
      assert db'.outbox[..|db.outbox|] == db.outbox;
    }
  }

  lemma HoldsKept(c: Config, db: Db, ch: Change, rows: seq<Claimed>)
    requires Aligned(db) && HoldsRows(db, rows)
    requires (ch.Finish? || ch.Retry?) ==> forall j :: 0 <= j < |rows| ==> rows[j].id != ch.row
    ensures HoldsRows(Apply(db, ch), rows)
  {
    forall j | 0 <= j < |rows| ensures IsCopy(Apply(db, ch), rows[j]) && Live(Apply(db, ch).outbox[rows[j].id]) {
      assert IsCopy(db, rows[j]) && Live(db.outbox[rows[j].id]);
      CopyKept(db, ch, rows[j]);
      LiveKept(db, ch, rows[j].id);
    }
  }

  /** Once a request is marked, or refuses to be, its row may be closed. */
  lemma MarkedIsExcused(c: Config, db: Db, r: nat, to: RequestState, error: Option<string>, now: Time)
    requires Coupled(db) && RowsOwned(db) && r < |db.outbox| && to in {ReviewRequired, RequestState.Consumed, HcmFailed}
    ensures var tx := MarkTx(db, db.outbox[r].requestId, to, error, now);
            var db' := Apply(db, ChangeOf(tx));
            r < |db'.outbox| && Excused(db', r)
  {
    hide Allowed, DistinctIds, Matches, LastRow, FindRequest;
    var id := db.outbox[r].requestId;
    var ch := ChangeOf(MarkTx(db, id, to, error, now));
    assert Owned(db.requests, db.outbox[r]);
    MarkAllowed(c, db, id, to, error, now);
    CoupledKept(c, db, ch);
    RowsKept(db, ch);
    FindKept(db.requests, Apply(db, ch).requests, id);
  }

  lemma WorkerKept(c: Config, s: Sys, e: Event)
    requires Coupled(s.db) && RowsOwned(s.db) && WorkerInv(s) && Enabled(s, e)
    ensures WorkerInv(Next(c, s, e))
  {
    hide CreateTx, ApproveTx, RejectTx, CancelTx, MarkTx, SnapshotTx, Apply, Allowed, HoldsRows, Excused, RowsOwned;
    var s' := Next(c, s, e);
    if s.worker.Idle? {
      if e.Tick? { TickHolds(c, s); }
    } else if !s'.worker.Idle? {
      HandOver(c, s, e);
      if s'.worker.Marked? {
        MarkedKept(c, s, e);
      }
    }
  }

  lemma TickHolds(c: Config, s: Sys)
    requires Aligned(s.db) && s.worker.Idle?
    ensures WorkerInv(Next(c, s, Tick))
  {
    var ids := DueRows(s.db.outbox, s.clock, c.batchSize, 0);
    var rows := ClaimedRows(s.db.outbox, ids);
    var db' := Next(c, s, Tick).db;
    forall j | 0 <= j < |rows| ensures IsCopy(db', rows[j]) && Live(db'.outbox[rows[j].id]) {
      assert ids[j] in ids;
    }
  }

  /** What a step does to the rows in the worker's memory. */
  lemma WorkerShape(c: Config, s: Sys, e: Event)
    requires WorkerInv(s) && Enabled(s, e) && !s.worker.Idle?
    ensures var f := EffectOf(c, s, e);
            var w := f.rest.worker;
            w.Idle?
            || (w.rows == s.worker.rows && !f.change.Finish? && !f.change.Retry?)
            || (|s.worker.rows| > 1 && w.rows == s.worker.rows[1..] && !w.Marked?
                && (f.change.Finish? || f.change.Retry? ==> f.change.row == s.worker.rows[0].id))
  {
    TxKinds(s.db, e, s.clock);
    if |s.worker.rows| > 0 {
      MarkKinds(s.db, s.worker.rows[0].requestId, s.clock);
    }
    hide CreateTx, ApproveTx, RejectTx, CancelTx, MarkTx, SnapshotTx, HoldsRows, Excused;
  }

  /** The rows still held after a step are held copies of live rows. */
  lemma HandOver(c: Config, s: Sys, e: Event)
    requires Aligned(s.db) && WorkerInv(s) && Enabled(s, e) && !s.worker.Idle? && !Next(c, s, e).worker.Idle?
    ensures HoldsRows(Next(c, s, e).db, Next(c, s, e).worker.rows) && |Next(c, s, e).worker.rows| > 0
  {
    WorkerShape(c, s, e);
    var ch := EffectOf(c, s, e).change;
    var rows := s.worker.rows;
    var rows' := Next(c, s, e).worker.rows;
    hide EffectOf, Apply, IsCopy, Live, Excused;
    assert HoldsRows(s.db, rows');
    HoldsKept(c, s.db, ch, rows');
  }

  /** Service transactions never write outbox status columns. */
  lemma TxKinds(db: Db, e: Event, now: Time)
    ensures e.Post? ==> var ch := ChangeOf(CreateTx(db, e.actor, e.input, e.id, e.corr, now)); ch.Nothing? || ch.Insert?
    ensures e.Approve? ==> var ch := ChangeOf(ApproveTx(db, e.actor, e.id, e.newExt, now)); ch.Nothing? || ch.Move?
    ensures e.Reject? ==> var ch := ChangeOf(RejectTx(db, e.actor, e.id, e.reason, now)); ch.Nothing? || ch.Move?
    ensures e.Cancel? ==> var ch := ChangeOf(CancelTx(db, e.actor, e.id, now)); ch.Nothing? || ch.Move?
    ensures e.ApplySnapshot? ==> var ch := ChangeOf(SnapshotTx(db, e.k, e.balance, e.asOf, now)); ch.Nothing? || ch.Snapshot?
    ensures e.Escalate? ==> var ch := ChangeOf(MarkTx(db, e.id, ReviewRequired, Some(e.text), now)); ch.Nothing? || ch.Move?
  {
  }

  lemma MarkKinds(db: Db, id: Id, now: Time)
    ensures forall to, error :: var ch := ChangeOf(MarkTx(db, id, to, error, now)); ch.Nothing? || (ch.Move? && ch.to == to)
  {
  }

  lemma MarkedKept(c: Config, s: Sys, e: Event)
    requires Coupled(s.db) && RowsOwned(s.db) && WorkerInv(s) && Enabled(s, e) && !s.worker.Idle?
    requires Next(c, s, e).worker.Marked?
    ensures |Next(c, s, e).worker.rows| > 0
    ensures Next(c, s, e).worker.rows[0].id < |Next(c, s, e).db.outbox| && Excused(Next(c, s, e).db, Next(c, s, e).worker.rows[0].id)
  {
    hide CreateTx, ApproveTx, RejectTx, CancelTx, MarkTx, SnapshotTx, Apply, Allowed, Excused, Matches, DistinctIds, RowsOwned,
         IsCopy, Live;
    HeldIsCopy(s);
    EffectAllowed(c, s, e);
    var ch := EffectOf(c, s, e).change;
    var r := s.worker.rows[0].id;
    if e.BalanceReply? {
      MarkedIsExcused(c, s.db, r, ReviewRequired, Some(e.text), s.clock);
    } else if e.ConsumeReply? {
      MarkedIsExcused(c, s.db, r, RequestState.Consumed, None, s.clock);
      MarkedIsExcused(c, s.db, r, HcmFailed, Some(e.text), s.clock);
    } else {
      MarkedStays(c, s, e);
      ExcusedKept(c, s.db, ch, r);
    }
  }

  lemma HeldIsCopy(s: Sys)
    requires WorkerInv(s) && !s.worker.Idle?
    ensures |s.worker.rows| > 0
    ensures var row := s.worker.rows[0];
            row.id < |s.db.outbox| && row.requestId == s.db.outbox[row.id].requestId && row.payload == s.db.outbox[row.id].payload
  {
    assert IsCopy(s.db, s.worker.rows[0]);
  }

  lemma MarkedStays(c: Config, s: Sys, e: Event)
    requires WorkerInv(s) && Enabled(s, e) && !s.worker.Idle? && EffectOf(c, s, e).rest.worker.Marked?
    requires !e.BalanceReply? && !e.ConsumeReply?
    ensures EffectOf(c, s, e).rest.worker == s.worker
  {
    hide CreateTx, ApproveTx, RejectTx, CancelTx, MarkTx, SnapshotTx, HoldsRows, Excused;
  }

  lemma SentKept(c: Config, s: Sys, e: Event)
    requires Aligned(s.db) && WorkerInv(s) && SentInv(s) && Enabled(s, e)
    ensures SentInv(Next(c, s, e))
  {
    hide EffectOf, Apply, IsCopy, Live, Excused;
    var s' := Next(c, s, e);
    SentGrows(c, s, e);
    forall m | 0 <= m < |s'.sent| ensures IsCopy(s'.db, s'.sent[m]) {
      assert IsCopy(s.db, s'.sent[m]);
      CopyKept(s.db, EffectOf(c, s, e).change, s'.sent[m]);
    }
  }

  /** Only the row in hand is ever put on the wire. */
  lemma SentGrows(c: Config, s: Sys, e: Event)
    requires Enabled(s, e)
    ensures var sent' := EffectOf(c, s, e).rest.sent;
            || sent' == s.sent
            || (s.worker.AwaitBalance? && |s.worker.rows| > 0 && sent' == s.sent + [s.worker.rows[0]])
  {
    hide CreateTx, ApproveTx, RejectTx, CancelTx, MarkTx, SnapshotTx;
  }

  // ----- What HCM has seen -----

  lemma ExternalTakenKept(c: Config, db: Db, ch: Change, x: Id)
    requires Aligned(db) && Allowed(c, db, ch) && ExternalIdTaken(db.requests, x)
    ensures ExternalIdTaken(Apply(db, ch).requests, x)
  {
    var i :| 0 <= i < |db.requests| && db.requests[i].externalRequestId == Some(x);
    assert Apply(db, ch).requests[i].externalRequestId == Some(x);
  }

  /** HCM learns an external id only from a copy of an outbox row. */
  lemma ConsumedIsTaken(s: Sys, m: nat)
    requires RowsOwned(s.db) && SentInv(s) && m < |s.sent|
    ensures ExternalIdTaken(s.db.requests, s.sent[m].payload.externalRequestId)
  {
    assert IsCopy(s.db, s.sent[m]);
    assert Owned(s.db.requests, s.db.outbox[s.sent[m].id]);
  }

  lemma HcmSeenKept(c: Config, s: Sys, e: Event)
    requires Coupled(s.db) && RowsOwned(s.db) && WorkerInv(s) && SentInv(s) && HcmInv(s) && Enabled(s, e)
    ensures forall x :: x in Next(c, s, e).hcm.consumed ==> ExternalIdTaken(Next(c, s, e).db.requests, x)
  {
    var ch := EffectOf(c, s, e).change;
    EffectAllowed(c, s, e);
    if e.HcmProcess? { ConsumedIsTaken(s, e.m); }
    HcmOnlySees(c, s, e);
    hide EffectOf, Apply, Allowed, ExternalIdTaken;
    forall x | x in Next(c, s, e).hcm.consumed ensures ExternalIdTaken(Next(c, s, e).db.requests, x) {
      ExternalTakenKept(c, s.db, ch, x);
    }
  }

  lemma HcmOnlySees(c: Config, s: Sys, e: Event)
    requires Enabled(s, e)
    ensures var seen := EffectOf(c, s, e).rest.hcm.consumed;
            s.hcm.consumed <= seen <=
            s.hcm.consumed + if e.HcmProcess? then {s.sent[e.m].payload.externalRequestId} else {}
  {
  }

  /** A request becomes CONSUMED only when the worker holds HCM's acceptance of its external id. */
  lemma ConsumedOnlyOnAcceptance(c: Config, s: Sys, e: Event)
    requires WorkerInv(s) && Enabled(s, e)
    ensures var ch := EffectOf(c, s, e).change;
            ch.Move? && ch.to == RequestState.Consumed ==>
              && e.ConsumeReply? && e.reply == Accepted
              && FindRequest(s.db.requests, s.worker.rows[0].requestId) == Some(ch.i)
  {
    hide CreateTx, ApproveTx, RejectTx, CancelTx, SnapshotTx, HoldsRows, Excused;
    UserTargets(s.db, e, s.clock);
    hide MarkTx;
    if e.ConsumeReply? || e.BalanceReply? {
      MarkTarget(s.db, s.worker.rows[0].requestId, s.clock);
    }
    if e.Escalate? {
      MarkTarget(s.db, e.id, s.clock);
    }
  }

  lemma UserTargets(db: Db, e: Event, now: Time)
    ensures e.Post? ==> !ChangeOf(CreateTx(db, e.actor, e.input, e.id, e.corr, now)).Move?
    ensures e.Approve? ==> var ch := ChangeOf(ApproveTx(db, e.actor, e.id, e.newExt, now)); ch.Move? ==> ch.to == Approved
    ensures e.Reject? ==> var ch := ChangeOf(RejectTx(db, e.actor, e.id, e.reason, now)); ch.Move? ==> ch.to == Rejected
    ensures e.Cancel? ==> var ch := ChangeOf(CancelTx(db, e.actor, e.id, now)); ch.Move? ==> ch.to == Cancelled
    ensures e.ApplySnapshot? ==> !ChangeOf(SnapshotTx(db, e.k, e.balance, e.asOf, now)).Move?
  {
  }

  lemma MarkTarget(db: Db, id: Id, now: Time)
    ensures forall to, error :: var ch := ChangeOf(MarkTx(db, id, to, error, now));
              ch.Nothing? || (ch.Move? && ch.to == to && FindRequest(db.requests, id) == Some(ch.i))
  {
  }

  // ----- The invariant -----

  lemma InvKept(c: Config, s: Sys, e: Event)
    requires c.Valid() && Inv(c, s) && Enabled(s, e)
    ensures Inv(c, Next(c, s, e))
  {
    EffectAllowed(c, s, e);
    DbInvKept(c, s.db, EffectOf(c, s, e).change);
    WorkerKept(c, s, e);
    SentKept(c, s, e);
    HcmSeenKept(c, s, e);
    hide EffectOf, Apply, DbInv, WorkerInv, SentInv, Allowed;
  }

  lemma InitInv(c: Config, s: Sys)
    requires Init(s)
    ensures Inv(c, s)
  {
  }

  lemma {:induction false} ExecKeepsInv(c: Config, s: Sys, run: seq<Event>)
    requires c.Valid() && Inv(c, s) && Exec(c, s, run).Some?
    ensures Inv(c, Exec(c, s, run).value)
  {
    if |run| > 0 {
      ExecKeepsInv(c, s, run[..|run| - 1]);
      InvKept(c, Exec(c, s, run[..|run| - 1]).value, run[|run| - 1]);
    }
  }

  /** Every state of every run, whatever the interleaving and the crash points, satisfies the invariant. */
  lemma RunInv(c: Config, s0: Sys, run: seq<Event>)
    requires c.Valid() && Init(s0) && Exec(c, s0, run).Some?
    ensures Inv(c, Exec(c, s0, run).value)
  {
    InitInv(c, s0);
    ExecKeepsInv(c, s0, run);
  }

  lemma ExecOne(c: Config, s: Sys, e: Event)
    requires Aligned(s.db) && Enabled(s, e)
    ensures Exec(c, s, [e]) == Some(Next(c, s, e))
  {
    assert [e][..0] == [];
  }

  lemma ExecMore(c: Config, s: Sys, run: seq<Event>, t: Sys, e: Event)
    requires Aligned(s.db) && Exec(c, s, run) == Some(t) && Enabled(t, e)
    ensures Exec(c, s, run + [e]) == Some(Next(c, t, e))
  {
    assert (run + [e])[..|run|] == run;
  }

  /** Runs compose. */
  lemma {:induction false} ExecConcat(c: Config, s: Sys, a: seq<Event>, b: seq<Event>)
    requires Aligned(s.db)
    ensures Exec(c, s, a + b) == match Exec(c, s, a) case None => None case Some(t) => Exec(c, t, b)
  {
    if |b| == 0 {
      assert a + b == a;
    } else {
      assert (a + b)[..|a + b| - 1] == a + b[..|b| - 1];
      ExecConcat(c, s, a, b[..|b| - 1]);
      hide Next, Enabled;
    }
  }
}
