/** What ticks do when HCM answers every call at once and nothing interferes (hcm-outbox.worker.js). */
module Drain {
  import opened Types
  import opened Backoff
  import opened Tables
  import opened Ledger
  import opened Invariants
  import opened Protocol
  import opened Safety
  import opened HcmDebits

  // ----- The prompt HCM -----

  /** HCM accepts what it debits or has debited before, and refuses the rest for good. */
  function PromptReply(h: Hcm, p: Payload): Reply {
    if p.externalRequestId in Consume(h, p).consumed then Accepted else PermanentError
  }

  /** The events of handling one row: both calls answered at once, then the bookkeeping. */
  function RowScript(s: Sys, random: real, text: string): seq<Event>
    requires s.worker.AwaitBalance? && |s.worker.rows| > 0
  {
    var row := s.worker.rows[0];
    var view := HcmBalance(s.hcm, row.payload.key);
    var reply := PromptReply(s.hcm, row.payload);
    [BalanceReply(Some(view), random, text)]
    + if view < row.payload.days as real then
        (if MarkTx(s.db, row.requestId, ReviewRequired, Some(text), s.clock).Committed? then [MarkDone] else [])
      else
        [HcmProcess(|s.sent|), ConsumeReply(reply, random, text)]
        + if reply == Accepted && MarkTx(s.db, row.requestId, RequestState.Consumed, None, s.clock).RolledBack?
          then [] else [MarkDone]
  }

  function RowsScript(c: Config, s: Sys, n: nat, random: real, text: string): seq<Event>
    requires Aligned(s.db)
    decreases n
  {
    if n == 0 || !s.worker.AwaitBalance? || |s.worker.rows| == 0 then []
    else
      var first := RowScript(s, random, text);
      match Exec(c, s, first)
      case None => first
      case Some(t) => first + RowsScript(c, t, n - 1, random, text)
  }

  /** One tick: claim, then handle the claimed rows in turn. */
  function TickScript(c: Config, s: Sys, random: real, text: string): seq<Event>
    requires Aligned(s.db)
  {
    var t := Next(c, s, Tick);
    [Tick] + if t.worker.AwaitBalance? then RowsScript(c, t, |t.worker.rows|, random, text) else []
  }

  function TicksScript(c: Config, s: Sys, n: nat, random: real, text: string): seq<Event>
    requires Aligned(s.db)
    decreases n
  {
    if n == 0 then []
    else
      var first := TickScript(c, s, random, text);
      match Exec(c, s, first)
      case None => first
      case Some(t) => first + TicksScript(c, t, n - 1, random, text)
  }

  // ----- When all is well -----

  predicate InRange(o: seq<OutboxRow>, ids: seq<nat>) { forall j :: 0 <= j < |ids| ==> ids[j] < |o| }

  function Ask(row: OutboxRow, k: Key): int { if row.payload.key == k then row.payload.days else 0 }

  /** The days these rows ask of a key. */
  function Asked(o: seq<OutboxRow>, ids: seq<nat>, k: Key): int
    requires InRange(o, ids)
  {
    if |ids| == 0 then 0 else Ask(o[ids[0]], k) + Asked(o, ids[1..], k)
  }

  ghost predicate Serviceable(rs: seq<Request>, row: OutboxRow) {
    var f := FindRequest(rs, row.requestId);
    f.Some? && rs[f.value].state in {Approved, RequestState.Consumed}
  }

  /** HCM has the days asked of a key; of a key of which nothing is asked it may show anything. */
  predicate Holds(h: Hcm, k: Key, days: int) { days > 0 ==> HcmBalance(h, k) >= days as real }

  /** Every row's request is approved or consumed already, and HCM holds what the rows ask for. */
  ghost predicate Healthy(s: Sys, ids: seq<nat>) {
    && InRange(s.db.outbox, ids)
    && (forall j :: 0 <= j < |ids| ==> Serviceable(s.db.requests, s.db.outbox[ids[j]]))
    && (forall k :: Holds(s.hcm, k, Asked(s.db.outbox, ids, k)))
  }

  // ----- What is then achieved -----

  function Owners(o: seq<OutboxRow>, ids: seq<nat>): set<Id>
    requires InRange(o, ids)
  {
    set j | 0 <= j < |ids| :: o[ids[j]].requestId
  }

  function Externals(o: seq<OutboxRow>, ids: seq<nat>): set<Id>
    requires InRange(o, ids)
  {
    set j | 0 <= j < |ids| :: o[ids[j]].payload.externalRequestId
  }

  function DoneRow(row: OutboxRow, at: Time): OutboxRow {
    row.(status := Done, updatedAt := at, lastError := None)
  }

  /** Exactly these rows are DONE, exactly their requests and reservations CONSUMED, exactly their ids seen by HCM, in this order. */
  ghost predicate Drained(s: Sys, t: Sys, ids: seq<nat>) {
    && InRange(s.db.outbox, ids)
    && RowsDrained(s.db.outbox, t.db.outbox, ids, s.clock)
    && RequestsDrained(s.db, t.db, Owners(s.db.outbox, ids))
    && t.hcm.consumed == s.hcm.consumed + Externals(s.db.outbox, ids)
    && Paid(s, t)
    && SentInOrder(s.sent, t.sent, ids)
    && t.clock == s.clock
  }

  /** Every HCM balance fell by exactly the days of the distinct requests it had not debited before. */
  ghost predicate Paid(s: Sys, t: Sys) {
    forall k :: HcmBalance(t.hcm, k) == HcmBalance(s.hcm, k) - (DebitedDays(t, k) - DebitedDays(s, k)) as real
  }

  /** The rows were submitted in this order. */
  predicate SentInOrder(a: seq<Claimed>, b: seq<Claimed>, ids: seq<nat>) {
    a <= b && |b| == |a| + |ids| && forall j :: 0 <= j < |ids| ==> b[|a| + j].id == ids[j]
  }

  predicate RowsDrained(o: seq<OutboxRow>, o': seq<OutboxRow>, ids: seq<nat>, at: Time) {
    && |o'| == |o|
    && forall r :: 0 <= r < |o| ==> o'[r] == if r in ids then DoneRow(o[r], at) else o[r]
  }

  ghost predicate RequestsDrained(a: Db, b: Db, owners: set<Id>) {
    && Coupled(a) && Coupled(b) && |b.requests| == |a.requests|
    && forall i :: 0 <= i < |a.requests| ==> RequestDrained(a, b, owners, i)
  }

  ghost predicate RequestDrained(a: Db, b: Db, owners: set<Id>, i: nat)
    requires Coupled(a) && Coupled(b) && i < |a.requests| && i < |b.requests|
  {
    && b.requests[i].id == a.requests[i].id
    && if a.requests[i].id in owners
       then b.requests[i].state == RequestState.Consumed && b.reservations[i].state == ReservationState.Consumed
       else b.requests[i] == a.requests[i] && b.reservations[i] == a.reservations[i]
  }

  // ----- One row -----

  lemma {:induction false} AskedNonNegative(o: seq<OutboxRow>, ids: seq<nat>, k: Key)
    requires InRange(o, ids) && forall r :: 0 <= r < |o| ==> o[r].payload.days >= 1
    ensures Asked(o, ids, k) >= 0
  {
    if |ids| > 0 {
      AskedNonNegative(o, ids[1..], k);
    }
  }

  lemma DaysPositive(db: Db)
    requires Coupled(db) && RowsOwned(db)
    ensures forall r :: 0 <= r < |db.outbox| ==> db.outbox[r].payload.days >= 1
  {
    forall r | 0 <= r < |db.outbox| ensures db.outbox[r].payload.days >= 1 {
      assert Owned(db.requests, db.outbox[r]);
      var i := FindRequest(db.requests, db.outbox[r].requestId).value;
      assert Matches(db.requests[i], db.reservations[i]);
    }
  }

  /** The state after the first row in hand has been handled. */
  function AfterRow(s: Sys): Sys
    requires Aligned(s.db) && s.worker.AwaitBalance? && |s.worker.rows| > 0
  {
    var row := s.worker.rows[0];
    var marked := Apply(s.db, ChangeOf(MarkTx(s.db, row.requestId, RequestState.Consumed, None, s.clock)));
    Sys(Apply(marked, Finish(row.id, s.clock)), s.clock, s.idem, Holding(s.worker.rows[1..]), s.sent + [row],
        Consume(s.hcm, row.payload))
  }

  /** HCM's balance covers the row in hand. */
  lemma Covers(s: Sys, ids: seq<nat>)
    requires Coupled(s.db) && RowsOwned(s.db) && WorkerInv(s) && s.worker.AwaitBalance?
    requires |ids| > 0 && ids[0] == s.worker.rows[0].id && Healthy(s, ids)
    ensures var p := s.worker.rows[0].payload;
            HcmBalance(s.hcm, p.key) >= p.days as real && PromptReply(s.hcm, p) == Accepted
    ensures MarkTx(s.db, s.worker.rows[0].requestId, RequestState.Consumed, None, s.clock).Committed?
  {
    var row := s.worker.rows[0];
    assert IsCopy(s.db, row);
    DaysPositive(s.db);
    AskedNonNegative(s.db.outbox, ids[1..], row.payload.key);
    assert Holds(s.hcm, row.payload.key, Asked(s.db.outbox, ids, row.payload.key));
    assert Serviceable(s.db.requests, s.db.outbox[ids[0]]);
  }

  lemma RowRuns(c: Config, s: Sys, ids: seq<nat>, random: real, text: string)
    requires Coupled(s.db) && RowsOwned(s.db) && WorkerInv(s) && s.worker.AwaitBalance? && Jitter(random)
    requires |ids| > 0 && ids[0] == s.worker.rows[0].id && Healthy(s, ids)
    ensures Exec(c, s, RowScript(s, random, text)) == Some(AfterRow(s))
  {
    hide Healthy, Coupled, RowsOwned, HoldsRows, Consume, MarkTx, RetryChange, Apply, RowScript, Exec, HcmBalance;
    AlignedWhenCoupled(s.db);
    Covers(s, ids);
    AnyRowRuns(c, s, random, text);
  }

  // ----- One row, whatever its request and HCM -----

  /** HCM shows the days the row in hand asks for. */
  predicate Enough(s: Sys)
    requires s.worker.AwaitBalance? && |s.worker.rows| > 0
  {
    HcmBalance(s.hcm, s.worker.rows[0].payload.key) >= s.worker.rows[0].payload.days as real
  }

  function MarkInHand(s: Sys, text: string): Tx<Request>
    requires s.worker.AwaitBalance? && |s.worker.rows| > 0
  {
    if Enough(s) then MarkTx(s.db, s.worker.rows[0].requestId, RequestState.Consumed, None, s.clock)
    else MarkTx(s.db, s.worker.rows[0].requestId, ReviewRequired, Some(text), s.clock)
  }

  /** The state after the first row in hand has been handled. */
  function Handled(c: Config, s: Sys, random: real, text: string): (t: Sys)
    requires Aligned(s.db) && s.worker.AwaitBalance? && |s.worker.rows| > 0
    ensures Aligned(t.db)
  {
    var row := s.worker.rows[0];
    var tx := MarkInHand(s, text);
    var db := if tx.Committed? then Apply(Apply(s.db, tx.change), Finish(row.id, s.clock))
              else Apply(s.db, RetryChange(c, s.db.outbox, row.id, text, random, s.clock));
    if Enough(s) then Sys(db, s.clock, s.idem, Holding(s.worker.rows[1..]), s.sent + [row], Consume(s.hcm, row.payload))
    else Sys(db, s.clock, s.idem, Holding(s.worker.rows[1..]), s.sent, s.hcm)
  }

  lemma AnyRowRuns(c: Config, s: Sys, random: real, text: string)
    requires Aligned(s.db) && s.worker.AwaitBalance? && |s.worker.rows| > 0 && Jitter(random)
    ensures Exec(c, s, RowScript(s, random, text)) == Some(Handled(c, s, random, text))
  {
    if Enough(s) {
      EnoughRuns(c, s, random, text);
    } else {
      ShortRuns(c, s, random, text);
    }
  }

  lemma ShortRuns(c: Config, s: Sys, random: real, text: string)
    requires Aligned(s.db) && s.worker.AwaitBalance? && |s.worker.rows| > 0 && Jitter(random) && !Enough(s)
    ensures Exec(c, s, RowScript(s, random, text)) == Some(Handled(c, s, random, text))
  {
    hide MarkTx, RetryChange, Apply, Consume, HcmBalance, Exec, Next, Enabled;
    var e := BalanceReply(Some(HcmBalance(s.hcm, s.worker.rows[0].payload.key)), random, text);
    ShortStep(c, s, e);
    var t := Next(c, s, e);
    ExecOne(c, s, e);
    if MarkInHand(s, text).Committed? {
      ExecMore(c, s, [e], t, MarkDone);
      assert [e] + [MarkDone] == RowScript(s, random, text);
    } else {
      assert [e] == RowScript(s, random, text);
    }
  }

  lemma ShortStep(c: Config, s: Sys, e: Event)
    requires Aligned(s.db) && e.BalanceReply? && s.worker.AwaitBalance? && |s.worker.rows| > 0 && Jitter(e.random)
    requires e.view.Some? && e.view.value < s.worker.rows[0].payload.days as real
    ensures Enabled(s, e)
    ensures var tx := MarkTx(s.db, s.worker.rows[0].requestId, ReviewRequired, Some(e.text), s.clock);
            var t := Next(c, s, e);
            if tx.Committed? then
              && t == s.(db := Apply(s.db, tx.change), worker := Marked(s.worker.rows, false))
              && Enabled(t, MarkDone)
              && Next(c, t, MarkDone) == t.(db := Apply(t.db, Finish(s.worker.rows[0].id, s.clock)), worker := Holding(s.worker.rows[1..]))
            else
              t == s.(db := Apply(s.db, RetryChange(c, s.db.outbox, s.worker.rows[0].id, e.text, e.random, s.clock)),
                      worker := Holding(s.worker.rows[1..]))
  {
    hide MarkTx, RetryChange, Apply;
  }

  lemma EnoughRuns(c: Config, s: Sys, random: real, text: string)
    requires Aligned(s.db) && s.worker.AwaitBalance? && |s.worker.rows| > 0 && Jitter(random) && Enough(s)
    ensures Exec(c, s, RowScript(s, random, text)) == Some(Handled(c, s, random, text))
  {
    hide MarkTx, RetryChange, Apply, HcmBalance, Exec, Next, Enabled;
    var row := s.worker.rows[0];
    var e1 := BalanceReply(Some(HcmBalance(s.hcm, row.payload.key)), random, text);
    var e2, e3 := HcmProcess(|s.sent|), ConsumeReply(Accepted, random, text);
    var t1 := s.(worker := AwaitConsume(s.worker.rows), sent := s.sent + [row]);
    var t2 := t1.(hcm := Consume(s.hcm, row.payload));
    EnoughSteps(c, s, t1, t2, e1, e2, e3);
    ExecOne(c, s, e1);
    ExecMore(c, s, [e1], t1, e2);
    ExecMore(c, s, [e1] + [e2], t2, e3);
    AcceptedStep(c, t2, e3);
    if MarkInHand(s, text).Committed? {
      ExecMore(c, s, [e1] + [e2] + [e3], Next(c, t2, e3), MarkDone);
      assert [e1] + [e2] + [e3] + [MarkDone] == RowScript(s, random, text);
    } else {
      assert [e1] + [e2] + [e3] == RowScript(s, random, text);
    }
  }

  lemma EnoughSteps(c: Config, s: Sys, t1: Sys, t2: Sys, e1: Event, e2: Event, e3: Event)
    requires Aligned(s.db) && s.worker.AwaitBalance? && |s.worker.rows| > 0
    requires e1.BalanceReply? && e1.view.Some? && Jitter(e1.random) && e1.view.value >= s.worker.rows[0].payload.days as real
    requires e2 == HcmProcess(|s.sent|) && e3.ConsumeReply? && Jitter(e3.random)
    requires t1 == s.(worker := AwaitConsume(s.worker.rows), sent := s.sent + [s.worker.rows[0]])
    requires t2 == t1.(hcm := Consume(s.hcm, s.worker.rows[0].payload))
    ensures Enabled(s, e1) && Next(c, s, e1) == t1
    ensures Enabled(t1, e2) && Next(c, t1, e2) == t2
    ensures Enabled(t2, e3)
  {
    hide MarkTx, RetryChange, Consume;
    NothingWritten(s.db);
  }

  lemma AcceptedStep(c: Config, s: Sys, e: Event)
    requires Aligned(s.db) && Enabled(s, e) && e.ConsumeReply? && e.reply == Accepted
    ensures s.worker.AwaitConsume? && |s.worker.rows| > 0
    ensures var tx := MarkTx(s.db, s.worker.rows[0].requestId, RequestState.Consumed, None, s.clock);
            var t := Next(c, s, e);
            if tx.Committed? then
              && t == s.(db := Apply(s.db, tx.change), worker := Marked(s.worker.rows, false))
              && Enabled(t, MarkDone)
              && Next(c, t, MarkDone) == t.(db := Apply(t.db, Finish(s.worker.rows[0].id, s.clock)), worker := Holding(s.worker.rows[1..]))
            else
              t == s.(db := Apply(s.db, RetryChange(c, s.db.outbox, s.worker.rows[0].id, e.text, e.random, s.clock)),
                      worker := Holding(s.worker.rows[1..]))
  {
    hide MarkTx, RetryChange, Apply;
  }

  /** What handling a row makes of its request: the state it closes the row with, or none when the request refuses the mark. */
  function Verdict(state: RequestState, enough: bool): Option<RequestState> {
    if enough then (if state in {Approved, RequestState.Consumed} then Some(RequestState.Consumed) else None)
    else if state in {Approved, ReviewRequired} then Some(ReviewRequired)
    else None
  }

  /** How the row in hand, and its request i, must come out. */
  predicate ComesOut(c: Config, s: Sys, i: nat, row: OutboxRow, state: RequestState)
    requires s.worker.AwaitBalance? && |s.worker.rows| > 0 && i < |s.db.requests| && s.worker.rows[0].id < |s.db.outbox|
  {
    var was := s.db.outbox[s.worker.rows[0].id];
    match Verdict(s.db.requests[i].state, Enough(s))
    case Some(to) => state == to && row == DoneRow(was, s.clock)
    case None =>
      && state == s.db.requests[i].state
      && row.attempts == was.attempts + 1 && row.status == if was.attempts + 1 >= c.maxAttempts then Dead else RowStatus.Pending
  }

  /** Only this request and its reservation, and only this row, may differ. */
  predicate OthersKept(a: Db, b: Db, i: nat, r: nat) {
    && |b.requests| == |a.requests| && |b.reservations| == |a.reservations| && |b.outbox| == |a.outbox|
    && (forall j :: 0 <= j < |a.requests| ==> b.requests[j].id == a.requests[j].id && (j != i ==> b.requests[j] == a.requests[j]))
    && (forall j :: 0 <= j < |a.reservations| && j != i ==> b.reservations[j] == a.reservations[j])
    && (forall q :: 0 <= q < |a.outbox| && q != r ==> b.outbox[q] == a.outbox[q])
    && b.balances == a.balances
  }

  /**
   * Against a prompt HCM a row is closed with its request CONSUMED if HCM shows the days and the request is
   * APPROVED or CONSUMED, closed with it in REVIEW_REQUIRED if HCM does not and the request is APPROVED or
   * there already, and in every other case retried with the request left alone.
   */
  lemma RowOutcome(c: Config, s: Sys, random: real, text: string) returns (i: nat)
    requires Inv(c, s) && s.worker.AwaitBalance? && Jitter(random)
    ensures Aligned(s.db) && |s.worker.rows| > 0 && s.worker.rows[0].id < |s.db.outbox|
    ensures FindRequest(s.db.requests, s.worker.rows[0].requestId) == Some(i)
    ensures Exec(c, s, RowScript(s, random, text)) == Some(Handled(c, s, random, text))
    ensures var t := Handled(c, s, random, text);
            && OthersKept(s.db, t.db, i, s.worker.rows[0].id)
            && ComesOut(c, s, i, t.db.outbox[s.worker.rows[0].id], t.db.requests[i].state)
            && t.hcm == if Enough(s) then Consume(s.hcm, s.worker.rows[0].payload) else s.hcm
  {
    hide DbInv, SentInv, HcmInv, HoldsRows, Excused, Exec, RowScript, Consume, HcmBalance, FindRequest;
    InvParts(c, s);
    InHandIsOwned(c, s);
    HeldIsLive(s);
    AnyRowRuns(c, s, random, text);
    i := FindRequest(s.db.requests, s.worker.rows[0].requestId).value;
    OutcomeOfMark(c, s, i, random, text);
  }

  lemma OutcomeOfMark(c: Config, s: Sys, i: nat, random: real, text: string)
    requires Aligned(s.db) && s.worker.AwaitBalance? && |s.worker.rows| > 0 && s.worker.rows[0].id < |s.db.outbox|
    requires FindRequest(s.db.requests, s.worker.rows[0].requestId) == Some(i)
    ensures var t := Handled(c, s, random, text);
            && OthersKept(s.db, t.db, i, s.worker.rows[0].id)
            && ComesOut(c, s, i, t.db.outbox[s.worker.rows[0].id], t.db.requests[i].state)
  {
    hide FindRequest, Consume, HcmBalance, Enough, MarkInHand, RetryChange, Apply, OthersKept, Verdict;
    VerdictIsMark(s, i, text);
    var tx := MarkInHand(s, text);
    if tx.Committed? {
      ClosedOut(s.db, tx.change, i, s.worker.rows[0].id, s.clock);
    } else {
      RetriedOut(c, s.db, i, s.worker.rows[0].id, text, random, s.clock);
    }
  }

  /** The mark commits exactly when there is a verdict, and writes it. */
  lemma VerdictIsMark(s: Sys, i: nat, text: string)
    requires s.worker.AwaitBalance? && |s.worker.rows| > 0
    requires FindRequest(s.db.requests, s.worker.rows[0].requestId) == Some(i)
    ensures var tx, v := MarkInHand(s, text), Verdict(s.db.requests[i].state, Enough(s));
            && (tx.Committed? <==> v.Some?)
            && (tx.Committed? ==>
                  if s.db.requests[i].state == v.value then tx.change == Nothing
                  else tx.change.Move? && tx.change.i == i && tx.change.to == v.value && tx.change.to != Approved)
  {
    hide FindRequest, HcmBalance;
  }

  lemma ClosedOut(db: Db, ch: Change, i: nat, r: nat, at: Time)
    requires Aligned(db) && i < |db.requests| && r < |db.outbox|
    requires ch == Nothing || (ch.Move? && ch.i == i && ch.to != Approved)
    ensures var db' := Apply(Apply(db, ch), Finish(r, at));
            && OthersKept(db, db', i, r) && db'.outbox[r] == DoneRow(db.outbox[r], at)
            && db'.requests[i].state == if ch.Move? then ch.to else db.requests[i].state
  {
    hide Settled;
  }

  lemma RetriedOut(c: Config, db: Db, i: nat, r: nat, text: string, random: real, at: Time)
    requires Aligned(db) && i < |db.requests| && r < |db.outbox|
    ensures var db' := Apply(db, RetryChange(c, db.outbox, r, text, random, at));
            && OthersKept(db, db', i, r) && db'.requests == db.requests
            && db'.outbox[r].attempts == db.outbox[r].attempts + 1
            && db'.outbox[r].status == if db.outbox[r].attempts + 1 >= c.maxAttempts then Dead else RowStatus.Pending
  {
    hide ComputeBackoffMs;
  }

  // ----- A tick, whatever its rows -----

  /** The state after the first j rows in hand have been handled. */
  function Turn(c: Config, s: Sys, j: nat, random: real, text: string): (t: Sys)
    requires Aligned(s.db)
    ensures Aligned(t.db)
    decreases j
  {
    if j == 0 || !s.worker.AwaitBalance? || |s.worker.rows| == 0 then s
    else Turn(c, Handled(c, s, random, text), j - 1, random, text)
  }

  lemma HandledKeeps(c: Config, s: Sys, random: real, text: string)
    requires c.Valid() && Inv(c, s) && s.worker.AwaitBalance? && Jitter(random)
    ensures Aligned(s.db) && |s.worker.rows| > 0
    ensures var t := Handled(c, s, random, text);
            && Inv(c, t) && (if |s.worker.rows| == 1 then t.worker.Idle? else t.worker == AwaitBalance(s.worker.rows[1..]))
  {
    hide Inv, Exec, RowScript, Apply, RetryChange, Consume;
    InvParts(c, s);
    AnyRowRuns(c, s, random, text);
    ExecKeepsInv(c, s, RowScript(s, random, text));
  }

  lemma {:induction false} TurnsRun(c: Config, s: Sys, n: nat, random: real, text: string)
    requires c.Valid() && Inv(c, s) && Jitter(random)
    requires if n == 0 then s.worker.Idle? else s.worker.AwaitBalance? && |s.worker.rows| == n
    ensures Aligned(s.db) && Exec(c, s, RowsScript(c, s, n, random, text)) == Some(Turn(c, s, n, random, text))
    ensures Turn(c, s, n, random, text).worker.Idle? && Inv(c, Turn(c, s, n, random, text))
    decreases n
  {
    hide Inv, Exec, RowScript, Handled;
    InvParts(c, s);
    if n == 0 {
      ExecNone(c, s);
    } else {
      var t := Handled(c, s, random, text);
      HandledKeeps(c, s, random, text);
      AnyRowRuns(c, s, random, text);
      TurnsRun(c, t, n - 1, random, text);
      ExecConcat(c, s, RowScript(s, random, text), RowsScript(c, t, n - 1, random, text));
    }
  }

  /** Before turn j the rows from j on are in hand. */
  lemma {:induction false} TurnHolds(c: Config, s: Sys, j: nat, random: real, text: string)
    requires c.Valid() && Inv(c, s) && Jitter(random) && s.worker.AwaitBalance? && j < |s.worker.rows|
    ensures Aligned(s.db)
    ensures var u := Turn(c, s, j, random, text); Inv(c, u) && u.worker == AwaitBalance(s.worker.rows[j..])
    decreases j
  {
    hide Inv, Handled;
    InvParts(c, s);
    if j == 0 {
      assert s.worker.rows[0..] == s.worker.rows;
    } else {
      HandledKeeps(c, s, random, text);
      TurnHolds(c, Handled(c, s, random, text), j - 1, random, text);
      assert s.worker.rows[1..][j - 1..] == s.worker.rows[j..];
    }
  }

  lemma {:induction false} TurnTurn(c: Config, s: Sys, j: nat, k: nat, random: real, text: string)
    requires Aligned(s.db)
    ensures Turn(c, s, j + k, random, text) == Turn(c, Turn(c, s, j, random, text), k, random, text)
    decreases j
  {
    hide Handled;
    if j > 0 && s.worker.AwaitBalance? && |s.worker.rows| > 0 {
      TurnTurn(c, Handled(c, s, random, text), j - 1, k, random, text);
    }
  }

  /** What later rows are not about keeps, to the end of the tick, what its turn gave it. */
  lemma {:induction false} LaterTurnsLeave(c: Config, s: Sys, n: nat, i: nat, r: nat, random: real, text: string)
    requires c.Valid() && Inv(c, s) && Jitter(random)
    requires if n == 0 then s.worker.Idle? else s.worker.AwaitBalance? && |s.worker.rows| == n
    ensures Aligned(s.db)
    ensures var t := Turn(c, s, n, random, text);
            && |t.db.requests| == |s.db.requests| && |t.db.reservations| == |s.db.reservations| && |t.db.outbox| == |s.db.outbox|
            && (r < |s.db.outbox| && (forall m :: 0 <= m < n ==> s.worker.rows[m].id != r) ==> t.db.outbox[r] == s.db.outbox[r])
            && (i < |s.db.requests| && (forall m :: 0 <= m < n ==> s.worker.rows[m].requestId != s.db.requests[i].id) ==>
                  t.db.requests[i] == s.db.requests[i] && t.db.reservations[i] == s.db.reservations[i])
    decreases n
  {
    hide Inv, Handled, Exec, RowScript, ComesOut;
    InvParts(c, s);
    if n > 0 {
      var t := Handled(c, s, random, text);
      HandledKeeps(c, s, random, text);
      var own := RowOutcome(c, s, random, text);
      LaterTurnsLeave(c, t, n - 1, i, r, random, text);
      assert forall m :: 0 <= m < n - 1 ==> t.worker.rows[m] == s.worker.rows[m + 1];
    }
  }

  /**
   * A tick against a prompt HCM, whatever the balances and the requests: it ends with the worker idle,
   * and each claimed row comes out as its turn decides; so does its request, and for good unless a later row
   * of the tick is of the same request.
   */
  lemma TickOutcome(c: Config, s: Sys, j: nat, random: real, text: string) returns (u: Sys, t: Sys, own: nat)
    requires c.Valid() && Inv(c, s) && s.worker.Idle? && Jitter(random) && Aligned(s.db)
    requires Next(c, s, Tick).worker.AwaitBalance? && j < |Next(c, s, Tick).worker.rows|
    ensures Exec(c, s, TickScript(c, s, random, text)) == Some(t) && t.worker.Idle? && Inv(c, t)
    ensures u == Turn(c, Next(c, s, Tick), j, random, text) && u.worker == AwaitBalance(Next(c, s, Tick).worker.rows[j..])
    ensures TurnsOut(c, u, t, own, random, text)
  {
    hide Inv, Exec, Next, RowsScript, Turn, TurnsOut;
    var s1 := Next(c, s, Tick);
    t := Turn(c, s1, |s1.worker.rows|, random, text);
    InvKept(c, s, Tick);
    ExecOne(c, s, Tick);
    TurnsRun(c, s1, |s1.worker.rows|, random, text);
    ExecConcat(c, s, [Tick], RowsScript(c, s1, |s1.worker.rows|, random, text));
    u, own := TurnOut(c, s1, j, random, text);
  }

  /** Rows and requests of no claimed row are as the claim left them. */
  lemma TickLeaves(c: Config, s: Sys, i: nat, r: nat, random: real, text: string)
    requires c.Valid() && Inv(c, s) && s.worker.Idle? && Jitter(random) && Aligned(s.db) && Next(c, s, Tick).worker.AwaitBalance?
    ensures var s1 := Next(c, s, Tick);
            var x := Exec(c, s, TickScript(c, s, random, text));
            && x.Some? && |x.value.db.requests| == |s1.db.requests| && |x.value.db.outbox| == |s1.db.outbox|
            && (r < |s1.db.outbox| && (forall m :: 0 <= m < |s1.worker.rows| ==> s1.worker.rows[m].id != r) ==>
                  x.value.db.outbox[r] == s1.db.outbox[r])
            && (i < |s1.db.requests| && (forall m :: 0 <= m < |s1.worker.rows| ==> s1.worker.rows[m].requestId != s1.db.requests[i].id) ==>
                  x.value.db.requests[i] == s1.db.requests[i])
  {
    hide Inv, Exec, Next, RowsScript, Turn;
    var s1 := Next(c, s, Tick);
    InvKept(c, s, Tick);
    InvParts(c, s1);
    ExecOne(c, s, Tick);
    TurnsRun(c, s1, |s1.worker.rows|, random, text);
    ExecConcat(c, s, [Tick], RowsScript(c, s1, |s1.worker.rows|, random, text));
    LaterTurnsLeave(c, s1, |s1.worker.rows|, i, r, random, text);
  }

  /** Turn j's row and request at the end, given that the rows from j on are in hand. */
  ghost predicate TurnsOut(c: Config, u: Sys, t: Sys, own: nat, random: real, text: string) {
    && Aligned(u.db) && u.worker.AwaitBalance? && |u.worker.rows| > 0
    && u.worker.rows[0].id < |u.db.outbox| && u.worker.rows[0].id < |t.db.outbox|
    && FindRequest(u.db.requests, u.worker.rows[0].requestId) == Some(own) && own < |t.db.requests|
    && own < |Handled(c, u, random, text).db.requests|
    && ComesOut(c, u, own, t.db.outbox[u.worker.rows[0].id], Handled(c, u, random, text).db.requests[own].state)
    && (AloneIn(u.worker.rows) ==> ComesOut(c, u, own, t.db.outbox[u.worker.rows[0].id], t.db.requests[own].state))
  }

  /** No later row is of the same request as the first. */
  predicate AloneIn(rows: seq<Claimed>)
    requires |rows| > 0
  {
    forall m :: 0 < m < |rows| ==> rows[m].requestId != rows[0].requestId
  }

  lemma FirstTurnOut(c: Config, u: Sys, random: real, text: string) returns (own: nat)
    requires c.Valid() && Inv(c, u) && Jitter(random) && Aligned(u.db) && u.worker.AwaitBalance? && |u.worker.rows| > 0
    ensures TurnsOut(c, u, Turn(c, u, |u.worker.rows|, random, text), own, random, text)
  {
    hide Inv, Handled, Exec, RowScript, ComesOut, Turn, FindRequest;
    var n := |u.worker.rows|;
    var v := Handled(c, u, random, text);
    own := RowOutcome(c, u, random, text);
    OneTurn(c, u, n, random, text);
    HandledKeeps(c, u, random, text);
    LaterTurnsLeave(c, v, n - 1, own, u.worker.rows[0].id, random, text);
    RowsAscend(c, u);
    assert v.worker.AwaitBalance? ==> forall m :: 0 <= m < n - 1 ==> v.worker.rows[m] == u.worker.rows[m + 1];
  }

  lemma TurnOut(c: Config, s1: Sys, j: nat, random: real, text: string) returns (u: Sys, own: nat)
    requires c.Valid() && Inv(c, s1) && Jitter(random) && Aligned(s1.db) && s1.worker.AwaitBalance? && j < |s1.worker.rows|
    ensures u == Turn(c, s1, j, random, text) && u.worker == AwaitBalance(s1.worker.rows[j..])
    ensures TurnsOut(c, u, Turn(c, s1, |s1.worker.rows|, random, text), own, random, text)
  {
    hide Inv, Turn, TurnsOut;
    TurnHolds(c, s1, j, random, text);
    u := Turn(c, s1, j, random, text);
    own := FirstTurnOut(c, u, random, text);
    TurnTurn(c, s1, j, |s1.worker.rows| - j, random, text);
  }

  lemma OneTurn(c: Config, s: Sys, n: nat, random: real, text: string)
    requires Aligned(s.db) && s.worker.AwaitBalance? && |s.worker.rows| > 0 && n > 0
    ensures Turn(c, s, n, random, text) == Turn(c, Handled(c, s, random, text), n - 1, random, text)
  {
    hide Handled;
  }

  lemma RowsAscend(c: Config, s: Sys)
    requires Inv(c, s) && s.worker.AwaitBalance?
    ensures forall m :: 0 < m < |s.worker.rows| ==> s.worker.rows[m].id != s.worker.rows[0].id
  {
  }

  /** The row in hand is DONE, its request and reservation CONSUMED, and nothing else in the tables moved. */
  lemma RowTables(c: Config, s: Sys, ids: seq<nat>)
    requires Coupled(s.db) && RowsOwned(s.db) && WorkerInv(s) && s.worker.AwaitBalance?
    requires |ids| == 1 && ids[0] == s.worker.rows[0].id && InRange(s.db.outbox, ids)
    requires Serviceable(s.db.requests, s.db.outbox[ids[0]])
    ensures RowsDrained(s.db.outbox, AfterRow(s).db.outbox, ids, s.clock)
    ensures RequestsDrained(s.db, AfterRow(s).db, Owners(s.db.outbox, ids))
  {
    hide Allowed, Live, Excused, RowsOwned, LastRow, Effective;
    var id := s.worker.rows[0].requestId;
    assert IsCopy(s.db, s.worker.rows[0]);
    var ch := ChangeOf(MarkTx(s.db, id, RequestState.Consumed, None, s.clock));
    MarkAllowed(c, s.db, id, RequestState.Consumed, None, s.clock);
    CoupledKept(c, s.db, ch);
    var i := FindRequest(s.db.requests, id).value;
    assert Matches(s.db.requests[i], s.db.reservations[i]);
    assert Owners(s.db.outbox, ids) == {id};
    var db' := AfterRow(s).db;
    forall j | 0 <= j < |s.db.requests| ensures RequestDrained(s.db, db', {id}, j) {
      assert j == i || s.db.requests[j].id != id;
    }
  }

  /** HCM saw exactly this row's external id, and paid for it if it was new. */
  lemma RowHcm(c: Config, s: Sys, ids: seq<nat>, k: Key)
    requires Inv(c, s) && s.worker.AwaitBalance?
    requires |ids| > 0 && ids[0] == s.worker.rows[0].id && Healthy(s, ids)
    ensures AfterRow(s).hcm.consumed == s.hcm.consumed + Externals(s.db.outbox, ids[..1])
    ensures HcmBalance(AfterRow(s).hcm, k) == HcmBalance(s.hcm, k) - (DebitedDays(AfterRow(s), k) - DebitedDays(s, k)) as real
    ensures HcmBalance(AfterRow(s).hcm, k) >= HcmBalance(s.hcm, k) - Ask(s.db.outbox[ids[0]], k) as real
  {
    Covers(s, ids);
    DaysPositive(s.db);
    var row := s.worker.rows[0];
    assert IsCopy(s.db, row);
    assert Externals(s.db.outbox, ids[..1]) == {row.payload.externalRequestId};
    RowPays(c, s, k);
    hide Inv, Healthy, MarkTx, Externals, DebitedDays;
  }

  lemma RowPays(c: Config, s: Sys, k: Key)
    requires Inv(c, s) && s.worker.AwaitBalance? && PromptReply(s.hcm, s.worker.rows[0].payload) == Accepted
    ensures HcmBalance(AfterRow(s).hcm, k) == HcmBalance(s.hcm, k) - (DebitedDays(AfterRow(s), k) - DebitedDays(s, k)) as real
  {
    var row := s.worker.rows[0];
    assert IsCopy(s.db, row);
    var sent := s.(sent := s.sent + [row]);
    ProcessBalances(sent, |s.sent|, k);
    ConsumedIsTaken(sent, |s.sent|);
    var ch := ChangeOf(MarkTx(s.db, row.requestId, RequestState.Consumed, None, s.clock));
    MarkAllowed(c, s.db, row.requestId, RequestState.Consumed, None, s.clock);
    var h' := Consume(s.hcm, row.payload);
    assert h'.consumed <= s.hcm.consumed + {row.payload.externalRequestId};
    DebitedKept(c, s.db, ch, h'.consumed, k) by {
      hide Allowed, MarkTx, Consume, DbInv, WorkerInv, SentInv, ExternalIdTaken;
    }
    hide Inv, MarkTx, Consume, Allowed, HcmBalance, Apply;
    assert AfterRow(s).db.requests == Apply(s.db, ch).requests by { MarkThenFinish(s.db, ch, row.id, s.clock); }
  }

  lemma MarkThenFinish(db: Db, ch: Change, r: nat, at: Time)
    requires Aligned(db)
    ensures Apply(Apply(db, ch), Finish(r, at)).requests == Apply(db, ch).requests
  {
  }

  lemma {:induction false} AskedSame(o: seq<OutboxRow>, o': seq<OutboxRow>, ids: seq<nat>, k: Key)
    requires SameRows(o, o') && InRange(o, ids)
    ensures InRange(o', ids) && Asked(o', ids, k) == Asked(o, ids, k)
  {
    if |ids| > 0 {
      AskedSame(o, o', ids[1..], k);
    }
  }

  /** Rows stay serviceable while requests are consumed. */
  lemma StillServiceable(a: Db, b: Db, owners: set<Id>, o: OutboxRow, o': OutboxRow)
    requires RequestsDrained(a, b, owners) && Serviceable(a.requests, o) && o'.requestId == o.requestId
    ensures Serviceable(b.requests, o')
  {
    var i := FindRequest(a.requests, o.requestId).value;
    assert RequestDrained(a, b, owners, i);
    forall j | 0 <= j < |a.requests| ensures b.requests[j].id == a.requests[j].id {
      assert RequestDrained(a, b, owners, j);
    }
    FindKept(a.requests, b.requests, o.requestId);
  }

  lemma StillHealthy(s: Sys, t: Sys, owners: set<Id>, ids: seq<nat>)
    requires SameRows(s.db.outbox, t.db.outbox) && RequestsDrained(s.db, t.db, owners) && InRange(s.db.outbox, ids)
    requires forall j :: 0 <= j < |ids| ==> Serviceable(s.db.requests, s.db.outbox[ids[j]])
    requires forall k :: Holds(t.hcm, k, Asked(s.db.outbox, ids, k))
    ensures Healthy(t, ids)
  {
    hide Serviceable, RequestsDrained, Asked, HcmBalance;
    forall j | 0 <= j < |ids| ensures Serviceable(t.db.requests, t.db.outbox[ids[j]]) {
      StillServiceable(s.db, t.db, owners, s.db.outbox[ids[j]], t.db.outbox[ids[j]]);
    }
    forall k ensures Holds(t.hcm, k, Asked(t.db.outbox, ids, k)) {
      AskedSame(s.db.outbox, t.db.outbox, ids, k);
    }
  }

  lemma InvParts(c: Config, s: Sys)
    requires Inv(c, s)
    ensures Aligned(s.db) && Coupled(s.db) && (!s.worker.Idle? ==> |s.worker.rows| > 0)
  {
  }

  lemma RowTablesInv(c: Config, s: Sys, ids: seq<nat>)
    requires Inv(c, s) && s.worker.AwaitBalance? && |ids| > 0 && ids[0] == s.worker.rows[0].id && Healthy(s, ids)
    ensures RowsDrained(s.db.outbox, AfterRow(s).db.outbox, ids[..1], s.clock)
    ensures RequestsDrained(s.db, AfterRow(s).db, Owners(s.db.outbox, ids[..1]))
    ensures SameRows(s.db.outbox, AfterRow(s).db.outbox)
  {
    hide Coupled, RowsOwned, HoldsRows, RequestsDrained, Serviceable, AfterRow, Asked;
    RowTables(c, s, ids[..1]);
  }

  lemma AskIsPositive(c: Config, s: Sys, r: nat, k: Key)
    requires Inv(c, s) && r < |s.db.outbox|
    ensures Ask(s.db.outbox[r], k) >= 0
  {
    DaysPositive(s.db);
  }

  lemma RowPaid(c: Config, s: Sys, ids: seq<nat>)
    requires Inv(c, s) && s.worker.AwaitBalance? && |ids| > 0 && ids[0] == s.worker.rows[0].id && Healthy(s, ids)
    ensures Paid(s, AfterRow(s))
    ensures forall k :: Holds(AfterRow(s).hcm, k, Asked(s.db.outbox, ids[1..], k))
    ensures AfterRow(s).hcm.consumed == s.hcm.consumed + Externals(s.db.outbox, ids[..1])
  {
    hide DbInv, WorkerInv, SentInv, HcmInv, Serviceable, AfterRow, HcmBalance, DebitedDays, Externals;
    InvParts(c, s);
    var t := AfterRow(s);
    forall k
      ensures HcmBalance(t.hcm, k) == HcmBalance(s.hcm, k) - (DebitedDays(t, k) - DebitedDays(s, k)) as real
      ensures Holds(t.hcm, k, Asked(s.db.outbox, ids[1..], k))
    {
      RowHcm(c, s, ids, k);
      AskIsPositive(c, s, ids[0], k);
      assert Holds(s.hcm, k, Asked(s.db.outbox, ids, k));
    }
    RowHcm(c, s, ids, s.worker.rows[0].payload.key);
  }

  lemma RowDrains(c: Config, s: Sys, ids: seq<nat>)
    requires Inv(c, s) && s.worker.AwaitBalance?
    requires |ids| > 0 && ids[0] == s.worker.rows[0].id && Healthy(s, ids)
    ensures Drained(s, AfterRow(s), ids[..1])
    ensures Healthy(AfterRow(s), ids[1..])
  {
    hide Inv, RequestsDrained, RowsDrained, Serviceable, Asked, HcmBalance, Paid, Apply, MarkTx, Externals, Owners, SameRows;
    InvParts(c, s);
    RowTablesInv(c, s, ids);
    RowPaid(c, s, ids);
    StillHealthy(s, AfterRow(s), Owners(s.db.outbox, ids[..1]), ids[1..]);
  }

  // ----- Rows after rows -----

  lemma DrainedNothing(s: Sys)
    requires Coupled(s.db)
    ensures Drained(s, s, [])
  {
  }

  lemma RequestsDrainedThen(a: Db, b: Db, d: Db, p: set<Id>, q: set<Id>)
    requires RequestsDrained(a, b, p) && RequestsDrained(b, d, q)
    ensures RequestsDrained(a, d, p + q)
  {
    hide Coupled;
    forall i | 0 <= i < |a.requests| ensures RequestDrained(a, d, p + q, i) {
      assert RequestDrained(a, b, p, i) && RequestDrained(b, d, q, i);
    }
  }

  lemma SetsThen(o: seq<OutboxRow>, o': seq<OutboxRow>, p: seq<nat>, q: seq<nat>)
    requires SameRows(o, o') && |o'| == |o| && InRange(o, p) && InRange(o', q)
    ensures InRange(o, p + q)
    ensures Owners(o, p + q) == Owners(o, p) + Owners(o', q)
    ensures Externals(o, p + q) == Externals(o, p) + Externals(o', q)
  {
    var pq := p + q;
    assert forall j :: 0 <= j < |p| ==> pq[j] == p[j];
    assert forall j :: 0 <= j < |q| ==> pq[|p| + j] == q[j];
    forall x | x in Owners(o, p) + Owners(o', q) ensures x in Owners(o, pq) {
      if x in Owners(o, p) {
        var j :| 0 <= j < |p| && o[p[j]].requestId == x;
        assert o[pq[j]].requestId == x;
      } else {
        var j :| 0 <= j < |q| && o'[q[j]].requestId == x;
        assert o[pq[|p| + j]].requestId == x;
      }
    }
    forall x | x in Externals(o, p) + Externals(o', q) ensures x in Externals(o, pq) {
      if x in Externals(o, p) {
        var j :| 0 <= j < |p| && o[p[j]].payload.externalRequestId == x;
        assert o[pq[j]].payload.externalRequestId == x;
      } else {
        var j :| 0 <= j < |q| && o'[q[j]].payload.externalRequestId == x;
        assert o[pq[|p| + j]].payload.externalRequestId == x;
      }
    }
  }

  lemma DrainedThen(s: Sys, t: Sys, u: Sys, p: seq<nat>, q: seq<nat>)
    requires Drained(s, t, p) && Drained(t, u, q)
    ensures Drained(s, u, p + q)
  {
    SetsThen(s.db.outbox, t.db.outbox, p, q);
    RequestsDrainedThen(s.db, t.db, u.db, Owners(s.db.outbox, p), Owners(t.db.outbox, q));
    PaidThen(s, t, u);
    RowsThen(s.db.outbox, t.db.outbox, u.db.outbox, p, q, s.clock);
    SentThen(s.sent, t.sent, u.sent, p, q);
    hide RequestsDrained, RowsDrained, SentInOrder, Externals, Owners, Paid;
  }

  lemma RowsThen(a: seq<OutboxRow>, b: seq<OutboxRow>, d: seq<OutboxRow>, p: seq<nat>, q: seq<nat>, at: Time)
    requires RowsDrained(a, b, p, at) && RowsDrained(b, d, q, at)
    ensures RowsDrained(a, d, p + q, at)
  {
  }

  lemma SentThen(a: seq<Claimed>, b: seq<Claimed>, d: seq<Claimed>, p: seq<nat>, q: seq<nat>)
    requires SentInOrder(a, b, p) && SentInOrder(b, d, q)
    ensures SentInOrder(a, d, p + q)
  {
  }

  lemma PaidThen(s: Sys, t: Sys, u: Sys)
    requires Paid(s, t) && Paid(t, u)
    ensures Paid(s, u)
  {
    hide HcmBalance, DebitedDays;
    forall k ensures HcmBalance(u.hcm, k) == HcmBalance(s.hcm, k) - (DebitedDays(u, k) - DebitedDays(s, k)) as real {
      assert HcmBalance(t.hcm, k) == HcmBalance(s.hcm, k) - (DebitedDays(t, k) - DebitedDays(s, k)) as real;
    }
  }

  /** The worker holds the first n of these rows. */
  ghost predicate InHand(s: Sys, ids: seq<nat>, n: nat) {
    && s.worker.AwaitBalance? && |s.worker.rows| == n && 0 < n <= |ids|
    && forall j :: 0 <= j < n ==> s.worker.rows[j].id == ids[j]
  }

  /** What handling the rows in hand achieves. */
  ghost predicate RowsHandled(c: Config, s: Sys, ids: seq<nat>, n: nat, t: Sys)
    requires n <= |ids|
  {
    t.worker.Idle? && Inv(c, t) && Drained(s, t, ids[..n]) && Healthy(t, ids[n..])
  }

  lemma RowRunsInHand(c: Config, s: Sys, ids: seq<nat>, n: nat, random: real, text: string)
    requires Inv(c, s) && InHand(s, ids, n) && Healthy(s, ids) && Jitter(random)
    ensures Exec(c, s, RowScript(s, random, text)) == Some(AfterRow(s))
  {
    hide Healthy, RowScript, Exec, AfterRow, Coupled, RowsOwned, HoldsRows;
    RowRuns(c, s, ids, random, text);
  }

  lemma RowDrainsInHand(c: Config, s: Sys, ids: seq<nat>, n: nat)
    requires Inv(c, s) && InHand(s, ids, n) && Healthy(s, ids)
    ensures Drained(s, AfterRow(s), ids[..1]) && Healthy(AfterRow(s), ids[1..])
  {
    hide Healthy, AfterRow, Drained, Coupled, RowsOwned, HoldsRows;
    RowDrains(c, s, ids);
  }

  lemma NextInHand(s: Sys, ids: seq<nat>, n: nat)
    requires Aligned(s.db) && InHand(s, ids, n)
    ensures if n == 1 then AfterRow(s).worker.Idle? else InHand(AfterRow(s), ids[1..], n - 1)
  {
    hide Apply, MarkTx, Consume;
  }

  /** The row in hand is handled and the next one, if any, comes to hand. */
  lemma HandleOne(c: Config, s: Sys, ids: seq<nat>, n: nat, random: real, text: string)
    requires c.Valid() && Inv(c, s) && InHand(s, ids, n) && Healthy(s, ids) && Jitter(random)
    ensures var t := AfterRow(s);
            && Exec(c, s, RowScript(s, random, text)) == Some(t)
            && Inv(c, t) && Drained(s, t, ids[..1]) && Healthy(t, ids[1..])
            && (if n == 1 then t.worker.Idle? else InHand(t, ids[1..], n - 1))
  {
    hide Inv, Healthy, Drained, RowScript, Exec, AfterRow;
    InvParts(c, s);
    RowRunsInHand(c, s, ids, n, random, text);
    RowDrainsInHand(c, s, ids, n);
    NextInHand(s, ids, n);
    ExecKeepsInv(c, s, RowScript(s, random, text));
  }

  lemma {:induction false} RowsAreHandled(c: Config, s: Sys, ids: seq<nat>, n: nat, random: real, text: string)
    requires c.Valid() && Inv(c, s) && InHand(s, ids, n) && Healthy(s, ids) && Jitter(random)
    ensures var x := Exec(c, s, RowsScript(c, s, n, random, text)); x.Some? && RowsHandled(c, s, ids, n, x.value)
    decreases n
  {
    hide Inv, Healthy, Drained, RowScript, Exec, AfterRow;
    InvParts(c, s);
    var first := RowScript(s, random, text);
    var t := AfterRow(s);
    HandleOne(c, s, ids, n, random, text);
    var rest := RowsScript(c, t, n - 1, random, text);
    assert RowsScript(c, s, n, random, text) == first + rest;
    if n == 1 {
      assert first + rest == first;
    } else {
      RowsAreHandled(c, t, ids[1..], n - 1, random, text);
      ExecConcat(c, s, first, rest);
      var u := Exec(c, t, rest).value;
      DrainedThen(s, t, u, ids[..1], ids[1..][..n - 1]);
      assert ids[..1] + ids[1..][..n - 1] == ids[..n];
      assert ids[1..][n - 1..] == ids[n..];
    }
  }

  // ----- One tick -----

  /** All due rows, in ascending order. */
  function DueAll(s: Sys): seq<nat> { DueRows(s.db.outbox, s.clock, |s.db.outbox| + 1, 0) }

  function Cons(first: nat, rest: seq<nat>): seq<nat> { [first] + rest }

  function FirstOf(s: seq<nat>, m: nat): seq<nat> { if |s| < m then s else s[..m] }

  lemma DueRowsStep(o: seq<OutboxRow>, now: Time, m: int, from: nat)
    ensures DueRows(o, now, m, from) ==
            if from >= |o| || m <= 0 then []
            else if Due(o[from], now) then Cons(from, DueRows(o, now, m - 1, from + 1))
            else DueRows(o, now, m, from + 1)
  {
  }

  lemma FirstOfCons(first: nat, rest: seq<nat>, m: nat)
    ensures m > 0 ==> FirstOf(Cons(first, rest), m) == Cons(first, FirstOf(rest, m - 1))
    ensures FirstOf(Cons(first, rest), 0) == [] && FirstOf([], m) == []
  {
  }

  lemma {:induction false} DueRowsPrefix(o: seq<OutboxRow>, now: Time, m: nat, limit: nat, from: nat)
    requires from <= |o| && limit > |o| - from
    ensures DueRows(o, now, m, from) == FirstOf(DueRows(o, now, limit, from), m)
    decreases |o| - from
  {
    hide Due, DueRows, FirstOf, Cons;
    DueRowsStep(o, now, m, from);
    DueRowsStep(o, now, limit, from);
    if from == |o| {
      FirstOfCons(0, [], m);
    } else if !Due(o[from], now) {
      DueRowsPrefix(o, now, m, limit, from + 1);
    } else {
      FirstOfCons(from, DueRows(o, now, limit - 1, from + 1), m);
      if m > 0 { DueRowsPrefix(o, now, m - 1, limit - 1, from + 1); }
    }
  }

  lemma {:induction false} DueRowsComplete(o: seq<OutboxRow>, now: Time, limit: nat, from: nat)
    requires from <= |o| && limit > |o| - from
    ensures forall r :: from <= r < |o| && Due(o[r], now) ==> r in DueRows(o, now, limit, from)
    decreases |o| - from
  {
    if from < |o| {
      DueRowsComplete(o, now, if Due(o[from], now) then limit - 1 else limit, from + 1);
    }
  }

  /** The ascending positions of exactly the due rows from a position onwards. */
  ghost predicate ExactlyDue(o: seq<OutboxRow>, now: Time, from: nat, ids: seq<nat>) {
    && (forall j :: 0 <= j < |ids| ==> from <= ids[j] < |o| && Due(o[ids[j]], now))
    && (forall i, j :: 0 <= i < j < |ids| ==> ids[i] < ids[j])
    && (forall r :: from <= r < |o| && Due(o[r], now) ==> r in ids)
  }

  lemma ExactlyDueTail(o: seq<OutboxRow>, now: Time, from: nat, ids: seq<nat>)
    requires from < |o| && ExactlyDue(o, now, from, ids)
    ensures Due(o[from], now) ==> |ids| > 0 && ids == [from] + ids[1..] && ExactlyDue(o, now, from + 1, ids[1..])
    ensures !Due(o[from], now) ==> ExactlyDue(o, now, from + 1, ids)
  {
    hide Due;
    if Due(o[from], now) {
      var j :| 0 <= j < |ids| && ids[j] == from;
      assert from <= ids[0] <= ids[j];
      assert ids == [from] + ids[1..];
    } else {
      assert forall i :: 0 <= i < |ids| ==> ids[i] != from;
    }
  }

  lemma ExactlyDueStarts(o: seq<OutboxRow>, now: Time, from: nat, ids: seq<nat>)
    requires ExactlyDue(o, now, from, ids)
    ensures |ids| > 0 ==> from <= ids[0] < |o|
  {
  }

  lemma {:induction false} DueRowsExact(o: seq<OutboxRow>, now: Time, limit: nat, from: nat, ids: seq<nat>)
    requires from <= |o| && limit > |o| - from && ExactlyDue(o, now, from, ids)
    ensures DueRows(o, now, limit, from) == ids
    decreases |o| - from
  {
    hide Due, ExactlyDue;
    if from == |o| {
      ExactlyDueStarts(o, now, from, ids);
    } else {
      ExactlyDueTail(o, now, from, ids);
      if Due(o[from], now) {
        DueRowsExact(o, now, limit - 1, from + 1, ids[1..]);
      } else {
        DueRowsExact(o, now, limit, from + 1, ids);
      }
    }
  }

  lemma DueAllExact(s: Sys)
    ensures ExactlyDue(s.db.outbox, s.clock, 0, DueAll(s))
  {
    hide Due;
    DueRowsComplete(s.db.outbox, s.clock, |s.db.outbox| + 1, 0);
  }

  lemma StillDue(o: seq<OutboxRow>, o': seq<OutboxRow>, now: Time, ids: seq<nat>, m: nat)
    requires m <= |ids| && RowsDrained(o, o', ids[..m], now) && ExactlyDue(o, now, 0, ids)
    ensures ExactlyDue(o', now, 0, ids[m..])
  {
    hide DoneRow, ExactlyDue;
    StillDueRows(o, o', now, ids, m);
    StillAllDue(o, o', now, ids, m);
    assert ExactlyDue(o', now, 0, ids[m..]) by {
      Assemble(o', now, ids[m..]);
    }
  }

  lemma Assemble(o: seq<OutboxRow>, now: Time, ids: seq<nat>)
    requires forall j :: 0 <= j < |ids| ==> ids[j] < |o| && Due(o[ids[j]], now)
    requires forall i, j :: 0 <= i < j < |ids| ==> ids[i] < ids[j]
    requires forall r :: 0 <= r < |o| && Due(o[r], now) ==> r in ids
    ensures ExactlyDue(o, now, 0, ids)
  {
  }

  lemma StillDueRows(o: seq<OutboxRow>, o': seq<OutboxRow>, now: Time, ids: seq<nat>, m: nat)
    requires m <= |ids| && RowsDrained(o, o', ids[..m], now) && ExactlyDue(o, now, 0, ids)
    ensures forall j :: 0 <= j < |ids[m..]| ==> ids[m..][j] < |o'| && Due(o'[ids[m..][j]], now)
    ensures forall i, j :: 0 <= i < j < |ids[m..]| ==> ids[m..][i] < ids[m..][j]
  {
    hide Due, DoneRow;
    forall j | 0 <= j < |ids[m..]| ensures ids[m..][j] < |o'| && Due(o'[ids[m..][j]], now) {
      assert ids[m..][j] == ids[m + j];
      assert ids[m + j] !in ids[..m];
    }
  }

  lemma StillAllDue(o: seq<OutboxRow>, o': seq<OutboxRow>, now: Time, ids: seq<nat>, m: nat)
    requires m <= |ids| && RowsDrained(o, o', ids[..m], now) && ExactlyDue(o, now, 0, ids)
    ensures forall r :: 0 <= r < |o'| && Due(o'[r], now) ==> r in ids[m..]
  {
    forall r | 0 <= r < |o'| && Due(o'[r], now) ensures r in ids[m..] {
      assert r !in ids[..m];
      assert ids == ids[..m] + ids[m..];
    }
  }

  /** Once the first m due rows are DONE, the others are what is due. */
  lemma DueAfter(s: Sys, t: Sys, m: nat)
    requires m <= |DueAll(s)| && t.clock == s.clock
    requires RowsDrained(s.db.outbox, t.db.outbox, DueAll(s)[..m], s.clock)
    ensures DueAll(t) == DueAll(s)[m..]
  {
    hide ExactlyDue, RowsDrained;
    DueAllExact(s);
    hide DueRows;
    StillDue(s.db.outbox, t.db.outbox, s.clock, DueAll(s), m);
    DueRowsExact(t.db.outbox, s.clock, |t.db.outbox| + 1, 0, DueAll(s)[m..]);
  }

  /** How many of the due rows a tick takes. */
  function Take(c: Config, n: nat): nat
    requires c.Valid()
  {
    if n < c.batchSize then n else c.batchSize
  }

  lemma ClaimedPrefix(c: Config, s: Sys)
    requires c.Valid()
    ensures DueRows(s.db.outbox, s.clock, c.batchSize, 0) == DueAll(s)[..Take(c, |DueAll(s)|)]
  {
    hide Due;
    DueRowsPrefix(s.db.outbox, s.clock, c.batchSize, |s.db.outbox| + 1, 0);
    var ids := DueAll(s);
    assert ids[..|ids|] == ids;
  }

  lemma ClaimRowsOnly(o: seq<OutboxRow>, ids: seq<nat>, at: Time)
    ensures ClaimedOnly(o, ClaimRows(o, ids, at), ids)
    ensures ids == [] ==> ClaimRows(o, ids, at) == o
  {
  }

  lemma TickClaims(c: Config, s: Sys)
    requires c.Valid() && Aligned(s.db) && s.worker.Idle?
    ensures var s1 := Next(c, s, Tick);
            var ids := DueAll(s);
            && s1 == s.(db := s.db.(outbox := s1.db.outbox), worker := s1.worker)
            && ClaimedOnly(s.db.outbox, s1.db.outbox, ids[..Take(c, |ids|)])
            && (if |ids| == 0 then s1 == s else InHand(s1, ids, Take(c, |ids|)))
  {
    hide DueRows, Due, DueAll, ClaimRows, ClaimedOnly;
    ClaimedPrefix(c, s);
    ClaimRowsOnly(s.db.outbox, DueRows(s.db.outbox, s.clock, c.batchSize, 0), s.clock);
  }

  lemma TickStaysHealthy(s: Sys, s1: Sys, claimed: seq<nat>, ids: seq<nat>)
    requires Healthy(s, ids) && ClaimedOnly(s.db.outbox, s1.db.outbox, claimed)
    requires s1.db.requests == s.db.requests && s1.hcm == s.hcm
    ensures Healthy(s1, ids)
  {
    hide Asked;
    forall k ensures Holds(s1.hcm, k, Asked(s1.db.outbox, ids, k)) {
      AskedSame(s.db.outbox, s1.db.outbox, ids, k);
    }
  }

  /** Rows claimed, and others left alone. */
  predicate ClaimedOnly(o: seq<OutboxRow>, o': seq<OutboxRow>, ids: seq<nat>) {
    && |o'| == |o|
    && forall r :: 0 <= r < |o| ==>
         o'[r] == if r in ids then o[r].(status := Inflight, updatedAt := o'[r].updatedAt) else o[r]
  }

  /** Draining after a claim is draining. */
  lemma DrainedSinceClaim(s: Sys, s1: Sys, t: Sys, ids: seq<nat>)
    requires ClaimedOnly(s.db.outbox, s1.db.outbox, ids) && Drained(s1, t, ids)
    requires s1 == s.(db := s.db.(outbox := s1.db.outbox), worker := s1.worker)
    requires Coupled(s.db)
    ensures Drained(s, t, ids)
  {
    hide HcmBalance;
    assert Owners(s1.db.outbox, ids) == Owners(s.db.outbox, ids);
    assert Externals(s1.db.outbox, ids) == Externals(s.db.outbox, ids);
    forall k ensures DebitedDays(s1, k) == DebitedDays(s, k) {
    }
    assert Paid(s, t);
    forall i | 0 <= i < |s.db.requests| ensures RequestDrained(s.db, t.db, Owners(s.db.outbox, ids), i) {
      assert RequestDrained(s1.db, t.db, Owners(s.db.outbox, ids), i);
    }
  }

  /** What a number of ticks leaves: the first m of the due rows handled, the others still due and still serviceable. */
  ghost predicate TicksDone(c: Config, s: Sys, t: Sys, m: nat)
    requires m <= |DueAll(s)|
  {
    t.worker.Idle? && Inv(c, t) && Drained(s, t, DueAll(s)[..m]) && DueAll(t) == DueAll(s)[m..] && Healthy(t, DueAll(t))
  }

  lemma TickDrains(c: Config, s: Sys, random: real, text: string)
    requires c.Valid() && Inv(c, s) && s.worker.Idle? && Healthy(s, DueAll(s)) && Jitter(random)
    ensures var x := Exec(c, s, TickScript(c, s, random, text));
            x.Some? && TicksDone(c, s, x.value, Take(c, |DueAll(s)|))
  {
    hide Healthy, Drained, ClaimedOnly, RowsScript, Next, DueAll, Inv, RowsDrained;
    InvParts(c, s);
    var ids, m := DueAll(s), Take(c, |DueAll(s)|);
    var s1 := Next(c, s, Tick);
    TickClaims(c, s);
    InvKept(c, s, Tick);
    TickStaysHealthy(s, s1, ids[..m], ids);
    ExecOne(c, s, Tick);
    if |ids| == 0 {
      DrainedNothing(s);
      assert ids[..m] == [] && ids[m..] == ids;
      assert TickScript(c, s, random, text) == [Tick];
    } else {
      var rest := RowsScript(c, s1, m, random, text);
      assert TickScript(c, s, random, text) == [Tick] + rest;
      RowsAreHandled(c, s1, ids, m, random, text);
      ExecConcat(c, s, [Tick], rest);
      var t := Exec(c, s1, rest).value;
      DrainedSinceClaim(s, s1, t, ids[..m]);
      DrainedRows(s, t, ids[..m]);
      DueAfter(s, t, m);
    }
  }

  lemma DrainedRows(s: Sys, t: Sys, ids: seq<nat>)
    requires Drained(s, t, ids)
    ensures RowsDrained(s.db.outbox, t.db.outbox, ids, s.clock) && t.clock == s.clock
  {
  }

  lemma ExecNone(c: Config, s: Sys)
    requires Aligned(s.db)
    ensures Exec(c, s, []) == Some(s)
  {
  }

  /** The first n * batchSize rows, or all of them. */
  function TakeIn(c: Config, n: nat, due: nat): nat
    requires c.Valid()
  {
    if n == 0 then 0 else TakeIn(c, n - 1, due - Take(c, due)) + Take(c, due)
  }

  lemma {:induction false} TicksDrain(c: Config, s: Sys, n: nat, random: real, text: string)
    requires c.Valid() && Inv(c, s) && s.worker.Idle? && Healthy(s, DueAll(s)) && Jitter(random)
    ensures TakeIn(c, n, |DueAll(s)|) <= |DueAll(s)|
    ensures var x := Exec(c, s, TicksScript(c, s, n, random, text));
            x.Some? && TicksDone(c, s, x.value, TakeIn(c, n, |DueAll(s)|))
    decreases n
  {
    hide Healthy, Drained, TickScript, Next, DueAll, Inv, Exec;
    InvParts(c, s);
    var ids := DueAll(s);
    if n == 0 {
      DrainedNothing(s);
      assert ids[..0] == [] && ids[0..] == ids;
      ExecNone(c, s);
    } else {
      var m := Take(c, |ids|);
      var first := TickScript(c, s, random, text);
      TickDrains(c, s, random, text);
      var t := Exec(c, s, first).value;
      TicksDrain(c, t, n - 1, random, text);
      var rest := TicksScript(c, t, n - 1, random, text);
      ExecConcat(c, s, first, rest);
      var u := Exec(c, t, rest).value;
      var k := TakeIn(c, n - 1, |DueAll(t)|);
      TicksThen(c, s, t, u, m, k);
    }
  }

  lemma TicksThen(c: Config, s: Sys, t: Sys, u: Sys, m: nat, k: nat)
    requires m <= |DueAll(s)| && TicksDone(c, s, t, m) && k <= |DueAll(t)| && TicksDone(c, t, u, k)
    ensures m + k <= |DueAll(s)| && TicksDone(c, s, u, m + k)
  {
    hide Healthy, Drained, DueAll, Inv;
    var ids := DueAll(s);
    DrainedThen(s, t, u, ids[..m], ids[m..][..k]);
    assert ids[..m] + ids[m..][..k] == ids[..m + k];
    assert ids[m..][k..] == ids[m + k..];
  }

  lemma {:induction false} TakeInTotal(c: Config, n: nat, due: nat)
    requires c.Valid()
    ensures TakeIn(c, n, due) == if n * c.batchSize < due then n * c.batchSize else due
    decreases n
  {
    if n > 0 {
      TakeInTotal(c, n - 1, due - Take(c, due));
      assert n * c.batchSize == (n - 1) * c.batchSize + c.batchSize;
    }
  }

  /**
   * Healthy drain: when HCM answers every call and holds what the due rows ask, and their requests are
   * approved or consumed, n ticks handle the first n * batchSize due rows in ascending order, so
   * ceil(due / batchSize) ticks and no fewer handle them all; handled rows end DONE, their requests and
   * reservations CONSUMED, and HCM pays exactly for the distinct requests it had not debited before.
   */
  lemma HealthyDrain(c: Config, s: Sys, n: nat, random: real, text: string)
    requires c.Valid() && Inv(c, s) && s.worker.Idle? && Healthy(s, DueAll(s)) && Jitter(random)
    ensures var due := |DueAll(s)|;
            var m := if n * c.batchSize < due then n * c.batchSize else due;
            var x := Exec(c, s, TicksScript(c, s, n, random, text));
            x.Some? && 0 <= m && Drained(s, x.value, DueAll(s)[..m]) && DueAll(x.value) == DueAll(s)[m..]
  {
    hide Healthy, Drained, TicksScript, DueAll, Inv;
    TicksDrain(c, s, n, random, text);
    TakeInTotal(c, n, |DueAll(s)|);
  }
}
