/** How long the outbox keeps trying (hcm-outbox.service.js). */
module Retries {
  import opened Types
  import opened Sums
  import opened StateMachine
  import opened Backoff
  import opened Tables
  import opened Ledger
  import opened Invariants
  import opened Protocol
  import opened Safety
  import opened Guarantees

  function AttemptsLeft(c: Config): OutboxRow -> int {
    (row: OutboxRow) => if Live(row) then c.maxAttempts - row.attempts else 0
  }

  /** The attempts left to all PENDING and INFLIGHT rows together. */
  function Budget(c: Config, db: Db): int { Sum(db.outbox, AttemptsLeft(c)) }

  /** A write set that completes the handling of a claimed row. */
  predicate Completes(ch: Change) { ch.Finish? || ch.Retry? }

  /** A write set that gives the outbox new attempts. */
  predicate Grants(ch: Change) { ch.Reset? || (ch.Move? && ch.to == Approved) }

  /** Each completed handling uses up an attempt; only an approval or a reset grants any, and at most maxAttempts. */
  lemma BudgetStep(c: Config, db: Db, ch: Change)
    requires c.Valid() && Aligned(db) && RetryBounds(c, db) && Allowed(c, db, ch)
    ensures Completes(ch) ==> Budget(c, Apply(db, ch)) < Budget(c, db)
    ensures ch.Retry? ==> Budget(c, Apply(db, ch)) == Budget(c, db) - 1
    ensures Grants(ch) ==> Budget(c, db) <= Budget(c, Apply(db, ch)) <= Budget(c, db) + c.maxAttempts
    ensures !Completes(ch) && !Grants(ch) ==> Budget(c, Apply(db, ch)) == Budget(c, db)
  {
    hide CanTransition, Effective, Excused, LastRow, FindRequest;
    match ch
    case Finish(r, _) => BudgetOfRow(c, db, ch, r);
    case Retry(r, _, _, _, _, _) => BudgetOfRow(c, db, ch, r);
    case Reset(r) => if r < |db.outbox| { BudgetOfRow(c, db, ch, r); }
    case Move(_, _, _, _, _) => BudgetOfMove(c, db, ch);
    case _ => SumSame(db.outbox, Apply(db, ch).outbox, AttemptsLeft(c), AttemptsLeft(c));
  }

  lemma BudgetOfRow(c: Config, db: Db, ch: Change, r: nat)
    requires c.Valid() && Aligned(db) && RetryBounds(c, db) && r < |db.outbox|
    requires (ch.Finish? || ch.Retry? || ch.Reset?) && ch.row == r
    ensures var o' := Apply(db, ch).outbox;
            |o'| == |db.outbox| && Budget(c, Apply(db, ch)) ==
            Budget(c, db) - AttemptsLeft(c)(db.outbox[r]) + AttemptsLeft(c)(o'[r])
    ensures AttemptsOk(c, db.outbox[r])
  {
    SumExcept(db.outbox, Apply(db, ch).outbox, AttemptsLeft(c), AttemptsLeft(c), r);
  }

  lemma BudgetOfMove(c: Config, db: Db, ch: Change)
    requires c.Valid() && Aligned(db) && Allowed(c, db, ch) && ch.Move?
    ensures Budget(c, Apply(db, ch)) == Budget(c, db) + if ch.to == Approved then c.maxAttempts else 0
  {
    hide CanTransition;
    var o, o' := db.outbox, Apply(db, ch).outbox;
    if ch.to == Approved {
      assert ApprovalIdOk(db.requests, ch.i, ch.patch);
      SumAppend(o, o'[|o|], AttemptsLeft(c));
    }
  }

  function Completions(c: Config, s0: Sys, run: seq<Event>): int
    requires Aligned(s0.db) && Exec(c, s0, run).Some?
  {
    if |run| == 0 then 0
    else
      var most := run[..|run| - 1];
      Completions(c, s0, most)
      + if Completes(EffectOf(c, Exec(c, s0, most).value, run[|run| - 1]).change) then 1 else 0
  }

  /** The attempts a run's approvals and resets grant: maxAttempts each. */
  function Granted(c: Config, s0: Sys, run: seq<Event>): int
    requires Aligned(s0.db) && Exec(c, s0, run).Some?
  {
    if |run| == 0 then 0
    else
      var most := run[..|run| - 1];
      Granted(c, s0, most)
      + if Grants(EffectOf(c, Exec(c, s0, most).value, run[|run| - 1]).change) then c.maxAttempts else 0
  }

  /** The worker cannot spin: a run completes at most maxAttempts handlings per approval or reset. */
  lemma {:induction false} HandlingsAreBounded(c: Config, s0: Sys, run: seq<Event>, s: Sys)
    requires Reached(c, s0, run, s)
    ensures Completions(c, s0, run) + Budget(c, s.db) <= Granted(c, s0, run)
    ensures Budget(c, s.db) >= 0
  {
    RunInv(c, s0, run);
    BudgetNonNegative(c, s.db);
    if |run| > 0 {
      var most := run[..|run| - 1];
      var t := Exec(c, s0, most).value;
      HandlingsAreBounded(c, s0, most, t);
      RunInv(c, s0, most);
      EffectAllowed(c, t, run[|run| - 1]);
      BudgetStep(c, t.db, EffectOf(c, t, run[|run| - 1]).change);
      hide EffectOf, Apply, Inv, Allowed, Budget, Grants, Completes;
    }
  }

  lemma BudgetNonNegative(c: Config, db: Db)
    requires RetryBounds(c, db)
    ensures Budget(c, db) >= 0
  {
    forall r | 0 <= r < |db.outbox| ensures AttemptsLeft(c)(db.outbox[r]) >= 0 {
      assert AttemptsOk(c, db.outbox[r]);
    }
    SumNonNegative(db.outbox, AttemptsLeft(c));
  }

  // ----- Per row -----

  /** How often the worker has claimed a row since it was created or last reset. */
  function Claims(c: Config, s0: Sys, run: seq<Event>, r: nat): int
    requires Aligned(s0.db) && Exec(c, s0, run).Some?
  {
    if |run| == 0 then 0
    else
      var most := run[..|run| - 1];
      var ch := EffectOf(c, Exec(c, s0, most).value, run[|run| - 1]).change;
      if ch.Reset? && ch.row == r then 0
      else Claims(c, s0, most, r) + if ch.Claim? && r in ch.ids then 1 else 0
  }

  predicate ClaimsWithin(row: OutboxRow, claims: int) {
    claims <= row.attempts + if row.status == Inflight || row.status == Done then 1 else 0
  }

  lemma ClaimsStep(c: Config, db: Db, ch: Change, r: nat, claims: int)
    requires Aligned(db) && Allowed(c, db, ch)
    requires if r < |db.outbox| then ClaimsWithin(db.outbox[r], claims) else claims == 0
    ensures var claims' := if ch.Reset? && ch.row == r then 0 else claims + if ch.Claim? && r in ch.ids then 1 else 0;
            var o' := Apply(db, ch).outbox;
            if r < |o'| then ClaimsWithin(o'[r], claims') else claims' == 0
  {
    if ch.Claim? && r in ch.ids {
      var j :| 0 <= j < |ch.ids| && ch.ids[j] == r;
    }
  }

  lemma {:induction false} ClaimsTracked(c: Config, s0: Sys, run: seq<Event>, s: Sys, r: nat)
    requires Reached(c, s0, run, s)
    ensures if r < |s.db.outbox| then ClaimsWithin(s.db.outbox[r], Claims(c, s0, run, r)) else Claims(c, s0, run, r) == 0
  {
    if |run| > 0 {
      var most := run[..|run| - 1];
      var t := Exec(c, s0, most).value;
      ClaimsTracked(c, s0, most, t, r);
      RunInv(c, s0, most);
      EffectAllowed(c, t, run[|run| - 1]);
      ClaimsStep(c, t.db, EffectOf(c, t, run[|run| - 1]).change, r, Claims(c, s0, most, r));
      hide EffectOf, Apply, Inv, Allowed, ClaimsWithin;
    }
  }

  /** Between resets a row is handed to the worker at most maxAttempts times, even across crashes; DEAD is reached exactly then. */
  lemma RowClaimedAtMostMaxAttempts(c: Config, s0: Sys, run: seq<Event>, s: Sys, r: nat)
    requires Reached(c, s0, run, s)
    ensures Claims(c, s0, run, r) <= c.maxAttempts
    ensures r < |s.db.outbox| ==>
              s.db.outbox[r].attempts <= c.maxAttempts && (s.db.outbox[r].status == Dead <==> s.db.outbox[r].attempts == c.maxAttempts)
  {
    RunInv(c, s0, run);
    ClaimsTracked(c, s0, run, s, r);
    if r < |s.db.outbox| {
      assert AttemptsOk(c, s.db.outbox[r]);
    }
  }

  // ----- How long a row waits -----

  /** The waits imposed on a row since it was created or last reset: from the clock at each failure to the next attempt allowed. */
  function Waited(c: Config, s0: Sys, run: seq<Event>, r: nat): int
    requires Aligned(s0.db) && Exec(c, s0, run).Some?
  {
    if |run| == 0 then 0
    else
      var most, e := run[..|run| - 1], run[|run| - 1];
      var t := Exec(c, s0, most).value;
      WaitedAfter(Waited(c, s0, most, r), t, e, Next(c, t, e), r)
  }

  /** A step that raises a row's attempts and leaves it PENDING makes it wait; one that lowers them starts it afresh. */
  function WaitedAfter(waited: int, s: Sys, e: Event, t: Sys, r: nat): int {
    if e == ResetToPending(r) then 0
    else if r < |s.db.outbox| && r < |t.db.outbox| && t.db.outbox[r].attempts > s.db.outbox[r].attempts
            && t.db.outbox[r].status == RowStatus.Pending
    then waited + (t.db.outbox[r].nextAttemptAt - s.clock)
    else waited
  }

  /** The failures after which this row has been, or will be, made to wait. */
  function Failures(row: OutboxRow): nat { if row.status == Dead then row.attempts else row.attempts + 1 }

  predicate WaitedRight(row: OutboxRow, waited: int) {
    Failures(row) >= 1 && 0.7 * TotalBase(Failures(row)) as real <= waited as real <= 1.3 * TotalBase(Failures(row)) as real
  }

  /** Every retry is scheduled by the backoff of its attempt, jittered by the number drawn. */
  lemma RetriesBackOff(c: Config, s: Sys, e: Event)
    requires Enabled(s, e)
    ensures var ch := EffectOf(c, s, e).change;
            ch.Retry? ==>
              && (e.BalanceReply? || e.ConsumeReply?)
              && ch == RetryChange(c, s.db.outbox, s.worker.rows[0].id, e.text, e.random, s.clock)
              && ch.row == s.worker.rows[0].id < |s.db.outbox| && ch.error == e.text && ch.at == s.clock
  {
    TxKinds(s.db, e, s.clock);
    if e.BalanceReply? || e.ConsumeReply? {
      MarkKinds(s.db, s.worker.rows[0].requestId, s.clock);
      RetryKind(c, s.db.outbox, s.worker.rows[0].id, e.text, e.random, s.clock);
    }
    hide CreateTx, ApproveTx, RejectTx, CancelTx, MarkTx, SnapshotTx, RetryChange;
  }

  lemma WaitedStep(c: Config, s: Sys, e: Event, r: nat, waited: int)
    requires Inv(c, s) && Enabled(s, e)
    requires if r < |s.db.outbox| then WaitedRight(s.db.outbox[r], waited) else waited == 0
    ensures var o' := Next(c, s, e).db.outbox;
            var waited' := WaitedAfter(waited, s, e, Next(c, s, e), r);
            if r < |o'| then WaitedRight(o'[r], waited') else waited' == 0
  {
    hide EffectOf, Inv, Apply, WaitedRight, Allowed, RetryChange;
    InvAligned(c, s);
    EffectAllowedIn(c, s, e);
    RetriesBackOff(c, s, e);
    ResetsBack(c, s, e);
    var ch := EffectOf(c, s, e).change;
    if ch.Retry? && ch.row == r {
      RetryWaits(c, s.db, ch, e.random, waited);
    } else {
      OthersWait(c, s.db, ch, r, waited);
    }
  }

  lemma InvAligned(c: Config, s: Sys)
    requires Inv(c, s)
    ensures Aligned(s.db)
  {
  }

  lemma EffectAllowedIn(c: Config, s: Sys, e: Event)
    requires Inv(c, s) && Enabled(s, e)
    ensures Allowed(c, s.db, EffectOf(c, s, e).change)
  {
    hide EffectOf, Allowed;
    EffectAllowed(c, s, e);
  }

  /** Only an administrator resets, and always does. */
  lemma ResetsBack(c: Config, s: Sys, e: Event)
    requires Enabled(s, e)
    ensures var ch := EffectOf(c, s, e).change;
            forall r :: (ch.Reset? && ch.row == r) <==> e == ResetToPending(r)
  {
    hide CreateTx, ApproveTx, RejectTx, CancelTx, MarkTx, SnapshotTx, RetryChange;
    TxKinds(s.db, e, s.clock);
    if e.BalanceReply? || e.ConsumeReply? {
      MarkKinds(s.db, s.worker.rows[0].requestId, s.clock);
      RetryKind(c, s.db.outbox, s.worker.rows[0].id, e.text, e.random, s.clock);
    }
  }

  lemma RetryKind(c: Config, o: seq<OutboxRow>, r: nat, text: string, random: real, now: Time)
    ensures var ch := RetryChange(c, o, r, text, random, now); ch.Nothing? || (ch.Retry? && ch.row == r && r < |o| && ch.error == text && ch.at == now)
  {
  }

  lemma RetryWaits(c: Config, db: Db, ch: Change, random: real, waited: int)
    requires Aligned(db) && Allowed(c, db, ch) && ch.Retry? && Jitter(random)
    requires ch == RetryChange(c, db.outbox, ch.row, ch.error, random, ch.at) && WaitedRight(db.outbox[ch.row], waited)
    ensures ch.row < |Apply(db, ch).outbox|
    ensures var row, row' := db.outbox[ch.row], Apply(db, ch).outbox[ch.row];
            && row'.attempts > row.attempts
            && WaitedRight(row', if row'.status == RowStatus.Pending then waited + (row'.nextAttemptAt - ch.at) else waited)
  {
    hide ComputeBackoffMs, TotalBase, Base;
    var n := db.outbox[ch.row].attempts + 1;
    WaitRange(n, random);
    TotalBaseStep(n + 1);
  }

  lemma OthersWait(c: Config, db: Db, ch: Change, r: nat, waited: int)
    requires Aligned(db) && Allowed(c, db, ch) && !(ch.Retry? && ch.row == r)
    requires if r < |db.outbox| then WaitedRight(db.outbox[r], waited) else waited == 0
    ensures var o' := Apply(db, ch).outbox;
            var waited' := if ch.Reset? && ch.row == r then 0 else waited;
            if r < |o'| then WaitedRight(o'[r], waited') else waited' == 0
    ensures r < |db.outbox| ==> r < |Apply(db, ch).outbox| && Apply(db, ch).outbox[r].attempts <= db.outbox[r].attempts
  {
    hide TotalBase, CanTransition, Effective, Excused;
    TotalBaseOfOne();
  }

  /**
   * In every run the waits imposed on a row since it was created or reset add up to between 0.7 and 1.3
   * times the closed form for its failures, and so at DEAD for its last one, whatever the jitter.
   */
  lemma {:induction false} TotalWaitRange(c: Config, s0: Sys, run: seq<Event>, s: Sys, r: nat)
    requires Reached(c, s0, run, s)
    ensures if r < |s.db.outbox| then WaitedRight(s.db.outbox[r], Waited(c, s0, run, r)) else Waited(c, s0, run, r) == 0
  {
    if |run| > 0 {
      var most := run[..|run| - 1];
      var t := Exec(c, s0, most).value;
      TotalWaitRange(c, s0, most, t, r);
      RunInv(c, s0, most);
      WaitedStep(c, t, run[|run| - 1], r, Waited(c, s0, most, r));
      hide Next, EffectOf, Inv, WaitedRight, WaitedAfter;
    }
  }
}
