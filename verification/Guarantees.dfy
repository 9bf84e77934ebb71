/** The service's promises, over every run: any interleaving at the worker's awaits and any crash point. */
module Guarantees {
  import opened Types
  import opened Sums
  import opened Stamps
  import opened StateMachine
  import opened Tables
  import opened Ledger
  import opened Invariants
  import opened AuditTrail
  import opened BalanceIntegrity
  import opened Protocol
  import opened Safety

  /** s is what some run from the start leads to. */
  ghost predicate Reached(c: Config, s0: Sys, run: seq<Event>, s: Sys) {
    c.Valid() && Init(s0) && Exec(c, s0, run) == Some(s)
  }

  lemma ReachedInv(c: Config, s0: Sys, run: seq<Event>, s: Sys)
    requires Reached(c, s0, run, s)
    ensures Inv(c, s) && c.Valid()
  {
    RunInv(c, s0, run);
  }

  // ----- No approval is lost -----

  /** An approved request always has a submission that is still PENDING, INFLIGHT or DEAD. */
  lemma NoApprovalLost(c: Config, s0: Sys, run: seq<Event>, s: Sys, i: nat)
    requires Reached(c, s0, run, s) && i < |s.db.requests| && s.db.requests[i].state == Approved
    ensures exists r :: 0 <= r < |s.db.outbox| && s.db.outbox[r].requestId == s.db.requests[i].id
                        && s.db.outbox[r].status != Done
  {
    hide Reached, Coupled, RowsOwned, DistinctExternals, ExternalIffRow, Replays, RowsCounted, Covered, WorkerInv, SentInv, HcmInv;
    ReachedInv(c, s0, run, s);
    assert Tracked(s.db.outbox, s.db.requests[i].id);
    var r := LastRow(s.db.outbox, s.db.requests[i].id).value;
    assert s.db.outbox[r].requestId == s.db.requests[i].id;
  }

  // ----- The reservation ledger -----

  /** Each request has exactly one reservation, of its key and days, in the state its own state calls for. */
  lemma OneReservationPerRequest(c: Config, s0: Sys, run: seq<Event>, s: Sys, i: nat)
    requires Reached(c, s0, run, s) && i < |s.db.requests|
    ensures |s.db.reservations| == |s.db.requests|
    ensures var q, v := s.db.requests[i], s.db.reservations[i];
            && v.requestId == q.id && v.key == q.key && v.days == q.days && q.days >= 1
            && (v.state.Open? <==> q.state in {RequestState.Pending, Approved, ReviewRequired})
            && (v.state.Consumed? <==> q.state == RequestState.Consumed)
            && (v.state.Released? <==> q.state in {Rejected, Cancelled, HcmFailed})
    ensures forall j :: 0 <= j < |s.db.reservations| && s.db.reservations[j].requestId == s.db.requests[i].id ==> j == i
  {
    hide Reached, RowsOwned, DistinctExternals, ExternalIffRow, ApprovedTracked, Replays, RowsCounted, Covered, WorkerInv, SentInv, HcmInv;
    ReachedInv(c, s0, run, s);
    assert forall j :: 0 <= j < |s.db.requests| ==> Matches(s.db.requests[j], s.db.reservations[j]);
  }

  lemma ReservedIsOpenRequestDays(c: Config, s0: Sys, run: seq<Event>, s: Sys, k: Key)
    requires Reached(c, s0, run, s)
    ensures SumOpen(s.db.reservations, k) == Sum(s.db.requests, RequestDays(k))
  {
    hide Reached, RowsOwned, DistinctExternals, ExternalIffRow, ApprovedTracked, Replays, RowsCounted, Covered, WorkerInv, SentInv, HcmInv;
    ReachedInv(c, s0, run, s);
    OpenSumIsRequestSum(s.db.requests, s.db.reservations, k);
  }

  /** What no step ever rewrites: ids, keys, dates, days, external ids once given, closed reservations, the log. */
  ghost predicate Extends(a: Db, b: Db) {
    && SameRows(a.outbox, b.outbox)
    && |a.requests| <= |b.requests| && |a.reservations| <= |b.reservations| && a.audit <= b.audit
    && (forall i :: 0 <= i < |a.requests| ==> SameRequest(a.requests[i], b.requests[i]))
    && (forall i :: 0 <= i < |a.reservations| && !a.reservations[i].state.Open? ==>
          b.reservations[i] == a.reservations[i])
  }

  predicate SameRequest(q: Request, q': Request) {
    && q' == q.(state := q'.state, updatedAt := q'.updatedAt, approverId := q'.approverId,
                approvedAt := q'.approvedAt, externalRequestId := q'.externalRequestId, hcmError := q'.hcmError)
    && (q.externalRequestId.Some? ==> q'.externalRequestId == q.externalRequestId)
  }

  lemma ChangeExtends(c: Config, db: Db, ch: Change)
    requires Coupled(db) && Allowed(c, db, ch)
    ensures Extends(db, Apply(db, ch))
  {
    RowsKept(db, ch);
    if ch.Move? {
      assert Matches(db.requests[ch.i], db.reservations[ch.i]);
      if ch.to == Approved { assert ApprovalIdOk(db.requests, ch.i, ch.patch); }
    }
  }

  /** Along a run, history only grows. */
  lemma {:induction false} HistoryOnlyGrows(c: Config, s0: Sys, run: seq<Event>, n: nat, s: Sys)
    requires Reached(c, s0, run, s) && n <= |run|
    ensures Exec(c, s0, run[..n]).Some? && Extends(Exec(c, s0, run[..n]).value.db, s.db)
    decreases |run|
  {
    hide Next, Extends, Enabled;
    if n == |run| {
      assert run[..n] == run;
      NothingExtends(s.db);
    } else {
      var most := run[..|run| - 1];
      var t := Exec(c, s0, most).value;
      HistoryOnlyGrows(c, s0, most, n, t);
      assert most[..n] == run[..n];
      StepExtends(c, s0, most, t, run[|run| - 1]);
      ExtendsTransitive(Exec(c, s0, run[..n]).value.db, t.db, s.db);
    }
  }

  lemma StepExtends(c: Config, s0: Sys, run: seq<Event>, s: Sys, e: Event)
    requires Reached(c, s0, run, s) && Enabled(s, e)
    ensures Extends(s.db, Next(c, s, e).db)
  {
    hide Extends, Allowed, Reached;
    ReachedInv(c, s0, run, s);
    EffectAllowed(c, s, e);
    ChangeExtends(c, s.db, EffectOf(c, s, e).change);
  }

  lemma NothingExtends(db: Db)
    ensures Extends(db, db)
  {
  }

  lemma ExtendsTransitive(a: Db, b: Db, d: Db)
    requires Extends(a, b) && Extends(b, d)
    ensures Extends(a, d)
  {
  }

  // ----- Approvals and their submissions -----

  /** A request's outbox rows number its approvals, and its state tells approvals minus reviews. */
  lemma ApprovalsAreCounted(c: Config, s0: Sys, run: seq<Event>, s: Sys, i: nat)
    requires Reached(c, s0, run, s) && i < |s.db.requests|
    ensures var q := s.db.requests[i];
            && RowCount(s.db.outbox, q.id) == Logged(s.db.audit, q.id, RequestApproved)
            && NetApprovals(q.state, Logged(s.db.audit, q.id, RequestApproved) - Logged(s.db.audit, q.id, RequestReviewRequired))
  {
    hide Reached, RowsOwned, DistinctExternals, ExternalIffRow, ApprovedTracked, Covered, WorkerInv, SentInv, HcmInv, Logged, RowCount;
    ReachedInv(c, s0, run, s);
    var id := s.db.requests[i].id;
    ApprovalsMinusReviews(s.db.audit, id);
    assert LastLogged(s.db.audit, id) == RowOf(s.db.requests, id);
  }

  /** Every row carries its request's immutable fields and external id; external ids are unshared and exist iff a row does. */
  lemma PayloadsAreStable(c: Config, s0: Sys, run: seq<Event>, s: Sys, r: nat, i: nat)
    requires Reached(c, s0, run, s) && i < |s.db.requests|
    ensures s.db.requests[i].externalRequestId.Some? <==>
            exists q :: 0 <= q < |s.db.outbox| && s.db.outbox[q].requestId == s.db.requests[i].id
    ensures r < |s.db.outbox| && s.db.outbox[r].requestId == s.db.requests[i].id ==>
              var q, p := s.db.requests[i], s.db.outbox[r].payload;
              && q.externalRequestId == Some(p.externalRequestId) && p.key == q.key && p.days == q.days
              && p.startDate == q.startDate && p.endDate == q.endDate && p.correlationId == q.correlationId
    ensures forall j :: 0 <= j < |s.db.requests| && j != i && s.db.requests[i].externalRequestId.Some? ==>
              s.db.requests[j].externalRequestId != s.db.requests[i].externalRequestId
  {
    hide Reached, Coupled, ApprovedTracked, Replays, RowsCounted, Covered, WorkerInv, SentInv, HcmInv;
    ReachedInv(c, s0, run, s);
    DistinctAsStated(s.db);
    var id := s.db.requests[i].id;
    var l := LastRow(s.db.outbox, id);
    if l.Some? { assert s.db.outbox[l.value].requestId == id; }
    if r < |s.db.outbox| { assert Owned(s.db.requests, s.db.outbox[r]); }
  }

  lemma DistinctAsStated(db: Db)
    requires Coupled(db)
    ensures DistinctIds(db.requests)
  {
  }

  // ----- The audit log -----

  /** Replaying the log rebuilds both tables, and tells for each request one lifecycle path from PENDING to its state. */
  lemma AuditIsComplete(c: Config, s0: Sys, run: seq<Event>, s: Sys, id: Id, k: Key)
    requires Reached(c, s0, run, s)
    ensures LastLogged(s.db.audit, id) == RowOf(s.db.requests, id)
    ensures LastBalance(s.db.audit, k) == Lookup(s.db.balances, k)
    ensures var p := LoggedStates(s.db.audit, id);
            && IsPath(p)
            && (p == [] <==> FindRequest(s.db.requests, id).None?)
            && (p != [] ==> RowOf(s.db.requests, id).Some? && p[|p| - 1] == RowOf(s.db.requests, id).value.state)
  {
    hide Reached, Coupled, RowsOwned, DistinctExternals, ExternalIffRow, ApprovedTracked, RowsCounted, Covered, WorkerInv, SentInv, HcmInv;
    ReachedInv(c, s0, run, s);
    LogIsPath(s.db.audit, id);
    assert LastLogged(s.db.audit, id) == RowOf(s.db.requests, id);
    assert LastBalance(s.db.audit, k) == Lookup(s.db.balances, k);
  }

  // ----- Balance integrity -----

  /** The reported balance is never negative unless the key's last applied snapshot was flagged. */
  lemma EffectiveNeverNegative(c: Config, s0: Sys, run: seq<Event>, s: Sys, k: Key)
    requires Reached(c, s0, run, s) && k in s.db.balances && !Flagged(s.db.audit, k)
    ensures Effective(s.db, k) >= 0.0
    ensures SumOpen(s.db.reservations, k) as real <= s.db.balances[k].hcmBalance + 0.005
  {
    hide Reached, Coupled, RowsOwned, DistinctExternals, ExternalIffRow, ApprovedTracked, Replays, RowsCounted, WorkerInv, SentInv, HcmInv;
    ReachedInv(c, s0, run, s);
    EffectiveNonNegativeUnlessFlagged(s.db, k);
    assert Slack(s.db, k) >= -0.005;
  }

  /** In a run, a step makes a non-negative balance negative exactly when it applies a snapshot too low for the reserved days. */
  lemma OnlyLowSnapshotsOverdraw(c: Config, s0: Sys, run: seq<Event>, s: Sys, e: Event, k: Key)
    requires Reached(c, s0, run, s) && Enabled(s, e) && k in s.db.balances && Effective(s.db, k) >= 0.0
    ensures k in Next(c, s, e).db.balances
    ensures Effective(Next(c, s, e).db, k) < 0.0 <==>
            && e.ApplySnapshot? && e.k == k && e.asOf.Some? && !Before(e.asOf.value, s.db.balances[k].hcmSnapshotAt)
            && 0.0 <= e.balance < SumOpen(s.db.reservations, k) as real - 0.005
  {
    RunInv(c, s0, run);
    EffectAllowed(c, s, e);
    EffectiveTurnsNegativeIff(c, s.db, EffectOf(c, s, e).change, k);
    SnapshotOnlyFrom(c, s, e, k);
    hide EffectOf, Apply, Effective, Allowed, Inv;
  }

  /** While a balance is negative, a step lowers it further only by applying a snapshot below the cached balance. */
  lemma NegativeOnlyLowered(c: Config, s0: Sys, run: seq<Event>, s: Sys, e: Event, k: Key)
    requires Reached(c, s0, run, s) && Enabled(s, e) && k in s.db.balances && Effective(s.db, k) < 0.0
    ensures k in Next(c, s, e).db.balances
    ensures Effective(Next(c, s, e).db, k) < Effective(s.db, k) ==>
              && e.ApplySnapshot? && e.k == k && e.asOf.Some? && !Before(e.asOf.value, s.db.balances[k].hcmSnapshotAt)
              && 0.0 <= e.balance < s.db.balances[k].hcmBalance
  {
    RunInv(c, s0, run);
    EffectAllowed(c, s, e);
    var ch := EffectOf(c, s, e).change;
    SnapshotOnlyFrom(c, s, e, k);
    if AppliesTo(ch, k) {
      HigherSnapshotRaises(c, s.db, ch, k);
    } else {
      NegativeOnlyLoweredBySnapshot(c, s.db, ch, k);
    }
    hide EffectOf, Apply, Effective, Allowed, Inv, AppliesTo, Before;
  }

  lemma SnapshotOnlyFrom(c: Config, s: Sys, e: Event, k: Key)
    requires Enabled(s, e) && k in s.db.balances
    ensures var ch := EffectOf(c, s, e).change;
            AppliesTo(ch, k) <==>
              && e.ApplySnapshot? && e.k == k && e.asOf.Some? && !Before(e.asOf.value, s.db.balances[k].hcmSnapshotAt)
              && e.balance >= 0.0
    ensures var ch := EffectOf(c, s, e).change;
            AppliesTo(ch, k) ==> ch.balance.hcmBalance == e.balance
  {
    TxKinds(s.db, e, s.clock);
    if e.BalanceReply? || e.ConsumeReply? {
      MarkKinds(s.db, s.worker.rows[0].requestId, s.clock);
    }
    hide CreateTx, ApproveTx, RejectTx, CancelTx, MarkTx, SumOpen;
  }
}
