/** HCM is debited at most once per request, exactly once per CONSUMED one if it tells the truth, and its balances account for every debit. */
module HcmDebits {
  import opened Types
  import opened Sums
  import opened Tables
  import opened Ledger
  import opened Invariants
  import opened Protocol
  import opened Safety
  import opened Guarantees
  import opened Lifecycle

  function DebitedDaysOf(seen: set<Id>, k: Key): Request -> int {
    (q: Request) =>
      if q.key == k && q.externalRequestId.Some? && q.externalRequestId.value in seen then q.days else 0
  }

  /** The days of the requests of a key that HCM has debited. */
  function DebitedDays(s: Sys, k: Key): int { Sum(s.db.requests, DebitedDaysOf(s.hcm.consumed, k)) }

  /** The external id this event makes HCM debit, if it makes it debit one. */
  function DebitBy(s: Sys, e: Event): Option<Id>
    requires Enabled(s, e)
  {
    if e.HcmProcess? && Debits(s.hcm, s.sent[e.m].payload) then Some(s.sent[e.m].payload.externalRequestId) else None
  }

  /** How often a run makes HCM debit an external id. */
  function DebitCount(c: Config, s0: Sys, run: seq<Event>, x: Id): int
    requires Aligned(s0.db) && Exec(c, s0, run).Some?
  {
    if |run| == 0 then 0
    else
      var most := run[..|run| - 1];
      DebitCount(c, s0, most, x)
      + if DebitBy(Exec(c, s0, most).value, run[|run| - 1]) == Some(x) then 1 else 0
  }

  /** Balance changes made in HCM by others, added up. */
  function OutsideChange(run: seq<Event>, k: Key): real {
    if |run| == 0 then 0.0
    else
      var e := run[|run| - 1];
      OutsideChange(run[..|run| - 1], k) + if e.HcmChange? && e.k == k then e.delta else 0.0
  }

  lemma DebitedKept(c: Config, db: Db, ch: Change, seen: set<Id>, k: Key)
    requires Aligned(db) && Allowed(c, db, ch)
    requires forall x :: x in seen ==> ExternalIdTaken(db.requests, x)
    ensures Sum(Apply(db, ch).requests, DebitedDaysOf(seen, k)) == Sum(db.requests, DebitedDaysOf(seen, k))
  {
    var w := DebitedDaysOf(seen, k);
    if ch.Insert? {
      SumAppend(db.requests, ch.request, w);
    } else if ch.Move? {
      if ch.to == Approved { assert ApprovalIdOk(db.requests, ch.i, ch.patch); }
      assert w(Apply(db, ch).requests[ch.i]) == w(db.requests[ch.i]);
      SumSame(db.requests, Apply(db, ch).requests, w, w);
    }
  }

  /** Processing a message debits its request's days, once, from its request's key. */
  lemma ProcessBalances(s: Sys, m: nat, k: Key)
    requires RowsOwned(s.db) && DistinctExternals(s.db.requests) && SentInv(s) && m < |s.sent|
    ensures var h' := Consume(s.hcm, s.sent[m].payload);
            HcmBalance(h', k) + Sum(s.db.requests, DebitedDaysOf(h'.consumed, k)) as real
            == HcmBalance(s.hcm, k) + Sum(s.db.requests, DebitedDaysOf(s.hcm.consumed, k)) as real
  {
    var p := s.sent[m].payload;
    if Debits(s.hcm, p) {
      var rs := s.db.requests;
      assert IsCopy(s.db, s.sent[m]);
      assert Owned(rs, s.db.outbox[s.sent[m].id]);
      var i := FindRequest(rs, s.sent[m].requestId).value;
      var v, w := DebitedDaysOf(s.hcm.consumed, k), DebitedDaysOf(s.hcm.consumed + {p.externalRequestId}, k);
      forall j | 0 <= j < |rs| && j != i ensures v(rs[j]) == w(rs[j]) {
        assert rs[j].externalRequestId != Some(p.externalRequestId);
      }
      SumExcept(rs, rs, v, w, i);
    }
  }

  lemma StepBalances(c: Config, s: Sys, e: Event, k: Key)
    requires c.Valid() && Inv(c, s) && Enabled(s, e)
    ensures HcmBalance(Next(c, s, e).hcm, k) + DebitedDays(Next(c, s, e), k) as real
            == HcmBalance(s.hcm, k) + DebitedDays(s, k) as real + if e.HcmChange? && e.k == k then e.delta else 0.0
  {
    EffectAllowed(c, s, e);
    DebitedKept(c, s.db, EffectOf(c, s, e).change, s.hcm.consumed, k);
    if e.HcmProcess? {
      ProcessBalances(s, e.m, k);
    }
    HcmAfter(c, s, e);
    hide EffectOf, Apply, Inv, Allowed, Consume;
  }

  lemma HcmAfter(c: Config, s: Sys, e: Event)
    requires Enabled(s, e)
    ensures EffectOf(c, s, e).rest.hcm ==
            match e
            case HcmProcess(m) => Consume(s.hcm, s.sent[m].payload)
            case HcmChange(k, delta) => s.hcm.(balances := s.hcm.balances[k := HcmBalance(s.hcm, k) + delta])
            case _ => s.hcm
    ensures e.HcmProcess? ==> EffectOf(c, s, e).change == Nothing
  {
  }

  /**
   * Conservation: each HCM balance is its start, plus what others changed, minus the days of the
   * distinct requests of its key that HCM has debited.
   */
  lemma {:induction false} HcmBalancesAccountForDebits(c: Config, s0: Sys, run: seq<Event>, s: Sys, k: Key)
    requires Reached(c, s0, run, s)
    ensures HcmBalance(s.hcm, k) == HcmBalance(s0.hcm, k) + OutsideChange(run, k) - DebitedDays(s, k) as real
  {
    if |run| > 0 {
      var most := run[..|run| - 1];
      var t := Exec(c, s0, most).value;
      HcmBalancesAccountForDebits(c, s0, most, t, k);
      RunInv(c, s0, most);
      StepBalances(c, t, run[|run| - 1], k);
    }
  }

  lemma {:induction false} DebitCountIsSeen(c: Config, s0: Sys, run: seq<Event>, s: Sys, x: Id)
    requires Reached(c, s0, run, s)
    ensures DebitCount(c, s0, run, x) == if x in s.hcm.consumed then 1 else 0
  {
    if |run| > 0 {
      var most := run[..|run| - 1];
      var t := Exec(c, s0, most).value;
      DebitCountIsSeen(c, s0, most, t, x);
      HcmAfter(c, t, run[|run| - 1]);
      hide EffectOf, Apply;
    }
  }

  /** HCM debits each request at most once, whatever is retried, repeated, lost or answered falsely. */
  lemma DebitedAtMostOnce(c: Config, s0: Sys, run: seq<Event>, s: Sys, i: nat)
    requires Reached(c, s0, run, s) && i < |s.db.requests|
    ensures s.db.requests[i].externalRequestId.Some? ==> DebitCount(c, s0, run, s.db.requests[i].externalRequestId.value) <= 1
  {
    if s.db.requests[i].externalRequestId.Some? {
      DebitCountIsSeen(c, s0, run, s, s.db.requests[i].externalRequestId.value);
    }
  }

  // ----- CONSUMED requests -----

  /** The external id this event makes the worker believe debited. */
  function AckedBy(s: Sys, e: Event): set<Id>
    requires Enabled(s, e)
  {
    if e.ConsumeReply? && e.reply == Accepted then {s.worker.rows[0].payload.externalRequestId} else {}
  }

  /** The external ids a run's consume calls were answered with success for. */
  function Acked(c: Config, s0: Sys, run: seq<Event>): set<Id>
    requires Aligned(s0.db) && Exec(c, s0, run).Some?
  {
    if |run| == 0 then {}
    else
      var most := run[..|run| - 1];
      Acked(c, s0, most) + AckedBy(Exec(c, s0, most).value, run[|run| - 1])
  }

  /** Every CONSUMED request's external id is among these. */
  ghost predicate ConsumedIn(rs: seq<Request>, ids: set<Id>) {
    forall i :: 0 <= i < |rs| && rs[i].state == RequestState.Consumed ==>
      rs[i].externalRequestId.Some? && rs[i].externalRequestId.value in ids
  }

  lemma ConsumedInKept(c: Config, db: Db, ch: Change, ids: set<Id>, ids': set<Id>)
    requires Aligned(db) && Allowed(c, db, ch) && ConsumedIn(db.requests, ids) && ids <= ids'
    requires ch.Move? && ch.to == RequestState.Consumed ==>
               db.requests[ch.i].externalRequestId.Some? && db.requests[ch.i].externalRequestId.value in ids'
    ensures ConsumedIn(Apply(db, ch).requests, ids')
  {
    hide Effective, Excused, Due;
  }

  lemma AckedStep(c: Config, s: Sys, e: Event, ids: set<Id>)
    requires Inv(c, s) && Enabled(s, e) && ConsumedIn(s.db.requests, ids)
    ensures ConsumedIn(Next(c, s, e).db.requests, ids + AckedBy(s, e))
  {
    var ch := EffectOf(c, s, e).change;
    EffectAllowed(c, s, e);
    ConsumedOnlyOnAcceptance(c, s, e);
    if ch.Move? && ch.to == RequestState.Consumed {
      HeldIsCopy(s);
      assert Owned(s.db.requests, s.db.outbox[s.worker.rows[0].id]);
    }
    hide EffectOf, Allowed, Apply, Inv, Owned, ConsumedIn;
    ConsumedInKept(c, s.db, ch, ids, ids + AckedBy(s, e));
  }

  /** A request is CONSUMED only if HCM answered its consume call with success. */
  lemma {:induction false} ConsumedIsAcked(c: Config, s0: Sys, run: seq<Event>, s: Sys)
    requires Reached(c, s0, run, s)
    ensures ConsumedIn(s.db.requests, Acked(c, s0, run))
  {
    if |run| > 0 {
      var most := run[..|run| - 1];
      var t := Exec(c, s0, most).value;
      ConsumedIsAcked(c, s0, most, t);
      RunInv(c, s0, most);
      AckedStep(c, t, run[|run| - 1], Acked(c, s0, most));
      hide Next, Inv, ConsumedIn, AckedBy;
    }
  }

  /** HCM never claims a success it has not recorded. */
  predicate Truthful(c: Config, s0: Sys, run: seq<Event>)
    requires Aligned(s0.db) && Exec(c, s0, run).Some?
  {
    |run| == 0
    || (var most := run[..|run| - 1];
        var t := Exec(c, s0, most).value;
        Truthful(c, s0, most) && AckedBy(t, run[|run| - 1]) <= t.hcm.consumed)
  }

  // ----- False successes -----

  /** HCM claims a success it has not recorded, for a request that is APPROVED. */
  predicate Misleads(s: Sys, e: Event)
    requires Enabled(s, e)
  {
    && e.ConsumeReply? && e.reply == Accepted
    && s.worker.rows[0].payload.externalRequestId !in s.hcm.consumed
    && var f := FindRequest(s.db.requests, s.worker.rows[0].requestId);
       f.Some? && s.db.requests[f.value].state == Approved
  }

  /** The external ids of the APPROVED requests for which a run's successes were false when they came. */
  function Misled(c: Config, s0: Sys, run: seq<Event>): set<Id>
    requires Aligned(s0.db) && Exec(c, s0, run).Some?
  {
    if |run| == 0 then {}
    else
      var most, e := run[..|run| - 1], run[|run| - 1];
      var t := Exec(c, s0, most).value;
      Misled(c, s0, most) + if Misleads(t, e) then AckedBy(t, e) else {}
  }

  lemma MisledStep(c: Config, s: Sys, e: Event, ids: set<Id>)
    requires Inv(c, s) && Enabled(s, e) && ConsumedIn(s.db.requests, s.hcm.consumed + ids)
    ensures ConsumedIn(Next(c, s, e).db.requests, Next(c, s, e).hcm.consumed + (ids + if Misleads(s, e) then AckedBy(s, e) else {}))
  {
    hide Apply, DbInv, HoldsRows, Excused, SentInv, HcmInv, ConsumedIn;
    EffectAllowedInv(c, s, e);
    ConsumedOnlyOnAcceptance(c, s, e);
    HcmOnlySees(c, s, e);
    var ch := EffectOf(c, s, e).change;
    var ids' := Next(c, s, e).hcm.consumed + (ids + if Misleads(s, e) then AckedBy(s, e) else {});
    if ch.Move? && ch.to == RequestState.Consumed {
      InHandIsOwned(c, s);
      OnlyFromApproved(c, s.db, ch);
    }
    hide EffectOf, Allowed;
    ConsumedInKept(c, s.db, ch, s.hcm.consumed + ids, ids');
  }

  lemma EffectAllowedInv(c: Config, s: Sys, e: Event)
    requires Inv(c, s) && Enabled(s, e)
    ensures Aligned(s.db) && Allowed(c, s.db, EffectOf(c, s, e).change)
  {
    hide Allowed, EffectOf;
    EffectAllowed(c, s, e);
  }

  lemma OnlyFromApproved(c: Config, db: Db, ch: Change)
    requires Aligned(db) && Allowed(c, db, ch) && ch.Move? && ch.to == RequestState.Consumed
    ensures ch.i < |db.requests| && db.requests[ch.i].state == Approved
  {
  }

  /** The row in hand carries its request's external id. */
  lemma InHandIsOwned(c: Config, s: Sys)
    requires Inv(c, s) && !s.worker.Idle?
    ensures |s.worker.rows| > 0
    ensures var f := FindRequest(s.db.requests, s.worker.rows[0].requestId);
            f.Some? && s.db.requests[f.value].externalRequestId == Some(s.worker.rows[0].payload.externalRequestId)
  {
    HeldIsCopy(s);
    assert Owned(s.db.requests, s.db.outbox[s.worker.rows[0].id]);
  }

  ghost predicate ConsumedFor(rs: seq<Request>, x: Id) {
    exists i :: 0 <= i < |rs| && rs[i].state == RequestState.Consumed && rs[i].externalRequestId == Some(x)
  }

  /** CONSUMED is final. */
  lemma ConsumedForKept(c: Config, db: Db, ch: Change, x: Id)
    requires Aligned(db) && Allowed(c, db, ch) && ConsumedFor(db.requests, x)
    ensures ConsumedFor(Apply(db, ch).requests, x)
  {
    hide Effective, Excused, Due;
    var i :| 0 <= i < |db.requests| && db.requests[i].state == RequestState.Consumed && db.requests[i].externalRequestId == Some(x);
    assert Apply(db, ch).requests[i] == db.requests[i];
  }

  lemma MisleadingConsumes(c: Config, s: Sys, e: Event)
    requires Inv(c, s) && Enabled(s, e) && Misleads(s, e)
    ensures ConsumedFor(Next(c, s, e).db.requests, s.worker.rows[0].payload.externalRequestId)
  {
    hide Inv, Next;
    InHandIsOwned(c, s);
    EffectAllowedInv(c, s, e);
    var i := FindRequest(s.db.requests, s.worker.rows[0].requestId).value;
    InvIsWorkerInv(c, s);
    StateChangesIff(c, s, e, i, RequestState.Consumed);
    ExternalIdStays(c, s, e, i);
    assert Next(c, s, e).db.requests[i].state == RequestState.Consumed;
  }

  lemma InvIsWorkerInv(c: Config, s: Sys)
    requires Inv(c, s)
    ensures WorkerInv(s)
  {
  }

  lemma ExternalIdStays(c: Config, s: Sys, e: Event, i: nat)
    requires Inv(c, s) && Enabled(s, e) && i < |s.db.requests| && s.db.requests[i].externalRequestId.Some?
    ensures i < |Next(c, s, e).db.requests|
    ensures Next(c, s, e).db.requests[i].externalRequestId == s.db.requests[i].externalRequestId
  {
    hide EffectOf, Allowed, Apply, RowsOwned, WorkerInv, SentInv, HcmInv, Matches, DistinctIds;
    EffectAllowedInv(c, s, e);
    ChangeExtends(c, s.db, EffectOf(c, s, e).change);
  }

  lemma {:induction false} MisledIsTracked(c: Config, s0: Sys, run: seq<Event>, s: Sys)
    requires Reached(c, s0, run, s)
    ensures ConsumedIn(s.db.requests, s.hcm.consumed + Misled(c, s0, run))
    ensures forall x :: x in Misled(c, s0, run) ==> ConsumedFor(s.db.requests, x)
  {
    hide Next, Inv, ConsumedIn, ConsumedFor, Misleads, AckedBy;
    if |run| > 0 {
      var most, e := run[..|run| - 1], run[|run| - 1];
      var t := Exec(c, s0, most).value;
      MisledIsTracked(c, s0, most, t);
      RunInv(c, s0, most);
      MisledStep(c, t, e, Misled(c, s0, most));
      forall x | x in Misled(c, s0, run) ensures ConsumedFor(s.db.requests, x) {
        ConsumedForStep(c, t, e, x, Misled(c, s0, most));
      }
    } else {
      NoneConsumed(s0);
    }
  }

  lemma NoneConsumed(s0: Sys)
    requires Init(s0)
    ensures ConsumedIn(s0.db.requests, s0.hcm.consumed + {})
  {
  }

  lemma ConsumedForStep(c: Config, s: Sys, e: Event, x: Id, ids: set<Id>)
    requires Inv(c, s) && Enabled(s, e)
    requires forall y :: y in ids ==> ConsumedFor(s.db.requests, y)
    requires x in ids + if Misleads(s, e) then AckedBy(s, e) else {}
    ensures ConsumedFor(Next(c, s, e).db.requests, x)
  {
    hide Inv, EffectOf, Apply, Allowed, ConsumedFor, Misleads;
    EffectAllowedInv(c, s, e);
    if x in ids {
      ConsumedForKept(c, s.db, EffectOf(c, s, e).change, x);
    } else {
      MisleadingConsumes(c, s, e);
    }
  }

  ghost predicate AllDebitedOnce(c: Config, s0: Sys, run: seq<Event>)
    requires Aligned(s0.db) && Exec(c, s0, run).Some?
  {
    var rs := Exec(c, s0, run).value.db.requests;
    forall i :: 0 <= i < |rs| && rs[i].state == RequestState.Consumed ==>
      rs[i].externalRequestId.Some? && DebitCount(c, s0, run, rs[i].externalRequestId.value) == 1
  }

  lemma DebitedOnceIsSeen(c: Config, s0: Sys, run: seq<Event>, s: Sys)
    requires Reached(c, s0, run, s)
    ensures AllDebitedOnce(c, s0, run) <==> ConsumedIn(s.db.requests, s.hcm.consumed)
  {
    hide Exec, DebitCount;
    forall i | 0 <= i < |s.db.requests| && s.db.requests[i].externalRequestId.Some?
      ensures var x := s.db.requests[i].externalRequestId.value;
              DebitCount(c, s0, run, x) == if x in s.hcm.consumed then 1 else 0
    {
      DebitCountIsSeen(c, s0, run, s, s.db.requests[i].externalRequestId.value);
    }
  }

  /**
   * After a run HCM has debited every CONSUMED request exactly once if and only if each success that was
   * false when it reached an APPROVED request has been made true since; so it has whenever HCM tells the truth.
   */
  lemma ConsumedIsDebitedOnce(c: Config, s0: Sys, run: seq<Event>, s: Sys)
    requires Reached(c, s0, run, s)
    ensures AllDebitedOnce(c, s0, run) <==> Misled(c, s0, run) <= s.hcm.consumed
    ensures Truthful(c, s0, run) ==> AllDebitedOnce(c, s0, run)
  {
    hide AllDebitedOnce, Misled, Truthful, Exec;
    DebitedOnceIsSeen(c, s0, run, s);
    MisledIsTracked(c, s0, run, s);
    if Misled(c, s0, run) <= s.hcm.consumed {
      assert s.hcm.consumed + Misled(c, s0, run) == s.hcm.consumed;
    } else {
      var x :| x in Misled(c, s0, run) && x !in s.hcm.consumed;
      assert ConsumedFor(s.db.requests, x);
    }
    if Truthful(c, s0, run) {
      TruthfulMisleadsNobody(c, s0, run);
    }
  }

  lemma {:induction false} TruthfulMisleadsNobody(c: Config, s0: Sys, run: seq<Event>)
    requires Aligned(s0.db) && Exec(c, s0, run).Some? && Truthful(c, s0, run)
    ensures Misled(c, s0, run) == {}
  {
    hide Next, Enabled;
    if |run| > 0 {
      TruthfulMisleadsNobody(c, s0, run[..|run| - 1]);
    }
  }

  /** The step that first leaves a CONSUMED request undebited is exactly a false success for an APPROVED one. */
  lemma MisledIff(c: Config, s: Sys, e: Event)
    requires Inv(c, s) && Enabled(s, e) && ConsumedIn(s.db.requests, s.hcm.consumed)
    ensures !ConsumedIn(Next(c, s, e).db.requests, Next(c, s, e).hcm.consumed) <==> Misleads(s, e)
  {
    hide Inv, Next, Misleads, AckedBy, ConsumedIn;
    InvAlignedDb(c, s);
    assert s.hcm.consumed + {} == s.hcm.consumed;
    MisledStep(c, s, e, {});
    var t := Next(c, s, e);
    if Misleads(s, e) {
      MisleadingConsumes(c, s, e);
      MisleadingHcm(c, s, e);
      UndebitedOne(t.db.requests, t.hcm.consumed, s.worker.rows[0].payload.externalRequestId);
    } else {
      assert t.hcm.consumed + ({} + {}) == t.hcm.consumed;
    }
  }

  lemma InvAlignedDb(c: Config, s: Sys)
    requires Inv(c, s)
    ensures Aligned(s.db)
  {
  }

  lemma MisleadingHcm(c: Config, s: Sys, e: Event)
    requires Aligned(s.db) && Enabled(s, e) && Misleads(s, e)
    ensures s.worker.AwaitConsume? && |s.worker.rows| > 0
    ensures s.worker.rows[0].payload.externalRequestId !in Next(c, s, e).hcm.consumed
  {
    HcmAfter(c, s, e);
    hide EffectOf, Apply;
  }

  lemma UndebitedOne(rs: seq<Request>, ids: set<Id>, x: Id)
    requires ConsumedFor(rs, x) && x !in ids
    ensures !ConsumedIn(rs, ids)
  {
  }
}
