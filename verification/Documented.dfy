/** Where the documents promise more than the code keeps: a run that shows it, and exactly when the promise holds. */
module Documented {
  import opened Types
  import opened Sums
  import opened Texts
  import opened Stamps
  import opened StateMachine
  import opened Rounding
  import opened Backoff
  import opened Tables
  import opened Ledger
  import opened Invariants
  import opened Protocol
  import opened Safety
  import opened Guarantees
  import opened HcmDebits
  import opened Drain
  import opened Lifecycle
  import opened Convergence
  import opened Reconciliation

  // ----- "The effective balance we expose is never negative" -----

  const EMPLOYEE := Actor("E-1", {Employee}, None)
  const ANNUAL := Key("E-1", "L-1", "ANNUAL")
  const FIVE_DAYS := Input("L-1", "ANNUAL", "2026-05-04", "2026-05-08", None)

  lemma FiveDays()
    ensures Dates.CountDaysInclusive(FIVE_DAYS.startDate, FIVE_DAYS.endDate) == Success(5)
  {
    var a, b := FIVE_DAYS.startDate, FIVE_DAYS.endDate;
    assert Dates.Fields(a) == Dates.Civil(2026, 5, 4) && Dates.Fields(b) == Dates.Civil(2026, 5, 8);
    assert Dates.Accepted(a) && Dates.Accepted(b);
    var start := Dates.Civil(2026, 5, 4);
    assert Dates.Later(start, 1) == Dates.Civil(2026, 5, 5);
    assert Dates.Later(start, 2) == Dates.Civil(2026, 5, 6);
    assert Dates.Later(start, 3) == Dates.Civil(2026, 5, 7);
    assert Dates.Later(start, 4) == Dates.Civil(2026, 5, 8);
    Dates.CountIsCalendarSteps(a, b, 5);
  }

  /** One request filed. */
  lemma AfterFiling(c: Config, s: Sys, key: string, id: Id, corr: Id, dies: bool)
    requires Coupled(s.db) && ANNUAL in s.db.balances && Effective(s.db, ANNUAL) >= 5.0
    requires FindRequest(s.db.requests, id).None? && IdemLookup(s.idem, IdemKey(key, ENDPOINT, EMPLOYEE.sub), s.clock).None?
    ensures var t := Next(c, s, Post(EMPLOYEE, key, FIVE_DAYS, id, corr, dies));
            && t.db.requests == s.db.requests + [NewRequest(id, corr, s.clock)]
            && t.db.reservations == s.db.reservations + [NewReservation(NewRequest(id, corr, s.clock))]
            && t.db.balances == s.db.balances && t.db.outbox == s.db.outbox
            && t.clock == s.clock && t.hcm == s.hcm && t.sent == s.sent
            && (dies ==> t.idem == IdemPurged(s.idem, IdemKey(key, ENDPOINT, EMPLOYEE.sub), s.clock))
            && t.worker == if dies then Idle else s.worker
  {
    hide Dates.CountDaysInclusive, Effective, FindRequest;
    FiveDays();
  }

  function NewRequest(id: Id, corr: Id, now: Time): Request {
    Request(id, ANNUAL, None, FIVE_DAYS.startDate, FIVE_DAYS.endDate, 5, None, RequestState.Pending, now, now, corr,
            None, None, None, None)
  }

  const TEN := ApplySnapshot(ANNUAL, 10.0, Some(Ms(0)))

  lemma AfterTen(c: Config, s0: Sys)
    requires Init(s0)
    ensures var t := Next(c, s0, TEN);
            && Coupled(t.db) && t == s0.(db := t.db) && t.db.balances.Keys == {ANNUAL} && t.db.requests == [] && t.db.outbox == []
            && t.db.reservations == [] && t.db.balances[ANNUAL].hcmBalance == 10.0 && t.db.balances[ANNUAL].hcmSnapshotAt == Ms(0)
            && Effective(t.db, ANNUAL) == 10.0
            && Exec(c, s0, [TEN]) == Some(t)
            && FindRequest(t.db.requests, "r_1").None?
            && IdemLookup(t.idem, IdemKey("key", ENDPOINT, EMPLOYEE.sub), t.clock).None?
  {
    RoundWhole(10);
    ExecOne(c, s0, TEN);
  }

  lemma RoundWhole(n: int)
    ensures Round(n as real) == n as real
  {
    FloorShift(0.5, 100 * n);
    assert n as real * 100.0 + 0.5 == 0.5 + (100 * n) as real;
  }

  /** Ten days, five of them reserved, then HCM corrects the balance to three: the employee is shown minus two. */
  lemma EffectiveBalanceCanBeNegative(c: Config, s0: Sys)
    requires c.Valid() && Init(s0)
    ensures var run := [TEN, Post(EMPLOYEE, "", FIVE_DAYS, "r_1", "c_1", false), ApplySnapshot(ANNUAL, 3.0, Some(Ms(1)))];
            && Exec(c, s0, run).Some?
            && ANNUAL in Exec(c, s0, run).value.db.balances
            && Effective(Exec(c, s0, run).value.db, ANNUAL) == -2.0
  {
    hide Next, Exec, Effective;
    var e2, e3 := Post(EMPLOYEE, "", FIVE_DAYS, "r_1", "c_1", false), ApplySnapshot(ANNUAL, 3.0, Some(Ms(1)));
    var t1 := Next(c, s0, TEN);
    AfterTen(c, s0);
    AfterFiling(c, t1, "", "r_1", "c_1", false);
    var t2 := Next(c, t1, e2);
    ExecMore(c, s0, [TEN], t1, e2);
    ExecMore(c, s0, [TEN] + [e2], t2, e3);
    assert [TEN] + [e2] + [e3] == [TEN, e2, e3];
    ThreeLeft(c, t2);
  }

  lemma FiveMore(vs: seq<Reservation>, id: Id, corr: Id, now: Time)
    ensures SumOpen(vs + [NewReservation(NewRequest(id, corr, now))], ANNUAL) == SumOpen(vs, ANNUAL) + 5
    ensures vs == [] ==> vs + [NewReservation(NewRequest(id, corr, now))] == [NewReservation(NewRequest(id, corr, now))]
    ensures SumOpen([], ANNUAL) == 0
  {
    SumAppend(vs, NewReservation(NewRequest(id, corr, now)), OpenDays(ANNUAL));
  }

  lemma ThreeLeft(c: Config, s: Sys)
    requires Aligned(s.db) && ANNUAL in s.db.balances && s.db.balances[ANNUAL].hcmSnapshotAt == Ms(0)
    requires s.db.reservations == [NewReservation(NewRequest("r_1", "c_1", s.clock))]
    ensures var t := Next(c, s, ApplySnapshot(ANNUAL, 3.0, Some(Ms(1))));
            ANNUAL in t.db.balances && Effective(t.db, ANNUAL) == -2.0
  {
    hide SumOpen, Round;
    RoundWhole(-2);
    FiveMore([], "r_1", "c_1", s.clock);
  }

  // ----- "Calling with identical asOf is a no-op" -----

  /** Repeating asOf leaves the cached balance alone exactly when the balance is the cached one; the version rises regardless. */
  lemma SameAsOfIsNoOpIff(db: Db, k: Key, balance: real, asOf: Stamp, now: Time)
    requires Aligned(db) && k in db.balances && balance >= 0.0 && Kept(asOf) == db.balances[k].hcmSnapshotAt
    ensures var b := db.balances[k];
            var tx := SnapshotTx(db, k, balance, Some(asOf), now);
            && tx.Committed? && k in Apply(db, tx.change).balances
            && var b' := Apply(db, tx.change).balances[k];
               && b'.version == b.version + 1 && b'.hcmSnapshotAt == b.hcmSnapshotAt
               && (b'.hcmBalance == b.hcmBalance <==> balance == b.hcmBalance)
  {
    hide SumOpen;
    if asOf.Iso? { LessIsTotal(asOf.text, asOf.text); }
  }

  // ----- "Older snapshots are ignored" -----

  const OLD_TEXT := Iso("2020-01-01T00:00:00Z")

  lemma OldTextIsText()
    ensures BareNumber(OLD_TEXT.text) == None && Kept(OLD_TEXT) == OLD_TEXT
  {
    assert OLD_TEXT.text[4] == '-' && OLD_TEXT.text[0] == '2';
  }

  /**
   * A batch row stamped 2020, which arrives as text, replaces a balance stamped in milliseconds of 2026; and then
   * a snapshot of the very beginning of 1970 replaces that.
   */
  lemma OlderTextReplacesNewer(c: Config, s: Sys)
    requires Aligned(s.db) && ANNUAL in s.db.balances && s.db.balances[ANNUAL].hcmSnapshotAt == Ms(1_767_225_600_000)
    ensures var e, f := ApplySnapshot(ANNUAL, 3.0, Some(OLD_TEXT)), ApplySnapshot(ANNUAL, 20.0, Some(Ms(0)));
            var t := Next(c, s, e);
            var u := Next(c, t, f);
            && Lookup(t.db.balances, ANNUAL).Some? && t.db.balances[ANNUAL].hcmBalance == 3.0
            && t.db.balances[ANNUAL].hcmSnapshotAt == OLD_TEXT
            && Lookup(u.db.balances, ANNUAL).Some? && u.db.balances[ANNUAL].hcmBalance == 20.0
            && u.db.balances[ANNUAL].hcmSnapshotAt == Ms(0)
            && Exec(c, s, [e, f]) == Some(u)
  {
    hide SumOpen, BareNumber, Exec;
    OldTextIsText();
    TwoEvents(c, s, ApplySnapshot(ANNUAL, 3.0, Some(OLD_TEXT)), ApplySnapshot(ANNUAL, 20.0, Some(Ms(0))));
  }

  // ----- "Idempotent": bare numbers beside proper texts -----

  const BARE_ROWS := [BatchRow(ANNUAL, 2.0, Some(Iso("+2020-01"))), BatchRow(ANNUAL, 3.0, Some(Iso("+2027"))),
                      BatchRow(ANNUAL, 4.0, Some(Iso("2026")))]

  /** A run after which a batch leaves another balance the second time than the first. */
  lemma BareNumbersBreakReplay(c: Config, s0: Sys, now: Time, now': Time) returns (s: Sys)
    requires c.Valid() && Init(s0)
    ensures Reached(c, s0, [ApplySnapshot(ANNUAL, 1.0, Some(Iso("2021-01")))], s) && Aligned(s.db)
    ensures var once := Batch(s.db, BARE_ROWS, Absent, now);
            var twice := Batch(once.db, BARE_ROWS, Absent, now');
            && once.error.None? && twice.error.None?
            && ANNUAL in once.db.balances && once.db.balances[ANNUAL].hcmBalance == 4.0
            && ANNUAL in twice.db.balances && twice.db.balances[ANNUAL].hcmBalance == 3.0
  {
    hide Next, Exec, Batch, Inv, Coupled, KeptStamps;
    InitConsumed(s0);
    var e := ApplySnapshot(ANNUAL, 1.0, Some(Iso("2021-01")));
    s := Next(c, s0, e);
    ExecOne(c, s0, e);
    FirstText(c, s0);
    ReachedInv(c, s0, [e], s);
    InvAligned(c, s);
    ReachedKeepsStamps(c, s0, [e], s);
    BareBatchTwice(c, s.db, now, now');
  }

  lemma FirstText(c: Config, s0: Sys)
    requires Init(s0)
    ensures var t := Next(c, s0, ApplySnapshot(ANNUAL, 1.0, Some(Iso("2021-01"))));
            ANNUAL in t.db.balances && t.db.balances[ANNUAL].hcmSnapshotAt == Iso("2021-01")
  {
    hide DigitsValue;
    assert "2021-01"[4] == '-' && "2021-01"[0] == '2';
  }

  /**
   * A batch that leaves another balance the second time: "+2027" and "2026" are years in ISO 8601 and numbers to
   * JavaScript, and against a cached text they compare as texts, against a cached number as numbers.
   */
  lemma BareBatchTwice(c: Config, db: Db, now: Time, now': Time)
    requires Coupled(db) && ANNUAL in db.balances
    requires KeptStamps(db) && db.balances[ANNUAL].hcmSnapshotAt == Iso("2021-01")
    ensures var once := Batch(db, BARE_ROWS, Absent, now);
            var twice := Batch(once.db, BARE_ROWS, Absent, now');
            && once.error.None? && twice.error.None?
            && ANNUAL in once.db.balances && once.db.balances[ANNUAL].hcmBalance == 4.0
            && ANNUAL in twice.db.balances && twice.db.balances[ANNUAL].hcmBalance == 3.0
  {
    hide Batch, Coupled, Cached, Stale, Kept, KeptStamps;
    AlignedWhenCoupled(db);
    var once := Batch(db, BARE_ROWS, Absent, now);
    assert Explicit(BARE_ROWS, Absent);
    ExplicitIsApplied(c, db, BARE_ROWS, Absent, now);
    BatchIsCoupled(c, db, BARE_ROWS, Absent, now);
    BatchKeepsStamps(c, db, BARE_ROWS, Absent, now);
    ExplicitIsApplied(c, once.db, BARE_ROWS, Absent, now');
    BatchCaches(c, db, BARE_ROWS, Absent, now, ANNUAL);
    BatchCaches(c, once.db, BARE_ROWS, Absent, now', ANNUAL);
    BareArrivals(now);
    BareArrivals(now');
    var x, w, d, e := Arrival(db.balances[ANNUAL].hcmBalance, Iso("2021-01")), Arrival(2.0, Iso("+2020-01")),
                      Arrival(3.0, Iso("+2027")), Arrival(4.0, Iso("2026"));
    ClashStamps(x.asOf, w.asOf, d.asOf, e.asOf);
    CachedOfThree(x, w, d, e);
    assert [x] + [w, d, e] == [x, w, d, e];
    CachedOfThree(e, w, d, e);
    assert [e] + [w, d, e] == [e, w, d, e];
    KeptArrival(e, [w, d, e]);
  }

  lemma BareArrivals(now: Time)
    ensures RowArrivals(BARE_ROWS, Absent, now, ANNUAL) ==
            [Arrival(2.0, Iso("+2020-01")), Arrival(3.0, Iso("+2027")), Arrival(4.0, Iso("2026"))]
  {
    var r := BARE_ROWS;
    assert r[..1][..0] == [] && r[..2][..1] == r[..1] && r[..3] == r && r[..3][..2] == r[..2];
    assert RowArrivals(r[..1], Absent, now, ANNUAL) == [Arrival(2.0, Iso("+2020-01"))];
    assert RowArrivals(r[..2], Absent, now, ANNUAL) == [Arrival(2.0, Iso("+2020-01")), Arrival(3.0, Iso("+2027"))];
  }

  // ----- "One bad row can't poison the batch" -----

  /** A row the database refuses: one whose time is NaN, or a negative balance that is not stale. */
  ghost predicate Refused(db: Db, rows: seq<BatchRow>, asOf: BatchTime, now: Time, j: nat)
    requires j < |rows|
  {
    var t := AsOf(rows[j], asOf, now);
    t.None? || (rows[j].balance < 0.0 && !IsStale(Seen(db, rows[..j], asOf, now, rows[j].key), t.value))
  }

  /** The loop throws exactly when some row is refused; the first such row stops every row after it. */
  lemma {:induction false} BatchStopsIff(c: Config, db: Db, rows: seq<BatchRow>, asOf: BatchTime, now: Time)
    requires Coupled(db) && KeptStamps(db)
    ensures Batch(db, rows, asOf, now).error.Some? <==> exists j :: 0 <= j < |rows| && Refused(db, rows, asOf, now, j)
    ensures Batch(db, rows, asOf, now).error.Some? ==>
              var n := |Batch(db, rows, asOf, now).applied|; n < |rows| && Refused(db, rows, asOf, now, n)
  {
    hide Refused, Row, Coupled, KeptStamps;
    AlignedWhenCoupled(db);
    if |rows| > 0 {
      var most := rows[..|rows| - 1];
      var r := Batch(db, most, asOf, now);
      BatchStopsIff(c, db, most, asOf, now);
      BatchSize(c, db, most, asOf, now);
      forall j | 0 <= j < |most| ensures Refused(db, most, asOf, now, j) == Refused(db, rows, asOf, now, j) {
        RefusedInPrefix(db, rows, asOf, now, j);
      }
      if r.error.None? {
        LastRefused(c, db, rows, asOf, now);
      }
    }
  }

  lemma RefusedInPrefix(db: Db, rows: seq<BatchRow>, asOf: BatchTime, now: Time, j: nat)
    requires j < |rows| - 1
    ensures Refused(db, rows[..|rows| - 1], asOf, now, j) == Refused(db, rows, asOf, now, j)
  {
    hide Seen, IsStale, AsOf;
    assert rows[..|rows| - 1][..j] == rows[..j];
  }

  lemma LastRefused(c: Config, db: Db, rows: seq<BatchRow>, asOf: BatchTime, now: Time)
    requires Coupled(db) && KeptStamps(db) && |rows| > 0 && Batch(db, rows[..|rows| - 1], asOf, now).error.None?
    ensures var r := Row(Batch(db, rows[..|rows| - 1], asOf, now), rows[|rows| - 1], asOf, now);
            && (r.error.Some? <==> Refused(db, rows, asOf, now, |rows| - 1))
            && (r.error.Some? ==> r.applied == Batch(db, rows[..|rows| - 1], asOf, now).applied)
  {
    var n := |rows| - 1;
    BatchCaches(c, db, rows[..n], asOf, now, rows[n].key);
    BatchIsCoupled(c, db, rows[..n], asOf, now);
    RowCaches(c, Batch(db, rows[..n], asOf, now), rows[n], asOf, now, rows[n].key, Seen(db, rows[..n], asOf, now, rows[n].key));
    hide Row, Batch, Caches, Seen, IsStale, AsOf, Coupled, KeptStamps;
  }

  /**
   * Of batches the webhook accepts, which hold no negative balance, exactly those fail that give a time
   * Date.parse cannot read and hold a row without a time of its own; the first such row ends the batch.
   */
  lemma AcceptedBatchStopsIff(c: Config, db: Db, rows: seq<BatchRow>, asOf: BatchTime, now: Time)
    requires Coupled(db) && KeptStamps(db) && forall j :: 0 <= j < |rows| ==> rows[j].balance >= 0.0
    ensures Batch(db, rows, asOf, now).error.Some? <==>
            asOf.Unreadable? && exists j :: 0 <= j < |rows| && rows[j].asOf.None?
    ensures Batch(db, rows, asOf, now).error.Some? ==>
              var n := |Batch(db, rows, asOf, now).applied|; n < |rows| && rows[n].asOf.None?
  {
    hide Seen, IsStale, Batch, Coupled, KeptStamps;
    BatchStopsIff(c, db, rows, asOf, now);
    if asOf.Unreadable? && exists j :: 0 <= j < |rows| && rows[j].asOf.None? {
      var j :| 0 <= j < |rows| && rows[j].asOf.None?;
      assert Refused(db, rows, asOf, now, j);
    }
  }

  /** Such a batch: its second row throws, and the third, which is as good as the first, is never applied. */
  lemma OneRowStopsTheBatch(c: Config, db: Db, other: Key, now: Time)
    requires Coupled(db) && KeptStamps(db)
    ensures var good, bare := BatchRow(ANNUAL, 3.0, Some(OLD_TEXT)), BatchRow(other, 3.0, None);
            && |Batch(db, [good, bare, good], Unreadable, now).applied| == 1
            && Batch(db, [good, bare, good], Unreadable, now).error.Some?
            && Batch(db, [good, good], Unreadable, now).error.None?
  {
    var good, bare := BatchRow(ANNUAL, 3.0, Some(OLD_TEXT)), BatchRow(other, 3.0, None);
    hide Seen, IsStale, Batch, Coupled, KeptStamps;
    assert [good, bare, good][1].asOf.None?;
    AcceptedBatchStopsIff(c, db, [good, bare, good], Unreadable, now);
    AcceptedBatchStopsIff(c, db, [good, good], Unreadable, now);
  }

  // ----- "First call stores the response; subsequent calls return it" -----

  /** The process dies between committing a filing and storing its response, and the retry files a second request. */
  lemma LostStoreFilesTwice(c: Config, s0: Sys)
    requires c.Valid() && Init(s0)
    ensures var first := Post(EMPLOYEE, "key", FIVE_DAYS, "r_1", "c_1", true);
            var again := Post(EMPLOYEE, "key", FIVE_DAYS, "r_2", "c_2", false);
            var x := Exec(c, s0, [TEN, first, again]);
            && x.Some? && |x.value.db.requests| == 2
            && x.value.db.requests[0].state == x.value.db.requests[1].state == RequestState.Pending
            && SumOpen(x.value.db.reservations, ANNUAL) == 10
  {
    hide Next, Exec, Effective, Coupled, SumOpen, IdemLookup, FindRequest;
    var first, again := Post(EMPLOYEE, "key", FIVE_DAYS, "r_1", "c_1", true), Post(EMPLOYEE, "key", FIVE_DAYS, "r_2", "c_2", false);
    var t1 := Next(c, s0, TEN);
    AfterTen(c, s0);
    AfterFiling(c, t1, "key", "r_1", "c_1", true);
    var t2 := Next(c, t1, first);
    ExecMore(c, s0, [TEN], t1, first);
    ExecMore(c, s0, [TEN] + [first], t2, again);
    assert [TEN] + [first] + [again] == [TEN, first, again];
    StillEnough(c, s0, t2, s0.clock);
    KeyIsFree(s0, t2);
    AfterFiling(c, t2, "key", "r_2", "c_2", false);
    FiveMore([], "r_1", "c_1", s0.clock);
    FiveMore(t2.db.reservations, "r_2", "c_2", s0.clock);
  }

  lemma KeyIsFree(s0: Sys, s: Sys)
    requires Init(s0) && s.idem == IdemPurged(s0.idem, IdemKey("key", ENDPOINT, EMPLOYEE.sub), s0.clock)
    requires |s.db.requests| == 1 && s.db.requests[0].id == "r_1"
    ensures IdemLookup(s.idem, IdemKey("key", ENDPOINT, EMPLOYEE.sub), s.clock).None? && FindRequest(s.db.requests, "r_2").None?
  {
  }

  lemma StillEnough(c: Config, s0: Sys, s: Sys, now: Time)
    requires c.Valid() && Init(s0) && Exec(c, s0, [TEN] + [Post(EMPLOYEE, "key", FIVE_DAYS, "r_1", "c_1", true)]) == Some(s)
    requires ANNUAL in s.db.balances && s.db.balances[ANNUAL].hcmBalance == 10.0
    requires s.db.reservations == [NewReservation(NewRequest("r_1", "c_1", now))]
    ensures Coupled(s.db) && Effective(s.db, ANNUAL) == 5.0
  {
    hide Exec;
    RunInv(c, s0, [TEN] + [Post(EMPLOYEE, "key", FIVE_DAYS, "r_1", "c_1", true)]);
    RoundWhole(5);
    FiveMore([], "r_1", "c_1", now);
  }

  // ----- An approval on its way to HCM -----

  /** A manager who is named by nobody. */
  const MANAGER := Actor("M-9", {Manager}, None)
  const FILE := Post(EMPLOYEE, "", FIVE_DAYS, "r_1", "c_1", false)
  const APPROVE := Approve(MANAGER, "r_1", "x_1")

  function Payload5(): Payload {
    Payload(ANNUAL, 5, FIVE_DAYS.startDate, FIVE_DAYS.endDate, "x_1", "c_1")
  }

  ghost predicate Submitting(s: Sys) {
    && |s.db.requests| == 1 && s.db.requests[0].id == "r_1" && s.db.requests[0].state == Approved
    && s.db.requests[0].key == ANNUAL && s.db.requests[0].managerId == None
    && s.db.requests[0].externalRequestId == Some("x_1") && s.db.requests[0].approverId == Some(MANAGER.sub)
    && |s.db.outbox| == 1 && s.db.outbox[0].status == Inflight && s.db.outbox[0].attempts == 0
    && s.db.outbox[0].requestId == "r_1" && s.db.outbox[0].payload == Payload5()
    && s.worker == AwaitBalance([Claimed(0, "r_1", Payload5())]) && s.sent == []
  }

  /**
   * Filed, approved and claimed.  The manager is not the request's: it names none, so the code lets any manager
   * act, although the documents ask for a matching managerId.
   */
  lemma AnyManagerApproves(c: Config, s0: Sys) returns (s: Sys)
    requires c.Valid() && Init(s0)
    ensures Reached(c, s0, [TEN, FILE, APPROVE, Tick], s) && Submitting(s) && s.hcm == s0.hcm && Aligned(s.db)
  {
    hide Next, Exec, Effective, Submitting;
    var t1 := Next(c, s0, TEN);
    AfterTen(c, s0);
    AfterFiling(c, t1, "", "r_1", "c_1", false);
    var t2 := Next(c, t1, FILE);
    ExecMore(c, s0, [TEN], t1, FILE);
    var t3 := Next(c, t2, APPROVE);
    ExecMore(c, s0, [TEN] + [FILE], t2, APPROVE);
    AfterApproval(c, t2);
    s := Next(c, t3, Tick);
    ExecMore(c, s0, [TEN] + [FILE] + [APPROVE], t3, Tick);
    AfterClaim(c, t3);
    assert [TEN] + [FILE] + [APPROVE] + [Tick] == [TEN, FILE, APPROVE, Tick];
  }

  ghost predicate Waiting(s: Sys) {
    && Aligned(s.db) && |s.db.requests| == 1 && s.db.requests[0].id == "r_1" && s.db.requests[0].state == Approved
    && s.db.requests[0].key == ANNUAL && s.db.requests[0].managerId == None
    && s.db.requests[0].externalRequestId == Some("x_1") && s.db.requests[0].approverId == Some(MANAGER.sub)
    && |s.db.outbox| == 1 && s.db.outbox[0].status == RowStatus.Pending && s.db.outbox[0].nextAttemptAt <= s.clock
    && s.db.outbox[0].requestId == "r_1" && s.db.outbox[0].payload == Payload5() && s.db.outbox[0].attempts == 0
    && s.worker == Idle && s.sent == []
  }

  lemma AfterApproval(c: Config, s: Sys)
    requires Aligned(s.db) && s.db.requests == [NewRequest("r_1", "c_1", s.clock)] && s.db.outbox == []
    requires s.worker == Idle && s.sent == []
    ensures var t := Next(c, s, APPROVE); Waiting(t) && t.hcm == s.hcm
  {
    assert FindRequest(s.db.requests, "r_1") == Some(0);
  }

  lemma AfterClaim(c: Config, s: Sys)
    requires c.Valid() && Waiting(s)
    ensures var t := Next(c, s, Tick); Submitting(t) && t.hcm == s.hcm && Aligned(t.db)
  {
    assert DueRows(s.db.outbox, s.clock, c.batchSize, 0) == [0];
  }

  // ----- "On success, mark the request CONSUMED" -----

  /** HCM's acceptance leaves the request CONSUMED exactly when it found it APPROVED, or CONSUMED already. */
  lemma AcceptanceConsumesIff(c: Config, s: Sys, i: nat, random: real, text: string)
    requires Inv(c, s) && s.worker.AwaitConsume? && Jitter(random)
    requires Enabled(s, ConsumeReply(Accepted, random, text))
    requires FindRequest(s.db.requests, s.worker.rows[0].requestId) == Some(i)
    ensures var s' := Next(c, s, ConsumeReply(Accepted, random, text));
            && |s'.db.requests| == |s.db.requests|
            && (s'.db.requests[i].state == RequestState.Consumed <==>
                s.db.requests[i].state in {Approved, RequestState.Consumed})
  {
    hide Inv, Next, WorkerInv, Coupled;
    var e := ConsumeReply(Accepted, random, text);
    InvAligned(c, s);
    AlignedWhenCoupled(s.db);
    RepliesFileNothing(c, s, e);
    var to := Next(c, s, e).db.requests[i].state;
    if s.db.requests[i].state != RequestState.Consumed { StateChangesIff(c, s, e, i, RequestState.Consumed); }
    if s.db.requests[i].state != to { StateChangesIff(c, s, e, i, to); }
  }

  lemma RepliesFileNothing(c: Config, s: Sys, e: Event)
    requires Aligned(s.db) && e.ConsumeReply? && Enabled(s, e)
    ensures |Next(c, s, e).db.requests| == |s.db.requests|
  {
    hide MarkTx;
    MarkKinds(s.db, s.worker.rows[0].requestId, s.clock);
  }

  lemma InvAligned(c: Config, s: Sys)
    requires Inv(c, s)
    ensures Coupled(s.db) && WorkerInv(s)
  {
  }

  /**
   * So a request cancelled while its consume call is out is debited and yet not CONSUMED: HCM is short
   * of the days, and the employee's reservation of them is released.
   */
  lemma CancelledInFlightIsDebited(c: Config, s0: Sys, run: seq<Event>, s: Sys, m: nat, i: nat, owner: Actor)
    requires Reached(c, s0, run, s) && m < |s.sent| && Debits(s.hcm, s.sent[m].payload)
    requires FindRequest(s.db.requests, s.sent[m].requestId) == Some(i)
    requires s.db.requests[i].state == Approved && owner.sub == s.db.requests[i].key.employeeId
    ensures var x := Exec(c, s, [HcmProcess(m), Cancel(owner, s.sent[m].requestId)]);
            && x.Some? && i < |x.value.db.requests| && i < |x.value.db.reservations|
            && x.value.db.requests[i].state == Cancelled && x.value.db.reservations[i].state == Released
            && s.db.requests[i].externalRequestId.Some?
            && s.db.requests[i].externalRequestId.value in x.value.hcm.consumed
            && x.value.db.requests[i].externalRequestId == s.db.requests[i].externalRequestId
  {
    hide Reached, Inv, CancelTx, Apply, Debits, Consume, Exec;
    ReachedInv(c, s0, run, s);
    SentRequest(c, s, m, i);
    InvAligned(c, s);
    var e1, e2 := HcmProcess(m), Cancel(owner, s.sent[m].requestId);
    var t := s.(hcm := Consume(s.hcm, s.sent[m].payload));
    assert Next(c, s, e1) == t by { NothingWritten(s.db); }
    ConsumeSees(s.hcm, s.sent[m].payload);
    CancelWrites(s.db, owner, s.sent[m].requestId, s.clock, i);
    TwoEvents(c, s, e1, e2);
  }

  lemma ConsumeSees(h: Hcm, p: Payload)
    requires Debits(h, p)
    ensures p.externalRequestId in Consume(h, p).consumed
  {
  }

  /** A message on the wire carries its request's external id, and an APPROVED request holds its days. */
  lemma SentRequest(c: Config, s: Sys, m: nat, i: nat)
    requires Inv(c, s) && m < |s.sent| && FindRequest(s.db.requests, s.sent[m].requestId) == Some(i)
    ensures s.db.requests[i].externalRequestId == Some(s.sent[m].payload.externalRequestId)
    ensures i < |s.db.reservations| && (s.db.requests[i].state == Approved ==> s.db.reservations[i].state.Open?)
  {
    assert IsCopy(s.db, s.sent[m]);
    assert Owned(s.db.requests, s.db.outbox[s.sent[m].id]);
    assert Matches(s.db.requests[i], s.db.reservations[i]);
  }

  lemma CancelWrites(db: Db, owner: Actor, id: Id, now: Time, i: nat)
    requires Aligned(db) && FindRequest(db.requests, id) == Some(i) && owner.sub == db.requests[i].key.employeeId
    requires db.requests[i].state == Approved && db.reservations[i].state.Open?
    ensures var db' := Apply(db, ChangeOf(CancelTx(db, owner, id, now)));
            && |db'.requests| == |db.requests| && |db'.reservations| == |db.reservations|
            && db'.requests[i].state == Cancelled && db'.reservations[i].state == Released
            && db'.requests[i].externalRequestId == db.requests[i].externalRequestId
  {
  }

  lemma TwoEvents(c: Config, s: Sys, e1: Event, e2: Event)
    requires Aligned(s.db) && Enabled(s, e1) && Enabled(Next(c, s, e1), e2)
    ensures Exec(c, s, [e1, e2]) == Some(Next(c, Next(c, s, e1), e2))
  {
    hide Next, Enabled;
    assert [e1, e2][..1] == [e1] && [e1][..0] == [];
    assert Exec(c, s, [e1]) == Some(Next(c, s, e1));
  }

  /** The request's consume call is out, HCM has the days, and nothing was debited yet. */
  lemma ConsumeIsOut(c: Config, s0: Sys, text: string) returns (run: seq<Event>, s: Sys)
    requires c.Valid() && Init(s0)
    ensures Reached(c, s0, run, s) && |s.sent| == 1 && Debits(s.hcm, s.sent[0].payload)
    ensures |s.db.requests| == 1 && s.db.requests[0].id == s.sent[0].requestId == "r_1" && s.db.requests[0].state == Approved
    ensures s.db.requests[0].key == ANNUAL && s.db.requests[0].externalRequestId == Some("x_1")
    ensures s.worker == AwaitConsume([Claimed(0, "r_1", Payload5())]) && "x_1" !in s.hcm.consumed
    ensures HcmBalance(s.hcm, ANNUAL) == 5.0 && s.db.requests[0].managerId == None && s.sent == s.worker.rows
    ensures |s.db.outbox| == 1 && s.db.outbox[0].attempts == 0 && s.db.outbox[0].status == Inflight
    ensures s.db.outbox[0].requestId == "r_1" && s.db.outbox[0].payload == Payload5()
  {
    hide Next, Exec, Init;
    var t := AnyManagerApproves(c, s0);
    run := [TEN, FILE, APPROVE, Tick];
    InitConsumed(s0);
    var e := HcmChange(ANNUAL, 5.0 - HcmBalance(t.hcm, ANNUAL));
    var u := Next(c, t, e);
    ExecMore(c, s0, run, t, e);
    AfterTopUp(c, t);
    var f := BalanceReply(None, 0.0, text);
    s := Next(c, u, f);
    ExecMore(c, s0, run + [e], u, f);
    AfterNoView(c, u, text);
    run := run + [e] + [f];
  }

  lemma InitConsumed(s0: Sys)
    requires Init(s0)
    ensures s0.hcm.consumed == {} && Aligned(s0.db)
  {
  }

  lemma AfterTopUp(c: Config, s: Sys)
    requires Aligned(s.db)
    ensures var t := Next(c, s, HcmChange(ANNUAL, 5.0 - HcmBalance(s.hcm, ANNUAL)));
            t == s.(hcm := t.hcm) && t.hcm.consumed == s.hcm.consumed && HcmBalance(t.hcm, ANNUAL) == 5.0
  {
    NothingWritten(s.db);
  }

  lemma AfterNoView(c: Config, s: Sys, text: string)
    requires Aligned(s.db) && s.worker.AwaitBalance? && |s.worker.rows| > 0
    ensures Next(c, s, BalanceReply(None, 0.0, text)) ==
            s.(worker := AwaitConsume(s.worker.rows), sent := s.sent + [s.worker.rows[0]])
  {
    NothingWritten(s.db);
  }

  /** A run in which that happens, from the filing to the cancellation. */
  lemma DebitedYetCancelled(c: Config, s0: Sys, text: string) returns (run: seq<Event>, t: Sys)
    requires c.Valid() && Init(s0)
    ensures Exec(c, s0, run) == Some(t)
    ensures |t.db.requests| == 1 && |t.db.reservations| == 1
    ensures t.db.requests[0].state == Cancelled && t.db.reservations[0].state == Released
    ensures t.db.requests[0].externalRequestId == Some("x_1") && "x_1" in t.hcm.consumed
  {
    hide Next, Exec, Debits;
    var before, s := ConsumeIsOut(c, s0, text);
    var last := [HcmProcess(0), Cancel(EMPLOYEE, "r_1")];
    assert FindRequest(s.db.requests, "r_1") == Some(0);
    CancelledInFlightIsDebited(c, s0, before, s, 0, 0, EMPLOYEE);
    ExecConcat(c, s0, before, last);
    run := before + last;
    t := Exec(c, s, last).value;
    RunInv(c, s0, run);
    OnlyOneRequest(c, s, t, EMPLOYEE);
  }

  lemma OnlyOneRequest(c: Config, s: Sys, t: Sys, owner: Actor)
    requires Aligned(s.db) && |s.db.requests| == 1 && |s.sent| > 0
    requires Exec(c, s, [HcmProcess(0), Cancel(owner, "r_1")]) == Some(t)
    ensures |t.db.requests| == 1 && |t.db.reservations| == 1
  {
    TwoEvents(c, s, HcmProcess(0), Cancel(owner, "r_1"));
    hide Exec;
  }

  // ----- "200-OK but with wrong data" -----

  /** HCM answers with success what it never recorded, and the request ends CONSUMED without a debit. */
  lemma FalseSuccessIsBelieved(c: Config, s0: Sys, text: string) returns (run: seq<Event>, t: Sys)
    requires c.Valid() && Init(s0)
    ensures Exec(c, s0, run) == Some(t) && |t.db.requests| == 1
    ensures t.db.requests[0].state == RequestState.Consumed && t.db.requests[0].externalRequestId == Some("x_1")
    ensures "x_1" !in t.hcm.consumed
  {
    hide Next, Exec, Debits;
    var before, s := ConsumeIsOut(c, s0, text);
    var e := ConsumeReply(Accepted, 0.0, text);
    t := Next(c, s, e);
    run := before + [e];
    ExecMore(c, s0, before, s, e);
    assert FindRequest(s.db.requests, "r_1") == Some(0);
    ReachedInv(c, s0, before, s);
    AcceptanceConsumesIff(c, s, 0, 0.0, text);
    AcceptanceKeeps(c, s, e);
  }

  lemma AcceptanceKeeps(c: Config, s: Sys, e: Event)
    requires Coupled(s.db) && e.ConsumeReply? && e.reply == Accepted && Enabled(s, e) && |s.db.requests| == 1
    ensures var t := Next(c, s, e);
            && t.hcm == s.hcm && |t.db.requests| == 1
            && t.db.requests[0].externalRequestId == s.db.requests[0].externalRequestId
  {
    hide Targets;
  }

  // ----- "500 but actually persist" -----

  /**
   * When HCM has debited an APPROVED request already and the worker handles its row again, HCM's balance, by
   * now lowered, decides: the request ends CONSUMED if it still shows the days and in review if it does not.
   */
  lemma DebitedRowIff(c: Config, s: Sys, random: real, text: string) returns (t: Sys, i: nat)
    requires Inv(c, s) && s.worker.AwaitBalance? && Jitter(random) && Aligned(s.db) && |s.worker.rows| > 0
    requires s.worker.rows[0].payload.externalRequestId in s.hcm.consumed
    requires FindRequest(s.db.requests, s.worker.rows[0].requestId).Some?
    requires s.db.requests[FindRequest(s.db.requests, s.worker.rows[0].requestId).value].state == Approved
    ensures Exec(c, s, RowScript(s, random, text)) == Some(t) && t.hcm == s.hcm
    ensures FindRequest(s.db.requests, s.worker.rows[0].requestId) == Some(i) && i < |t.db.requests|
    ensures var p := s.worker.rows[0].payload;
            && (t.db.requests[i].state == RequestState.Consumed <==> HcmBalance(s.hcm, p.key) >= p.days as real)
            && (t.db.requests[i].state == ReviewRequired <==> HcmBalance(s.hcm, p.key) < p.days as real)
  {
    hide Inv, Exec, RowScript, Handled, FindRequest;
    t := Handled(c, s, random, text);
    i := RowOutcome(c, s, random, text);
  }

  /**
   * HCM has five days, debits the five asked for, and its reply is lost.  The retry reads a balance of zero, so
   * the request goes into review, where a manager can reject it: debited, REJECTED, and its days released.
   */
  lemma LostReplyEndsInReview(c: Config, s0: Sys, text: string) returns (run: seq<Event>, t: Sys)
    requires c.Valid() && c.maxAttempts >= 2 && Init(s0)
    ensures Exec(c, s0, run) == Some(t) && |t.db.requests| == 1 && |t.db.reservations| == 1
    ensures t.db.requests[0].state == Rejected && t.db.reservations[0].state == Released
    ensures t.db.requests[0].externalRequestId == Some("x_1") && "x_1" in t.hcm.consumed
  {
    hide Next, Exec, Debits, Inv, Init, RowScript, Holding5;
    InitConsumed(s0);
    var before, s := ConsumeIsOut(c, s0, text);
    ReachedInv(c, s0, before, s);
    var more, u := ReplyIsLost(c, s, text);
    ExecConcat(c, s0, before, more);
    RunInv(c, s0, before + more);
    HeldAgain(c, u);
    var script := RowScript(u, 0.0, text);
    var v, i := DebitedRowIff(c, u, 0.0, text);
    ExecConcat(c, s0, before + more, script);
    RunInv(c, s0, before + more + script);
    Reviewed(c, u, v, i, text);
    var e := Reject(MANAGER, "r_1", None);
    t := Next(c, v, e);
    run := before + more + script + [e];
    ExecMore(c, s0, before + more + script, v, e);
    AfterRejection(c, v);
  }

  /** The debited request's row in hand once more, with nothing left in HCM. */
  ghost predicate Holding5(s: Sys) {
    && s.worker == AwaitBalance([Claimed(0, "r_1", Payload5())])
    && |s.db.requests| == 1 && s.db.requests[0].id == "r_1" && s.db.requests[0].state == Approved
    && s.db.requests[0].managerId == None && s.db.requests[0].externalRequestId == Some("x_1")
    && "x_1" in s.hcm.consumed && HcmBalance(s.hcm, ANNUAL) == 0.0
  }

  lemma HeldAgain(c: Config, s: Sys)
    requires Inv(c, s) && Holding5(s)
    ensures Aligned(s.db) && s.worker == AwaitBalance([Claimed(0, "r_1", Payload5())])
    ensures s.worker.rows[0].payload.externalRequestId in s.hcm.consumed
    ensures FindRequest(s.db.requests, s.worker.rows[0].requestId) == Some(0) && s.db.requests[0].state == Approved
  {
  }

  lemma ReplyIsLost(c: Config, s: Sys, text: string) returns (run: seq<Event>, u: Sys)
    requires c.Valid() && c.maxAttempts >= 2 && Aligned(s.db) && s.sent == [Claimed(0, "r_1", Payload5())] && Debits(s.hcm, s.sent[0].payload)
    requires |s.db.requests| == 1 && s.db.requests[0].id == "r_1" && s.db.requests[0].state == Approved
    requires s.db.requests[0].managerId == None && s.db.requests[0].externalRequestId == Some("x_1")
    requires s.worker == AwaitConsume([Claimed(0, "r_1", Payload5())]) && HcmBalance(s.hcm, ANNUAL) == 5.0
    requires |s.db.outbox| == 1 && s.db.outbox[0].attempts == 0
    requires s.db.outbox[0].requestId == "r_1" && s.db.outbox[0].payload == Payload5()
    ensures Exec(c, s, run) == Some(u) && Holding5(u)
  {
    hide Next, Exec, Debits, Holding5, HcmBalance, ComputeBackoffMs;
    var e1, e2 := HcmProcess(0), ConsumeReply(TransientError, 0.0, text);
    var s1 := Next(c, s, e1);
    AfterDebit(c, s);
    var s2 := Next(c, s1, e2);
    AfterLostReply(c, s1, text);
    var e3 := Advance(s.clock + 1300);
    var s3 := Next(c, s2, e3);
    AfterWaiting(c, s2, s.clock + 1300);
    u := Next(c, s3, Tick);
    ExecOne(c, s, e1);
    ExecMore(c, s, [e1], s1, e2);
    ExecMore(c, s, [e1] + [e2], s2, e3);
    ExecMore(c, s, [e1] + [e2] + [e3], s3, Tick);
    run := [e1] + [e2] + [e3] + [Tick];
    AfterSecondClaim(c, s3);
  }

  lemma AfterDebit(c: Config, s: Sys)
    requires Aligned(s.db) && |s.sent| == 1 && s.sent[0].payload == Payload5() && Debits(s.hcm, Payload5())
    requires HcmBalance(s.hcm, ANNUAL) == 5.0
    ensures var t := Next(c, s, HcmProcess(0));
            t == s.(hcm := t.hcm) && "x_1" in t.hcm.consumed && HcmBalance(t.hcm, ANNUAL) == 0.0
  {
    NothingWritten(s.db);
  }

  lemma AfterLostReply(c: Config, s: Sys, text: string)
    requires Aligned(s.db) && c.maxAttempts >= 2 && |s.db.outbox| == 1 && s.db.outbox[0].attempts == 0
    requires s.worker == AwaitConsume([Claimed(0, "r_1", Payload5())])
    ensures var t := Next(c, s, ConsumeReply(TransientError, 0.0, text));
            && t == s.(db := s.db.(outbox := t.db.outbox), worker := Idle)
            && |t.db.outbox| == 1 && t.db.outbox[0].status == RowStatus.Pending && t.db.outbox[0].nextAttemptAt < s.clock + 1300
            && t.db.outbox[0].requestId == s.db.outbox[0].requestId && t.db.outbox[0].payload == s.db.outbox[0].payload
  {
    hide ComputeBackoffMs, MarkTx;
    WaitRange(1, 0.0);
    BaseTable(1);
  }

  lemma AfterWaiting(c: Config, s: Sys, to: Time)
    requires Aligned(s.db) && to >= s.clock
    ensures Next(c, s, Advance(to)) == s.(clock := to)
  {
    NothingWritten(s.db);
  }

  lemma AfterSecondClaim(c: Config, s: Sys)
    requires c.Valid() && Aligned(s.db) && s.worker == Idle && |s.db.outbox| == 1 && Due(s.db.outbox[0], s.clock)
    requires s.db.outbox[0].requestId == "r_1" && s.db.outbox[0].payload == Payload5()
    requires |s.db.requests| == 1 && s.db.requests[0].id == "r_1" && s.db.requests[0].state == Approved
    requires s.db.requests[0].managerId == None && s.db.requests[0].externalRequestId == Some("x_1")
    requires "x_1" in s.hcm.consumed && HcmBalance(s.hcm, ANNUAL) == 0.0
    ensures Holding5(Next(c, s, Tick))
  {
    hide HcmBalance;
    assert DueRows(s.db.outbox, s.clock, c.batchSize, 0) == [0];
  }

  lemma Reviewed(c: Config, s: Sys, t: Sys, i: nat, text: string)
    requires Inv(c, s) && Inv(c, t) && Holding5(s) && t.hcm == s.hcm && Exec(c, s, RowScript(s, 0.0, text)) == Some(t)
    requires FindRequest(s.db.requests, "r_1") == Some(i) && i < |t.db.requests|
    requires t.db.requests[i].state == ReviewRequired <==> HcmBalance(s.hcm, ANNUAL) < 5.0
    ensures Coupled(t.db) && |t.db.requests| == 1 && t.db.requests[0].id == "r_1" && t.db.requests[0].state == ReviewRequired
    ensures t.db.requests[0].managerId == None && t.db.requests[0].externalRequestId == Some("x_1") && "x_1" in t.hcm.consumed
  {
    hide Exec, RowScript, DbInv, SentInv, HcmInv, HcmBalance, MarkTx;
    InvAligned(c, s);
    InvAligned(c, t);
    AnyRowRuns(c, s, 0.0, text);
    ShortHandled(c, s, text);
  }

  lemma ShortHandled(c: Config, s: Sys, text: string)
    requires Holding5(s) && Aligned(s.db)
    ensures var t := Handled(c, s, 0.0, text);
            && |t.db.requests| == 1 && t.db.requests[0].id == "r_1" && t.db.requests[0].managerId == None
            && t.db.requests[0].externalRequestId == Some("x_1")
  {
    hide RetryChange, Settled;
  }

  lemma AfterRejection(c: Config, s: Sys)
    requires Coupled(s.db) && |s.db.requests| == 1 && s.db.requests[0].id == "r_1" && s.db.requests[0].state == ReviewRequired
    requires s.db.requests[0].managerId == None
    ensures var t := Next(c, s, Reject(MANAGER, "r_1", None));
            && t.hcm == s.hcm && |t.db.requests| == 1 && |t.db.reservations| == 1
            && t.db.requests[0].state == Rejected && t.db.reservations[0].state == Released
            && t.db.requests[0].externalRequestId == s.db.requests[0].externalRequestId
  {
    assert Matches(s.db.requests[0], s.db.reservations[0]);
    assert FindRequest(s.db.requests, "r_1") == Some(0);
  }

  // ----- "Recoverable from any partial failure" -----

  /** An INFLIGHT row that the worker does not hold. */
  predicate Stranded(s: Sys, r: nat) {
    r < |s.db.outbox| && s.db.outbox[r].status == Inflight && NotHeld(s.worker, r)
  }

  predicate NotHeld(w: Worker, r: nat) {
    w.Idle? || forall j :: 0 <= j < |w.rows| ==> w.rows[j].id != r
  }

  lemma StrandedStep(c: Config, s: Sys, e: Event, r: nat)
    requires Aligned(s.db) && WorkerInv(s) && Enabled(s, e) && Stranded(s, r) && e != ResetToPending(r)
    ensures Stranded(Next(c, s, e), r) && Next(c, s, e).db.outbox[r] == s.db.outbox[r]
  {
    EffectAllowed(c, s, e);
    OnlyAdminResets(c, s, e);
    StillNotHeld(c, s, e, r);
    hide EffectOf, Apply, Allowed, NotHeld, WorkerInv;
    InflightUntouched(c, s.db, EffectOf(c, s, e).change, r);
  }

  /** Nothing but the handling of held rows and the claiming of due ones moves rows into and out of the worker's memory. */
  lemma StillNotHeld(c: Config, s: Sys, e: Event, r: nat)
    requires WorkerInv(s) && Enabled(s, e) && Stranded(s, r)
    ensures var f := EffectOf(c, s, e);
            NotHeld(f.rest.worker, r) && (f.change.Finish? || f.change.Retry? ==> f.change.row != r)
  {
    hide EffectOf, HoldsRows, Excused;
    if s.worker.Idle? {
      IdleShape(c, s, e);
    } else {
      WorkerShape(c, s, e);
      CompletesInHand(c, s, e);
    }
  }

  lemma CompletesInHand(c: Config, s: Sys, e: Event)
    requires Enabled(s, e) && !s.worker.Idle? && |s.worker.rows| > 0
    ensures var ch := EffectOf(c, s, e).change;
            ch.Finish? || ch.Retry? ==> ch.row == s.worker.rows[0].id
  {
    hide CreateTx, ApproveTx, RejectTx, CancelTx, MarkTx, SnapshotTx;
    TxKinds(s.db, e, s.clock);
    MarkKinds(s.db, s.worker.rows[0].requestId, s.clock);
  }

  lemma OnlyAdminResets(c: Config, s: Sys, e: Event)
    requires Enabled(s, e)
    ensures EffectOf(c, s, e).change.Reset? ==> e == ResetToPending(EffectOf(c, s, e).change.row)
  {
    TxKinds(s.db, e, s.clock);
    if e.BalanceReply? || e.ConsumeReply? {
      MarkKinds(s.db, s.worker.rows[0].requestId, s.clock);
    }
    hide CreateTx, ApproveTx, RejectTx, CancelTx, MarkTx, SnapshotTx;
  }

  /** An idle worker completes nothing, and takes up only due rows. */
  lemma IdleShape(c: Config, s: Sys, e: Event)
    requires Enabled(s, e) && s.worker.Idle?
    ensures var f := EffectOf(c, s, e);
            && !f.change.Finish? && !f.change.Retry?
            && (!f.rest.worker.Idle? ==>
                  forall j :: 0 <= j < |f.rest.worker.rows| ==>
                    f.rest.worker.rows[j].id < |s.db.outbox| && Due(s.db.outbox[f.rest.worker.rows[j].id], s.clock))
  {
    TxKinds(s.db, e, s.clock);
    hide CreateTx, ApproveTx, RejectTx, CancelTx, MarkTx, SnapshotTx;
  }

  lemma InflightUntouched(c: Config, db: Db, ch: Change, r: nat)
    requires Aligned(db) && Allowed(c, db, ch) && r < |db.outbox| && db.outbox[r].status == Inflight
    requires ch.Finish? || ch.Retry? || ch.Reset? ==> ch.row != r
    ensures r < |Apply(db, ch).outbox| && Apply(db, ch).outbox[r] == db.outbox[r]
  {
    hide CanTransition, Effective, Excused;
  }

  /** Ticks, crashes and the passing of time do nothing for such a row: only an admin's reset does. */
  lemma {:induction false} StrandedUntilReset(c: Config, s: Sys, run: seq<Event>, r: nat)
    requires c.Valid() && Inv(c, s) && Stranded(s, r) && Exec(c, s, run).Some?
    requires ResetToPending(r) !in run
    ensures Stranded(Exec(c, s, run).value, r) && Exec(c, s, run).value.db.outbox[r] == s.db.outbox[r]
  {
    if |run| > 0 {
      var most := run[..|run| - 1];
      StrandedUntilReset(c, s, most, r);
      ExecKeepsInv(c, s, most);
      StrandedStep(c, Exec(c, s, most).value, run[|run| - 1], r);
    }
  }

  /**
   * A crash strands every claimed row: whatever follows, the row is INFLIGHT for as long as nobody
   * resets it, and due again at once when somebody does.
   */
  lemma CrashStrandsUntilReset(c: Config, s0: Sys, before: seq<Event>, s: Sys, run: seq<Event>, t: Sys, r: nat)
    requires Reached(c, s0, before, s) && r < |s.db.outbox| && s.db.outbox[r].status == Inflight
    requires Exec(c, s, [Crash] + run) == Some(t) && ResetToPending(r) !in run
    ensures r < |t.db.outbox| && t.db.outbox[r] == s.db.outbox[r]
    ensures t.clock >= 0 ==> r < |Next(c, t, ResetToPending(r)).db.outbox|
                             && Due(Next(c, t, ResetToPending(r)).db.outbox[r], t.clock)
  {
    hide Reached, Inv, Exec, Apply;
    ReachedInv(c, s0, before, s);
    InvAligned(c, s);
    AfterCrash(c, s);
    ExecOne(c, s, Crash);
    InvKept(c, s, Crash);
    ExecConcat(c, s, [Crash], run);
    StrandedUntilReset(c, Next(c, s, Crash), run, r);
    if t.clock >= 0 { ResetIsDue(c, t, r); }
  }

  /** A run after which that is the case of a row. */
  lemma CrashStrandsARow(c: Config, s0: Sys) returns (run: seq<Event>, t: Sys)
    requires c.Valid() && Init(s0)
    ensures Reached(c, s0, run + [Crash], t) && |t.db.outbox| == 1 && t.db.requests != [] && t.db.requests[0].state == Approved
    ensures Stranded(t, 0)
  {
    hide Next, Exec;
    var s := AnyManagerApproves(c, s0);
    run := [TEN, FILE, APPROVE, Tick];
    t := Next(c, s, Crash);
    AfterCrash(c, s);
    ExecMore(c, s0, run, s, Crash);
  }

  /**
   * A permanent error closes its row in any case.  The worker goes on to its other rows exactly when the request
   * was APPROVED or had failed before; a request that has moved on refuses the mark, the exception ends the tick,
   * and the rows after this one are stranded.
   */
  lemma PermanentErrorOutcome(c: Config, s: Sys, random: real, text: string) returns (t: Sys, i: nat)
    requires Inv(c, s) && s.worker.AwaitConsume? && Jitter(random)
    ensures Aligned(s.db) && |s.worker.rows| > 0 && FindRequest(s.db.requests, s.worker.rows[0].requestId) == Some(i)
    ensures Exec(c, s, [ConsumeReply(PermanentError, random, text), MarkDone]) == Some(t)
    ensures |t.db.outbox| == |s.db.outbox| && s.worker.rows[0].id < |s.db.outbox| && t.db.outbox[s.worker.rows[0].id].status == Done
    ensures forall j :: 0 < j < |s.worker.rows| ==>
              s.worker.rows[j].id < |s.db.outbox| && t.db.outbox[s.worker.rows[j].id] == s.db.outbox[s.worker.rows[j].id]
    ensures t.worker == if s.db.requests[i].state in {Approved, HcmFailed} then Holding(s.worker.rows[1..]) else Idle
  {
    hide DbInv, SentInv, HcmInv, Excused, Exec, Next, Enabled, FindRequest;
    InvAligned(c, s);
    HeldIsLive(s);
    InHandIsOwned(c, s);
    i := FindRequest(s.db.requests, s.worker.rows[0].requestId).value;
    var e := ConsumeReply(PermanentError, random, text);
    FailureSteps(c, s, e, i);
    var u := Next(c, s, e);
    t := Next(c, u, MarkDone);
    TwoEvents(c, s, e, MarkDone);
  }

  lemma FailureSteps(c: Config, s: Sys, e: Event, i: nat)
    requires Aligned(s.db) && s.worker.AwaitConsume? && |s.worker.rows| > 0 && s.worker.rows[0].id < |s.db.outbox|
    requires e.ConsumeReply? && e.reply == PermanentError && Jitter(e.random)
    requires FindRequest(s.db.requests, s.worker.rows[0].requestId) == Some(i)
    ensures Enabled(s, e) && Enabled(Next(c, s, e), MarkDone)
    ensures var t := Next(c, Next(c, s, e), MarkDone);
            && |t.db.outbox| == |s.db.outbox| && t.db.outbox[s.worker.rows[0].id].status == Done
            && (forall r :: 0 <= r < |s.db.outbox| && r != s.worker.rows[0].id ==> t.db.outbox[r] == s.db.outbox[r])
            && t.worker == if s.db.requests[i].state in {Approved, HcmFailed} then Holding(s.worker.rows[1..]) else Idle
  {
    hide FindRequest, Settled, Targets;
    Edges(s.db.requests[i].state, HcmFailed);
  }

  lemma AfterCrash(c: Config, s: Sys)
    requires Aligned(s.db)
    ensures Next(c, s, Crash) == s.(worker := Idle)
  {
  }

  lemma ResetIsDue(c: Config, s: Sys, r: nat)
    requires Aligned(s.db) && r < |s.db.outbox| && s.clock >= 0
    ensures r < |Next(c, s, ResetToPending(r)).db.outbox| && Due(Next(c, s, ResetToPending(r)).db.outbox[r], s.clock)
  {
  }
}
