/** Applying an HCM batch and escalating the requests it makes unserviceable (reconciliation.service.js). */
module Reconciliation {
  import opened Types
  import opened Stamps
  import opened Tables
  import opened Ledger
  import opened Invariants
  import opened Protocol
  import opened Safety
  import opened Guarantees
  import opened Convergence

  const REASON := "HCM balance fell below open reservations"

  /** A row's own asOf is the text HCM sent, or absent. */
  datatype BatchRow = BatchRow(key: Key, balance: real, asOf: Option<Stamp>)

  /**
   * The batch's asOf: absent, or what Date.parse makes of it, which is NaN for texts it cannot read.  The webhook
   * for a single balance hands over a batch of one row, dated by the batch.
   */
  datatype BatchTime = Absent | Unreadable | Read(time: Time)

  datatype Applied = Applied(key: Key, ignored: bool, negativeDrift: bool)

  /** error: the exception that ended the loop early; the rows before it stay applied. */
  datatype BatchResult = BatchResult(db: Db, applied: seq<Applied>, error: Option<Error>)

  /** row.asOf ?? asOf ?? now: None for NaN. */
  function AsOf(row: BatchRow, asOf: BatchTime, now: Time): Option<Stamp> {
    if row.asOf.Some? then row.asOf
    else
      match asOf
      case Absent => Some(Ms(now))
      case Unreadable => None
      case Read(t) => Some(Ms(t))
  }

  /** markReviewRequired on each id in turn; a refusal is logged and passed over. */
  function EscalateAll(db: Db, ids: seq<Id>, now: Time): (db': Db)
    requires Aligned(db)
    ensures Aligned(db')
  {
    if |ids| == 0 then db
    else
      var d := EscalateAll(db, ids[..|ids| - 1], now);
      Apply(d, ChangeOf(MarkTx(d, ids[|ids| - 1], ReviewRequired, Some(REASON), now)))
  }

  function Row(r: BatchResult, row: BatchRow, asOf: BatchTime, now: Time): (r': BatchResult)
    requires Aligned(r.db)
    ensures Aligned(r'.db)
  {
    match SnapshotTx(r.db, row.key, row.balance, AsOf(row, asOf, now), now)
    case RolledBack(error) => r.(error := Some(error))
    case Committed(ch, v) =>
      var d := Apply(r.db, ch);
      r.(db := if v.negativeDrift then EscalateAll(d, ApprovedIds(d.requests, row.key), now) else d,
         applied := r.applied + [Applied(row.key, v.ignored, v.negativeDrift)])
  }

  function Batch(db: Db, rows: seq<BatchRow>, asOf: BatchTime, now: Time): (r: BatchResult)
    requires Aligned(db)
    ensures Aligned(r.db)
  {
    if |rows| == 0 then BatchResult(db, [], None)
    else
      var r := Batch(db, rows[..|rows| - 1], asOf, now);
      if r.error.Some? then r else Row(r, rows[|rows| - 1], asOf, now)
  }

  // ----- What a batch may change -----

  /** Requests only move from APPROVED to REVIEW_REQUIRED, and only on these keys; no reservation or outbox row changes. */
  ghost predicate OnlyEscalates(a: Db, b: Db, keys: set<Key>) {
    && |a.requests| == |b.requests| && a.reservations == b.reservations && a.outbox == b.outbox
    && forall i :: 0 <= i < |a.requests| ==> Escalated(a.requests[i], b.requests[i], keys)
  }

  predicate Escalated(q: Request, q': Request, keys: set<Key>) {
    || q' == q
    || (q.key in keys && q.state == Approved && q'.state == ReviewRequired && SameRequest(q, q')
        && q'.hcmError == Some("HCM balance fell below open reservations"))
  }

  predicate NoneApproved(rs: seq<Request>, k: Key) {
    forall i :: 0 <= i < |rs| ==> rs[i].key != k || rs[i].state != Approved
  }

  lemma OnlyEscalatesThen(a: Db, b: Db, d: Db, j: set<Key>, k: set<Key>)
    requires OnlyEscalates(a, b, j) && OnlyEscalates(b, d, k)
    ensures OnlyEscalates(a, d, j + k)
  {
    forall i | 0 <= i < |a.requests| ensures Escalated(a.requests[i], d.requests[i], j + k) {
      assert Escalated(a.requests[i], b.requests[i], j) && Escalated(b.requests[i], d.requests[i], k);
    }
  }

  lemma EscalateOne(c: Config, db: Db, id: Id, k: Key, now: Time)
    requires Coupled(db)
    requires forall i :: 0 <= i < |db.requests| && db.requests[i].id == id ==> db.requests[i].key == k
    ensures var ch := ChangeOf(MarkTx(db, id, ReviewRequired, Some(REASON), now));
            var db' := Apply(db, ch);
            && Coupled(db') && OnlyEscalates(db, db', {k}) && db'.balances == db.balances
            && (forall i :: 0 <= i < |db'.requests| && db'.requests[i].id == id ==> db'.requests[i].state != Approved)
  {
    var ch := ChangeOf(MarkTx(db, id, ReviewRequired, Some(REASON), now));
    MarkAllowed(c, db, id, ReviewRequired, Some(REASON), now);
    CoupledKept(c, db, ch);
    hide Allowed;
    if ch.Move? {
      assert Matches(db.requests[ch.i], db.reservations[ch.i]);
      assert Settled(db.reservations[ch.i], ReviewRequired, now) == db.reservations[ch.i];
    }
  }

  /** Escalating every approved id of a key leaves none approved on it. */
  lemma {:induction false} EscalateAllOf(c: Config, db: Db, ids: seq<Id>, k: Key, now: Time)
    requires Coupled(db)
    requires forall i, j :: 0 <= i < |db.requests| && 0 <= j < |ids| && db.requests[i].id == ids[j] ==> db.requests[i].key == k
    ensures var db' := EscalateAll(db, ids, now);
            && Coupled(db') && OnlyEscalates(db, db', {k}) && db'.balances == db.balances
            && (forall i :: 0 <= i < |db'.requests| && db'.requests[i].id in ids ==> db'.requests[i].state != Approved)
  {
    if |ids| > 0 {
      var most, id := ids[..|ids| - 1], ids[|ids| - 1];
      EscalateAllOf(c, db, most, k, now);
      var d := EscalateAll(db, most, now);
      forall i | 0 <= i < |d.requests| ensures d.requests[i].id == db.requests[i].id && d.requests[i].key == db.requests[i].key {
        assert Escalated(db.requests[i], d.requests[i], {k});
      }
      EscalateOne(c, d, id, k, now);
      OnlyEscalatesThen(db, d, EscalateAll(db, ids, now), {k}, {k});
      hide Coupled, MarkTx, Apply;
      forall i | 0 <= i < |d.requests| && EscalateAll(db, ids, now).requests[i].id in ids
        ensures EscalateAll(db, ids, now).requests[i].state != Approved
      {
        assert Escalated(d.requests[i], EscalateAll(db, ids, now).requests[i], {k});
      }
    }
  }

  /** The query returns exactly the approved requests of the key. */
  lemma {:induction false} ApprovedIdsAreOfKey(rs: seq<Request>, k: Key)
    requires DistinctIds(rs)
    ensures forall i :: 0 <= i < |rs| ==> (rs[i].id in ApprovedIds(rs, k) <==> rs[i].key == k && rs[i].state == Approved)
    ensures forall id :: id in ApprovedIds(rs, k) ==> FindRequest(rs, id).Some?
  {
    if |rs| > 0 {
      ApprovedIdsAreOfKey(rs[..|rs| - 1], k);
    }
  }

  lemma EscalateKey(c: Config, db: Db, k: Key, now: Time)
    requires Coupled(db)
    ensures var db' := EscalateAll(db, ApprovedIds(db.requests, k), now);
            Coupled(db') && OnlyEscalates(db, db', {k}) && db'.balances == db.balances && NoneApproved(db'.requests, k)
  {
    var ids := ApprovedIds(db.requests, k);
    ApprovedIdsAreOfKey(db.requests, k);
    EscalateAllOf(c, db, ids, k, now);
    var db' := EscalateAll(db, ids, now);
    hide EscalateAll;
    forall i | 0 <= i < |db'.requests| ensures db'.requests[i].key != k || db'.requests[i].state != Approved {
      assert Escalated(db.requests[i], db'.requests[i], {k});
    }
  }

  function FlaggedKeys(applied: seq<Applied>): set<Key> {
    set j | 0 <= j < |applied| && applied[j].negativeDrift :: applied[j].key
  }

  /** What is promised of the rows applied so far. */
  ghost predicate BatchPost(db: Db, rows: seq<BatchRow>, r: BatchResult) {
    && |r.applied| <= |rows| && (r.error.None? ==> |r.applied| == |rows|)
    && Coupled(r.db)
    && OnlyEscalates(db, r.db, FlaggedKeys(r.applied))
    && (forall j :: 0 <= j < |r.applied| ==> RowPost(db, rows[j], r.applied[j]))
    && (forall k :: k in FlaggedKeys(r.applied) ==> NoneApproved(r.db.requests, k))
    && (forall k :: (forall j :: 0 <= j < |rows| ==> rows[j].key != k) ==> Lookup(r.db.balances, k) == Lookup(db.balances, k))
  }

  /** A row is flagged exactly when it is not stale and falls short of the days reserved when the batch began. */
  ghost predicate RowPost(db: Db, row: BatchRow, a: Applied) {
    a.key == row.key && (a.negativeDrift <==> !a.ignored && row.balance < SumOpen(db.reservations, row.key) as real)
  }

  /** The tables after one more row. */
  lemma RowStepTables(c: Config, db: Db, rows: seq<BatchRow>, r: BatchResult, row: BatchRow, asOf: BatchTime, now: Time)
    requires BatchPost(db, rows, r) && SnapshotTx(r.db, row.key, row.balance, AsOf(row, asOf, now), now).Committed?
    ensures var r' := Row(r, row, asOf, now);
            && Coupled(r'.db) && OnlyEscalates(db, r'.db, FlaggedKeys(r'.applied))
            && (forall k :: k in FlaggedKeys(r'.applied) ==> NoneApproved(r'.db.requests, k))
            && (forall k :: k != row.key ==> Lookup(r'.db.balances, k) == Lookup(r.db.balances, k))
  {
    var r' := Row(r, row, asOf, now);
    var tx := SnapshotTx(r.db, row.key, row.balance, AsOf(row, asOf, now), now);
    var d := Apply(r.db, tx.change);
    SnapshotIsLocal(r.db, row, AsOf(row, asOf, now), now);
    EscalateKey(c, d, row.key, now);
    FlaggedAppend(r.applied, Applied(row.key, tx.value.ignored, tx.value.negativeDrift));
    hide EscalateAll, SnapshotTx, ApprovedIds, Coupled, Apply, AsOf, FlaggedKeys, NoneApproved, RowPost;
    var keys := if tx.value.negativeDrift then {row.key} else {};
    assert OnlyEscalates(d, r'.db, keys);
    OnlyEscalatesThen(db, r.db, d, FlaggedKeys(r.applied), {});
    OnlyEscalatesThen(db, d, r'.db, FlaggedKeys(r.applied) + {}, keys);
    assert FlaggedKeys(r.applied) + {} + keys == FlaggedKeys(r'.applied);
    hide OnlyEscalates;
    forall k | k in FlaggedKeys(r'.applied) ensures NoneApproved(r'.db.requests, k) {
      if k in FlaggedKeys(r.applied) {
        StaysUnapproved(d, r'.db, keys, k);
      }
    }
  }

  /** What is reported of one more row. */
  lemma RowStepReport(db: Db, rows: seq<BatchRow>, r: BatchResult, row: BatchRow, asOf: BatchTime, now: Time)
    requires BatchPost(db, rows, r) && r.error.None?
    requires SnapshotTx(r.db, row.key, row.balance, AsOf(row, asOf, now), now).Committed?
    ensures var r' := Row(r, row, asOf, now);
            && r'.error.None? && |r'.applied| == |rows| + 1
            && (forall j :: 0 <= j < |r'.applied| ==> RowPost(db, (rows + [row])[j], r'.applied[j]))
  {
    SnapshotIsLocal(r.db, row, AsOf(row, asOf, now), now);
    hide EscalateAll, SnapshotTx, ApprovedIds, Coupled, Apply, AsOf, FlaggedKeys, NoneApproved, SumOpen;
    var r' := Row(r, row, asOf, now);
    forall j | 0 <= j < |r'.applied| ensures RowPost(db, (rows + [row])[j], r'.applied[j]) {
      if j < |rows| { assert RowPost(db, rows[j], r.applied[j]); }
    }
  }

  lemma OtherKeys(db: Db, rows: seq<BatchRow>, r: BatchResult, row: BatchRow, after: map<Key, Balance>)
    requires BatchPost(db, rows, r)
    requires forall k :: k != row.key ==> Lookup(after, k) == Lookup(r.db.balances, k)
    ensures forall k :: (forall j :: 0 <= j < |rows + [row]| ==> (rows + [row])[j].key != k) ==>
              Lookup(after, k) == Lookup(db.balances, k)
  {
    hide Coupled, NoneApproved, OnlyEscalates, RowPost, FlaggedKeys, Lookup;
    forall k | forall j :: 0 <= j < |rows + [row]| ==> (rows + [row])[j].key != k
      ensures Lookup(after, k) == Lookup(db.balances, k)
    {
      assert (rows + [row])[|rows|].key != k;
      assert forall j :: 0 <= j < |rows| ==> rows[j] == (rows + [row])[j];
    }
  }

  lemma RowStep(c: Config, db: Db, rows: seq<BatchRow>, r: BatchResult, row: BatchRow, asOf: BatchTime, now: Time)
    requires BatchPost(db, rows, r) && r.error.None?
    ensures BatchPost(db, rows + [row], Row(r, row, asOf, now))
  {
    if SnapshotTx(r.db, row.key, row.balance, AsOf(row, asOf, now), now).Committed? {
      RowStepTables(c, db, rows, r, row, asOf, now);
      RowStepReport(db, rows, r, row, asOf, now);
    }
    OtherKeys(db, rows, r, row, Row(r, row, asOf, now).db.balances);
    hide EscalateAll, SnapshotTx, ApprovedIds, Coupled, Apply, AsOf, FlaggedKeys, NoneApproved, SumOpen, OnlyEscalates, RowPost, Lookup;
    if SnapshotTx(r.db, row.key, row.balance, AsOf(row, asOf, now), now).RolledBack? {
      forall j | 0 <= j < |r.applied| ensures RowPost(db, (rows + [row])[j], r.applied[j]) {
        assert RowPost(db, rows[j], r.applied[j]);
      }
    }
  }

  lemma FlaggedAppend(applied: seq<Applied>, a: Applied)
    ensures FlaggedKeys(applied + [a]) == FlaggedKeys(applied) + if a.negativeDrift then {a.key} else {}
  {
    var all := applied + [a];
    forall k | k in FlaggedKeys(applied) + (if a.negativeDrift then {a.key} else {}) ensures k in FlaggedKeys(all) {
      if k in FlaggedKeys(applied) {
        var j :| 0 <= j < |applied| && applied[j].negativeDrift && applied[j].key == k;
        assert all[j] == applied[j];
      } else {
        assert all[|applied|] == a;
      }
    }
  }

  lemma StaysUnapproved(a: Db, b: Db, keys: set<Key>, k: Key)
    requires OnlyEscalates(a, b, keys) && NoneApproved(a.requests, k)
    ensures NoneApproved(b.requests, k)
  {
    forall i | 0 <= i < |b.requests| ensures b.requests[i].key != k || b.requests[i].state != Approved {
      assert Escalated(a.requests[i], b.requests[i], keys);
    }
  }

  lemma SnapshotIsLocal(db: Db, row: BatchRow, asOf: Option<Stamp>, now: Time)
    requires Coupled(db) && SnapshotTx(db, row.key, row.balance, asOf, now).Committed?
    ensures var tx := SnapshotTx(db, row.key, row.balance, asOf, now);
            var d := Apply(db, tx.change);
            && Coupled(d) && OnlyEscalates(db, d, {}) && d.requests == db.requests
            && (forall k :: k != row.key ==> Lookup(d.balances, k) == Lookup(db.balances, k))
            && (tx.value.negativeDrift <==> !tx.value.ignored && row.balance < SumOpen(db.reservations, row.key) as real)
  {
    hide SumOpen;
  }

  /**
   * When handleBatch returns: no request is APPROVED on a key reported negativeDrift; each flag says
   * "not stale, and below the days reserved when the batch began"; reservations and outbox are untouched;
   * requests moved only from APPROVED to REVIEW_REQUIRED and only on flagged keys; other keys keep their balance.
   */
  lemma {:induction false} BatchEscalates(c: Config, db: Db, rows: seq<BatchRow>, asOf: BatchTime, now: Time)
    requires Coupled(db)
    ensures BatchPost(db, rows, Batch(db, rows, asOf, now))
  {
    hide Coupled, NoneApproved, OnlyEscalates, RowPost, Row, BatchPost;
    AlignedWhenCoupled(db);
    if |rows| > 0 {
      var most, row := rows[..|rows| - 1], rows[|rows| - 1];
      BatchEscalates(c, db, most, asOf, now);
      var r := Batch(db, most, asOf, now);
      assert rows == most + [row];
      if r.error.None? {
        RowStep(c, db, most, r, row, asOf, now);
      } else {
        RowSkipped(db, most, r, row);
      }
    } else {
      NothingPosted(db);
    }
  }

  lemma NothingPosted(db: Db)
    requires Coupled(db)
    ensures BatchPost(db, [], BatchResult(db, [], None))
  {
  }

  /** A row after an error is passed over. */
  lemma RowSkipped(db: Db, rows: seq<BatchRow>, r: BatchResult, row: BatchRow)
    requires BatchPost(db, rows, r) && r.error.Some?
    ensures BatchPost(db, rows + [row], r)
  {
    hide Coupled, NoneApproved, OnlyEscalates, RowPost;
    OtherKeys(db, rows, r, row, r.db.balances);
    forall j | 0 <= j < |r.applied| ensures RowPost(db, (rows + [row])[j], r.applied[j]) {
      assert RowPost(db, rows[j], r.applied[j]);
    }
  }

  // ----- The cache after a batch, and its stale rows -----

  function RowArrivals(rows: seq<BatchRow>, asOf: BatchTime, now: Time, k: Key): seq<Arrival> {
    if |rows| == 0 then []
    else
      var row := rows[|rows| - 1];
      var t := AsOf(row, asOf, now);
      RowArrivals(rows[..|rows| - 1], asOf, now, k)
      + if row.key == k && t.Some? then [Arrival(row.balance, t.value)] else []
  }

  function CachedBefore(db: Db, k: Key): seq<Arrival> {
    if k in db.balances then [Arrival(db.balances[k].hcmBalance, db.balances[k].hcmSnapshotAt)] else []
  }

  /** The snapshots of a key the service has seen after these rows: the cached one, then the rows'. */
  function Seen(db: Db, rows: seq<BatchRow>, asOf: BatchTime, now: Time, k: Key): seq<Arrival> {
    CachedBefore(db, k) + RowArrivals(rows, asOf, now, k)
  }

  /** Cached stamps are as their column keeps them. */
  predicate KeptStamps(db: Db) {
    forall k :: k in db.balances ==> Kept(db.balances[k].hcmSnapshotAt) == db.balances[k].hcmSnapshotAt
  }

  lemma ReachedKeepsStamps(c: Config, s0: Sys, run: seq<Event>, s: Sys)
    requires Reached(c, s0, run, s)
    ensures KeptStamps(s.db)
  {
    forall k | k in s.db.balances ensures Kept(s.db.balances[k].hcmSnapshotAt) == s.db.balances[k].hcmSnapshotAt {
      CacheIsFold(c, s0, run, s, k);
      KeptTwice(Cached(Arrivals(run, k)).asOf);
      hide Exec, Reached, Kept, Latest, Arrivals;
    }
  }

  lemma SeenOneMore(db: Db, rows: seq<BatchRow>, asOf: BatchTime, now: Time, k: Key)
    requires |rows| > 0
    ensures var row := rows[|rows| - 1];
            var most := Seen(db, rows[..|rows| - 1], asOf, now, k);
            Seen(db, rows, asOf, now, k) ==
            if row.key == k && AsOf(row, asOf, now).Some? then most + [Arrival(row.balance, AsOf(row, asOf, now).value)] else most
  {
    hide AsOf;
  }

  /** Applying a row refuses it, ignores it or replaces the cached row, as the snapshots seen before it tell. */
  lemma RowCaches(c: Config, r: BatchResult, row: BatchRow, asOf: BatchTime, now: Time, k: Key, a: seq<Arrival>)
    requires Coupled(r.db) && Caches(r.db, k, a) && r.error.None?
    ensures var t := AsOf(row, asOf, now);
            var r' := Row(r, row, asOf, now);
            && (row.key != k ==> Caches(r'.db, k, a))
            && (row.key == k ==>
                  && (r'.error.Some? <==> t.None? || (!IsStale(a, t.value) && row.balance < 0.0))
                  && (r'.error.Some? ==> r'.applied == r.applied)
                  && (r'.error.None? ==>
                        && Caches(r'.db, k, a + [Arrival(row.balance, t.value)])
                        && |r'.applied| == |r.applied| + 1 && r'.applied[..|r.applied|] == r.applied
                        && r'.applied[|r.applied|].ignored == IsStale(a, t.value)))
  {
    var t := AsOf(row, asOf, now);
    var tx := SnapshotTx(r.db, row.key, row.balance, t, now);
    if tx.Committed? {
      SnapshotIsLocal(r.db, row, t, now);
      EscalateKey(c, Apply(r.db, tx.change), row.key, now);
    }
    if t.Some? && row.key == k {
      CacheStep(r.db, k, a, Arrival(row.balance, t.value), now);
    }
    hide EscalateAll, ApprovedIds, Coupled, AsOf, SnapshotTx, IsStale, Cached, OnlyEscalates, NoneApproved, Apply;
  }

  /** While nothing is refused, each key caches the latest of what it has seen. */
  lemma {:induction false} BatchCaches(c: Config, db: Db, rows: seq<BatchRow>, asOf: BatchTime, now: Time, k: Key)
    requires Coupled(db) && KeptStamps(db) && Batch(db, rows, asOf, now).error.None?
    ensures Caches(Batch(db, rows, asOf, now).db, k, Seen(db, rows, asOf, now, k))
  {
    if |rows| > 0 {
      var most, row := rows[..|rows| - 1], rows[|rows| - 1];
      BatchCaches(c, db, most, asOf, now, k);
      BatchIsCoupled(c, db, most, asOf, now);
      SeenOneMore(db, rows, asOf, now, k);
      RowCaches(c, Batch(db, most, asOf, now), row, asOf, now, k, Seen(db, most, asOf, now, k));
      hide Row, Coupled, AsOf, Caches, Seen, IsStale, KeptStamps;
    } else {
      SeenNothing(db, asOf, now, k);
    }
  }

  lemma SeenNothing(db: Db, asOf: BatchTime, now: Time, k: Key)
    requires KeptStamps(db)
    ensures Caches(db, k, Seen(db, [], asOf, now, k))
  {
    hide Kept;
    assert Seen(db, [], asOf, now, k) == CachedBefore(db, k);
  }

  lemma BatchIsCoupled(c: Config, db: Db, rows: seq<BatchRow>, asOf: BatchTime, now: Time)
    requires Coupled(db)
    ensures Coupled(Batch(db, rows, asOf, now).db)
  {
    BatchEscalates(c, db, rows, asOf, now);
  }

  /** The loop's own account of row j: what it had seen of the row's key decides whether it is ignored. */
  lemma {:induction false} IgnoredIsStale(c: Config, db: Db, rows: seq<BatchRow>, asOf: BatchTime, now: Time, j: nat)
    requires Coupled(db) && KeptStamps(db) && j < |Batch(db, rows, asOf, now).applied|
    ensures j < |rows| && AsOf(rows[j], asOf, now).Some?
    ensures Batch(db, rows, asOf, now).applied[j].ignored <==>
            IsStale(Seen(db, rows[..j], asOf, now, rows[j].key), AsOf(rows[j], asOf, now).value)
  {
    hide Row, AsOf, Coupled, Seen, IsStale, Caches, KeptStamps;
    AlignedWhenCoupled(db);
    BatchSize(c, db, rows, asOf, now);
    var most, row := rows[..|rows| - 1], rows[|rows| - 1];
    var r := Batch(db, most, asOf, now);
    BatchSize(c, db, most, asOf, now);
    BatchIsCoupled(c, db, most, asOf, now);
    if r.error.None? {
      BatchCaches(c, db, most, asOf, now, row.key);
      RowCaches(c, r, row, asOf, now, row.key, Seen(db, most, asOf, now, row.key));
    }
    if j < |r.applied| {
      IgnoredIsStale(c, db, most, asOf, now, j);
      assert most[..j] == rows[..j];
      assert r.error.None? && Row(r, row, asOf, now).error.None? ==> Row(r, row, asOf, now).applied[..|r.applied|][j] == r.applied[j];
    }
  }

  /**
   * A row is ignored exactly when a snapshot of its key and kind, cached or of an earlier row, was newer
   * and no snapshot of the other kind came after that one.
   */
  lemma IgnoredIffStale(c: Config, db: Db, rows: seq<BatchRow>, asOf: BatchTime, now: Time, j: nat)
    requires Coupled(db) && KeptStamps(db) && j < |Batch(db, rows, asOf, now).applied|
    requires forall k :: Clear(Seen(db, rows, asOf, now, k))
    ensures j < |rows| && AsOf(rows[j], asOf, now).Some?
    ensures Batch(db, rows, asOf, now).applied[j].ignored <==>
            NewerSeen(Seen(db, rows[..j], asOf, now, rows[j].key), AsOf(rows[j], asOf, now).value)
  {
    IgnoredIsStale(c, db, rows, asOf, now, j);
    hide Batch, Coupled, NewerSeen, IsStale, AsOf, Clash, Seen;
    var k := rows[j].key;
    var a, t := Seen(db, rows[..j], asOf, now, k), AsOf(rows[j], asOf, now).value;
    assert rows[..j + 1][..j] == rows[..j];
    SeenOneMore(db, rows[..j + 1], asOf, now, k);
    SeenGrows(db, rows, asOf, now, k, j + 1);
    var all := Seen(db, rows, asOf, now, k);
    assert Clear(all);
    ClearBefore(all, a, Arrival(rows[j].balance, t));
    StaleIffNewerSeen(a, t);
  }

  lemma ClearBefore(all: seq<Arrival>, a: seq<Arrival>, x: Arrival)
    requires Clear(all) && a + [x] <= all
    ensures Clear(a) && forall i :: 0 <= i < |a| ==> !Clash(x.asOf, a[i].asOf)
  {
    hide Clash;
    assert all[|a|] == x;
    assert forall i :: 0 <= i < |a| ==> a[i] == all[i];
  }

  lemma {:induction false} SeenGrows(db: Db, rows: seq<BatchRow>, asOf: BatchTime, now: Time, k: Key, n: nat)
    requires n <= |rows|
    ensures Seen(db, rows[..n], asOf, now, k) <= Seen(db, rows, asOf, now, k)
    decreases |rows|
  {
    if n == |rows| {
      assert rows[..n] == rows;
    } else {
      assert rows[..|rows| - 1][..n] == rows[..n];
      SeenGrows(db, rows[..|rows| - 1], asOf, now, k, n);
      SeenOneMore(db, rows, asOf, now, k);
      hide Seen;
    }
  }

  /** The stamp a row leaves, and what makes it NaN: its own time before the batch's, and that before the clock. */
  predicate LeavesStamp(b: Balance, row: BatchRow, asOf: BatchTime, now: Time) {
    b.hcmSnapshotAt ==
    match (row.asOf, asOf)
    case (Some(t), _) => Kept(t)
    case (None, Read(u)) => Ms(u)
    case (None, _) => Ms(now)
  }

  lemma RowLeavesStamp(c: Config, r: BatchResult, row: BatchRow, asOf: BatchTime, now: Time)
    requires Coupled(r.db) && r.error.None?
    ensures var r' := Row(r, row, asOf, now);
            && (row.asOf.None? && asOf.Unreadable? ==> r'.error == Some(ConstraintViolation))
            && (r'.error.None? ==>
                  && |r'.applied| == |r.applied| + 1 && row.key in r'.db.balances
                  && (!r'.applied[|r.applied|].ignored ==>
                        r'.db.balances[row.key].hcmBalance == row.balance && LeavesStamp(r'.db.balances[row.key], row, asOf, now)))
  {
    hide EscalateAll, ApprovedIds, Coupled, SumOpen, Kept, Before, OnlyEscalates, NoneApproved;
    var t := AsOf(row, asOf, now);
    var tx := SnapshotTx(r.db, row.key, row.balance, t, now);
    if tx.Committed? {
      SnapshotIsLocal(r.db, row, t, now);
      EscalateKey(c, Apply(r.db, tx.change), row.key, now);
    }
    MsIsKept(now);
    if asOf.Read? { MsIsKept(asOf.time); }
  }

  lemma MsIsKept(t: Time)
    ensures Kept(Ms(t)) == Ms(t)
  {
  }

  /** After a batch a key has the balance and the time of its last row, if that row was not ignored. */
  lemma {:induction false} BatchLeavesStamp(c: Config, db: Db, rows: seq<BatchRow>, asOf: BatchTime, now: Time, j: nat)
    requires Coupled(db) && Batch(db, rows, asOf, now).error.None? && j < |rows|
    requires forall i :: j < i < |rows| ==> rows[i].key != rows[j].key
    ensures var r := Batch(db, rows, asOf, now);
            && j < |r.applied| && rows[j].key in r.db.balances
            && (!r.applied[j].ignored ==>
                  r.db.balances[rows[j].key].hcmBalance == rows[j].balance && LeavesStamp(r.db.balances[rows[j].key], rows[j], asOf, now))
  {
    hide Row, Coupled, LeavesStamp, AsOf;
    AlignedWhenCoupled(db);
    BatchSize(c, db, rows, asOf, now);
    var most, row := rows[..|rows| - 1], rows[|rows| - 1];
    var r := Batch(db, most, asOf, now);
    BatchSize(c, db, most, asOf, now);
    BatchIsCoupled(c, db, most, asOf, now);
    if j == |rows| - 1 {
      RowLeavesStamp(c, r, row, asOf, now);
    } else {
      BatchLeavesStamp(c, db, most, asOf, now, j);
      RowElsewhere(c, r, row, asOf, now, rows[j].key);
      assert Row(r, row, asOf, now).applied[..|r.applied|][j] == r.applied[j];
    }
  }

  lemma RowElsewhere(c: Config, r: BatchResult, row: BatchRow, asOf: BatchTime, now: Time, k: Key)
    requires Coupled(r.db) && r.error.None? && row.key != k
    ensures var r' := Row(r, row, asOf, now);
            && Lookup(r'.db.balances, k) == Lookup(r.db.balances, k)
            && |r.applied| <= |r'.applied| && r'.applied[..|r.applied|] == r.applied
  {
    hide EscalateAll, ApprovedIds, Coupled, AsOf, SumOpen, OnlyEscalates, NoneApproved;
    var t := AsOf(row, asOf, now);
    var tx := SnapshotTx(r.db, row.key, row.balance, t, now);
    if tx.Committed? {
      SnapshotIsLocal(r.db, row, t, now);
      EscalateKey(c, Apply(r.db, tx.change), row.key, now);
    }
  }

  // ----- The same batch again -----

  /** A row that brings its time with it, and that the webhook accepts. */
  predicate Explicit(rows: seq<BatchRow>, asOf: BatchTime) {
    forall j :: 0 <= j < |rows| ==> rows[j].balance >= 0.0 && (rows[j].asOf.Some? || asOf.Read?)
  }

  lemma {:induction false} ExplicitIsApplied(c: Config, db: Db, rows: seq<BatchRow>, asOf: BatchTime, now: Time)
    requires Coupled(db) && Explicit(rows, asOf)
    ensures Batch(db, rows, asOf, now).error.None?
  {
    if |rows| > 0 {
      ExplicitIsApplied(c, db, rows[..|rows| - 1], asOf, now);
      hide Apply, EscalateAll, ApprovedIds, SumOpen, Before;
    }
  }

  lemma {:induction false} ExplicitTimes(rows: seq<BatchRow>, asOf: BatchTime, now: Time, now': Time, k: Key)
    requires Explicit(rows, asOf)
    ensures RowArrivals(rows, asOf, now, k) == RowArrivals(rows, asOf, now', k)
  {
    if |rows| > 0 {
      ExplicitTimes(rows[..|rows| - 1], asOf, now, now', k);
    }
  }

  /**
   * Sending a batch with explicit times again, at any later time and whatever escalations the first sending
   * caused, changes no cached balance and no stamp.
   */
  lemma ReplayedBatchIsHarmless(c: Config, db: Db, rows: seq<BatchRow>, asOf: BatchTime, now: Time, now': Time, k: Key)
    requires Coupled(db) && KeptStamps(db) && Explicit(rows, asOf) && Clear(Seen(db, rows, asOf, now, k))
    ensures var once := Batch(db, rows, asOf, now);
            var twice := Batch(once.db, rows, asOf, now');
            && once.error.None? && twice.error.None?
            && (k in once.db.balances <==> k in twice.db.balances)
            && (k in once.db.balances ==>
                  && twice.db.balances[k].hcmBalance == once.db.balances[k].hcmBalance
                  && twice.db.balances[k].hcmSnapshotAt == once.db.balances[k].hcmSnapshotAt)
  {
    var once := Batch(db, rows, asOf, now).db;
    ExplicitIsApplied(c, db, rows, asOf, now);
    BatchIsCoupled(c, db, rows, asOf, now);
    BatchKeepsStamps(c, db, rows, asOf, now);
    ExplicitIsApplied(c, once, rows, asOf, now');
    ExplicitTimes(rows, asOf, now, now', k);
    BatchCaches(c, db, rows, asOf, now, k);
    BatchCaches(c, once, rows, asOf, now', k);
    hide Batch, Coupled, KeptStamps, Explicit, Latest, RowArrivals, Kept, Clash;
    var p, b := CachedBefore(db, k), RowArrivals(rows, asOf, now, k);
    if |p + b| > 0 {
      ReplayChangesNothing(p, b);
      KeptArrival(Cached(p + b), b);
    }
  }

  lemma BatchKeepsStamps(c: Config, db: Db, rows: seq<BatchRow>, asOf: BatchTime, now: Time)
    requires Coupled(db) && KeptStamps(db) && Batch(db, rows, asOf, now).error.None?
    ensures KeptStamps(Batch(db, rows, asOf, now).db)
  {
    var db' := Batch(db, rows, asOf, now).db;
    forall k | k in db'.balances ensures Kept(db'.balances[k].hcmSnapshotAt) == db'.balances[k].hcmSnapshotAt {
      BatchCaches(c, db, rows, asOf, now, k);
      KeptTwice(Cached(Seen(db, rows, asOf, now, k)).asOf);
      hide Batch, Seen, Cached, Kept;
    }
  }

  /** Whether the first arrival's stamp is as sent or as kept makes no difference to what follows. */
  lemma {:induction false} KeptArrival(x: Arrival, b: seq<Arrival>)
    ensures var y := Arrival(x.balance, Kept(x.asOf));
            && Cached([y] + b).balance == Cached([x] + b).balance
            && Kept(Cached([y] + b).asOf) == Kept(Cached([x] + b).asOf)
  {
    var y := Arrival(x.balance, Kept(x.asOf));
    KeptTwice(x.asOf);
    hide Kept;
    if |b| == 0 {
      assert [y] + b == [y] && [x] + b == [x];
    } else {
      var n := |b| - 1;
      KeptArrival(x, b[..n]);
      assert [y] + b == ([y] + b[..n]) + [b[n]] && [x] + b == ([x] + b[..n]) + [b[n]];
      LatestAfter([y] + b[..n], b[n]);
      LatestAfter([x] + b[..n], b[n]);
      hide Latest, Before;
    }
  }

  lemma BatchSize(c: Config, db: Db, rows: seq<BatchRow>, asOf: BatchTime, now: Time)
    requires Coupled(db)
    ensures var r := Batch(db, rows, asOf, now); |r.applied| <= |rows| && (r.error.None? ==> |r.applied| == |rows|)
  {
    BatchEscalates(c, db, rows, asOf, now);
  }

  // ----- A batch is a run -----

  function EscalateRun(ids: seq<Id>): seq<Event> {
    seq(|ids|, (j: int) requires 0 <= j < |ids| => Escalate(ids[j], REASON))
  }

  lemma {:induction false} EscalateIsARun(c: Config, s: Sys, ids: seq<Id>)
    requires Aligned(s.db)
    ensures Exec(c, s, EscalateRun(ids)) == Some(s.(db := EscalateAll(s.db, ids, s.clock)))
  {
    if |ids| > 0 {
      EscalateIsARun(c, s, ids[..|ids| - 1]);
      assert EscalateRun(ids)[..|ids| - 1] == EscalateRun(ids[..|ids| - 1]);
    }
  }

  /** Each row of a batch is a snapshot event, followed by the escalations it calls for. */
  function RowRun(db: Db, row: BatchRow, asOf: BatchTime, now: Time): seq<Event>
    requires Aligned(db)
  {
    var tx := SnapshotTx(db, row.key, row.balance, AsOf(row, asOf, now), now);
    [ApplySnapshot(row.key, row.balance, AsOf(row, asOf, now))]
    + if tx.Committed? && tx.value.negativeDrift
      then EscalateRun(ApprovedIds(Apply(db, tx.change).requests, row.key)) else []
  }

  function BatchRun(db: Db, rows: seq<BatchRow>, asOf: BatchTime, now: Time): seq<Event>
    requires Aligned(db)
  {
    if |rows| == 0 then []
    else
      var r := Batch(db, rows[..|rows| - 1], asOf, now);
      BatchRun(db, rows[..|rows| - 1], asOf, now)
      + if r.error.Some? then [] else RowRun(r.db, rows[|rows| - 1], asOf, now)
  }

  lemma RowIsARun(c: Config, s: Sys, r: BatchResult, row: BatchRow, asOf: BatchTime)
    requires Aligned(s.db) && r.db == s.db && r.error.None?
    ensures Exec(c, s, RowRun(s.db, row, asOf, s.clock)) == Some(s.(db := Row(r, row, asOf, s.clock).db))
  {
    var tx := SnapshotTx(s.db, row.key, row.balance, AsOf(row, asOf, s.clock), s.clock);
    var first := [ApplySnapshot(row.key, row.balance, AsOf(row, asOf, s.clock))];
    var t := s.(db := Apply(s.db, ChangeOf(tx)));
    assert tx.RolledBack? ==> t == s;
    hide SnapshotTx, AsOf, ApprovedIds, EscalateAll, EscalateRun, Apply;
    assert first[..0] == [];
    assert Exec(c, s, []) == Some(s);
    assert Exec(c, s, first) == Some(t);
    if tx.Committed? && tx.value.negativeDrift {
      var ids := ApprovedIds(t.db.requests, row.key);
      EscalateIsARun(c, t, ids);
      ExecConcat(c, s, first, EscalateRun(ids));
    } else {
      assert RowRun(s.db, row, asOf, s.clock) == first;
    }
  }

  /** So everything proved of runs holds of batches, whatever else happens before and after them. */
  lemma {:induction false} BatchIsARun(c: Config, s: Sys, rows: seq<BatchRow>, asOf: BatchTime)
    requires Aligned(s.db)
    ensures Exec(c, s, BatchRun(s.db, rows, asOf, s.clock)) == Some(s.(db := Batch(s.db, rows, asOf, s.clock).db))
  {
    if |rows| > 0 {
      var most, row := rows[..|rows| - 1], rows[|rows| - 1];
      BatchIsARun(c, s, most, asOf);
      var r := Batch(s.db, most, asOf, s.clock);
      if r.error.None? {
        var t := s.(db := r.db);
        RowIsARun(c, t, r, row, asOf);
        ExecConcat(c, s, BatchRun(s.db, most, asOf, s.clock), RowRun(r.db, row, asOf, s.clock));
      } else {
        assert BatchRun(s.db, rows, asOf, s.clock) == BatchRun(s.db, most, asOf, s.clock);
      }
    }
  }
}
