/** Snapshots may arrive late, repeated or out of order; when the cache converges (balances.repository.js upsertBalance). */
module Convergence {
  import opened Types
  import opened Texts
  import opened Stamps
  import opened Tables
  import opened Ledger
  import opened Protocol
  import opened Guarantees

  /** A snapshot of one key, in order of arrival. */
  datatype Arrival = Arrival(balance: real, asOf: Stamp)

  /** The snapshots of a key that reached the service in a run and that the database does not refuse. */
  function Arrivals(run: seq<Event>, k: Key): seq<Arrival> {
    if |run| == 0 then []
    else
      var e := run[|run| - 1];
      Arrivals(run[..|run| - 1], k) + if ArrivesFor(e, k) then [Arrival(e.balance, e.asOf.value)] else []
  }

  predicate ArrivesFor(e: Event, k: Key) { e.ApplySnapshot? && e.k == k && e.asOf.Some? && e.balance >= 0.0 }

  /** The arrival left in the cache: each one replaces what is there unless it is stale against it. */
  function Latest(a: seq<Arrival>): (j: nat)
    requires |a| > 0
    ensures j < |a|
  {
    if |a| == 1 then 0
    else
      var j := Latest(a[..|a| - 1]);
      if Stale(a[|a| - 1].asOf, a[j].asOf) then j else |a| - 1
  }

  function Cached(a: seq<Arrival>): Arrival
    requires |a| > 0
  {
    a[Latest(a)]
  }

  predicate IsStale(a: seq<Arrival>, t: Stamp) { |a| > 0 && Stale(t, Cached(a).asOf) }

  /** No bare number arrives beside a proper text. */
  predicate Clear(a: seq<Arrival>) {
    forall i, j :: 0 <= i < |a| && 0 <= j < |a| ==> !Clash(a[i].asOf, a[j].asOf)
  }

  /** j is followed only by older arrivals of its kind, and no earlier arrival is newer unless one of the other kind came between. */
  ghost predicate IsLatest(a: seq<Arrival>, j: nat) {
    && j < |a|
    && (forall i :: j < i < |a| ==> SameKind(a[i].asOf, a[j].asOf) && OlderInKind(a[i].asOf, a[j].asOf))
    && (forall i :: 0 <= i < j && OlderInKind(a[j].asOf, a[i].asOf) ==> KindChanges(a, i, j))
  }

  predicate KindChanges(a: seq<Arrival>, i: nat, j: nat)
    requires i < j < |a|
  {
    exists m :: i < m < j && !SameKind(a[m].asOf, a[j].asOf)
  }

  lemma LatestUnique(a: seq<Arrival>, i: nat, j: nat)
    requires IsLatest(a, i) && IsLatest(a, j)
    ensures i == j
  {
    hide OlderInKind, Kept, KindChanges;
    if i < j { NoChangeAfterLatest(a, i, j); }
    if j < i { NoChangeAfterLatest(a, j, i); }
  }

  lemma NoChangeAfterLatest(a: seq<Arrival>, i: nat, j: nat)
    requires IsLatest(a, i) && i < j < |a|
    ensures !KindChanges(a, i, j)
  {
    hide OlderInKind, Kept;
  }

  lemma {:induction false} LatestIsLatest(a: seq<Arrival>)
    requires |a| > 0 && Clear(a)
    ensures IsLatest(a, Latest(a))
  {
    hide OlderInKind, Stale, Clash, Kept;
    var n := |a| - 1;
    if n > 0 {
      var most, x := a[..n], a[n].asOf;
      LatestIsLatest(most);
      var j := Latest(most);
      StaleIff(x, a[j].asOf);
      if !Stale(x, a[j].asOf) {
        forall i | 0 <= i < n && OlderInKind(x, a[i].asOf) ensures KindChanges(a, i, n) {
          NewerIsSuperseded(most, j, x, i);
          assert forall m :: i < m < n ==> a[m] == most[m];
        }
      } else {
        forall i | 0 <= i < j && OlderInKind(a[j].asOf, a[i].asOf) ensures KindChanges(a, i, j) {
          assert KindChanges(most, i, j);
        }
      }
    } else {
      assert a[0] == a[Latest(a)];
    }
  }

  /** If what arrives is not older than the cached arrival, any newer one was superseded by one of the other kind. */
  lemma NewerIsSuperseded(a: seq<Arrival>, j: nat, x: Stamp, i: nat)
    requires IsLatest(a, j) && i < |a| && OlderInKind(x, a[i].asOf)
    requires !(SameKind(x, a[j].asOf) && OlderInKind(x, a[j].asOf))
    ensures exists m :: i < m < |a| && !SameKind(a[m].asOf, x)
  {
    KindOfOlder(x, a[i].asOf);
    if SameKind(x, a[j].asOf) {
      if i > j {
        OlderTransitive(x, a[i].asOf, a[j].asOf);
      } else if i < j {
        OlderIsTotal(a[j].asOf, a[i].asOf);
        if OlderInKind(a[i].asOf, a[j].asOf) {
          OlderTransitive(x, a[i].asOf, a[j].asOf);
        }
      }
    } else {
      assert i < j;
    }
  }

  lemma KindOfOlder(a: Stamp, b: Stamp)
    requires OlderInKind(a, b)
    ensures SameKind(a, b)
  {
  }

  /**
   * A snapshot is stale exactly when an arrival of its own kind is newer and every arrival after that one
   * is of the same kind too.
   */
  ghost predicate NewerSeen(a: seq<Arrival>, t: Stamp) {
    exists i :: 0 <= i < |a| && OlderInKind(t, a[i].asOf) && AllOfKind(a, i + 1, t)
  }

  predicate AllOfKind(a: seq<Arrival>, from: nat, t: Stamp) {
    forall m :: from <= m < |a| ==> SameKind(a[m].asOf, t)
  }

  lemma StaleIffNewerSeen(a: seq<Arrival>, t: Stamp)
    requires Clear(a) && forall i :: 0 <= i < |a| ==> !Clash(t, a[i].asOf)
    ensures IsStale(a, t) <==> NewerSeen(a, t)
  {
    if |a| > 0 {
      var j := Latest(a);
      LatestIsLatest(a);
      StaleIff(t, a[j].asOf);
      hide OlderInKind, Stale, Clash, Clear, Kept, IsText;
      if IsStale(a, t) {
        assert OlderInKind(t, a[j].asOf) && AllOfKind(a, j + 1, t);
      }
      if NewerSeen(a, t) && !IsStale(a, t) {
        var i :| 0 <= i < |a| && OlderInKind(t, a[i].asOf) && AllOfKind(a, i + 1, t);
        NewerIsSuperseded(a, j, t, i);
      }
    }
  }

  // ----- The cache -----

  lemma LatestAfter(a: seq<Arrival>, x: Arrival)
    ensures Latest(a + [x]) == if IsStale(a, x.asOf) then Latest(a) else |a|
    ensures Replacements(a + [x]) == Replacements(a) + if IsStale(a, x.asOf) then 0 else 1
  {
    assert (a + [x])[..|a|] == a;
  }

  /** The number of arrivals that were not stale. */
  function Replacements(a: seq<Arrival>): nat {
    if |a| == 0 then 0
    else Replacements(a[..|a| - 1]) + if IsStale(a[..|a| - 1], a[|a| - 1].asOf) then 0 else 1
  }

  /** The cached row of a key holds the balance and the stamp of the arrival left in the cache. */
  predicate Caches(db: Db, k: Key, a: seq<Arrival>) {
    && (k in db.balances <==> |a| > 0)
    && (|a| > 0 ==>
          && db.balances[k].hcmBalance == Cached(a).balance
          && db.balances[k].hcmSnapshotAt == Kept(Cached(a).asOf))
  }

  function Version(db: Db, k: Key): int { if k in db.balances then db.balances[k].version else 0 }

  lemma CacheStep(db: Db, k: Key, a: seq<Arrival>, x: Arrival, now: Time)
    requires Aligned(db) && Caches(db, k, a)
    ensures var tx := SnapshotTx(db, k, x.balance, Some(x.asOf), now);
            && (tx.Committed? <==> IsStale(a, x.asOf) || x.balance >= 0.0)
            && (tx.Committed? ==>
                  && tx.value.ignored == IsStale(a, x.asOf)
                  && Caches(Apply(db, tx.change), k, a + [x])
                  && Version(Apply(db, tx.change), k) == Version(db, k) + if IsStale(a, x.asOf) then 0 else 1)
  {
    hide SumOpen, Before;
    LatestAfter(a, x);
    hide Latest, Kept;
    assert |a| > 0 ==> (a + [x])[Latest(a)] == a[Latest(a)];
  }

  lemma CacheOtherwise(c: Config, s: Sys, e: Event, k: Key)
    requires Aligned(s.db) && Enabled(s, e) && !ArrivesFor(e, k)
    ensures Lookup(Next(c, s, e).db.balances, k) == Lookup(s.db.balances, k)
  {
    hide CreateTx, ApproveTx, RejectTx, CancelTx, MarkTx, SumOpen, Before;
    Safety.TxKinds(s.db, e, s.clock);
    if e.BalanceReply? || e.ConsumeReply? {
      Safety.MarkKinds(s.db, s.worker.rows[0].requestId, s.clock);
    }
  }

  lemma {:induction false} CacheIsFold(c: Config, s0: Sys, run: seq<Event>, s: Sys, k: Key)
    requires Reached(c, s0, run, s)
    ensures Caches(s.db, k, Arrivals(run, k)) && Version(s.db, k) == Replacements(Arrivals(run, k))
  {
    if |run| > 0 {
      var most, e := run[..|run| - 1], run[|run| - 1];
      CacheIsFold(c, s0, most, Exec(c, s0, most).value, k);
      FoldStep(c, Exec(c, s0, most).value, e, k, Arrivals(most, k));
      hide Next, Caches, Replacements, Version;
    }
  }

  lemma FoldStep(c: Config, s: Sys, e: Event, k: Key, a: seq<Arrival>)
    requires Aligned(s.db) && Enabled(s, e) && Caches(s.db, k, a) && Version(s.db, k) == Replacements(a)
    ensures var a' := a + if ArrivesFor(e, k) then [Arrival(e.balance, e.asOf.value)] else [];
            Caches(Next(c, s, e).db, k, a') && Version(Next(c, s, e).db, k) == Replacements(a')
  {
    hide Next, Caches, Version, Replacements, IsStale;
    if ArrivesFor(e, k) {
      FoldArrival(c, s, e, k, a);
    } else {
      CacheOtherwise(c, s, e, k);
      assert a + [] == a;
      SameRowSameCache(s.db, Next(c, s, e).db, k, a);
    }
  }

  lemma FoldArrival(c: Config, s: Sys, e: Event, k: Key, a: seq<Arrival>)
    requires Aligned(s.db) && Enabled(s, e) && ArrivesFor(e, k) && Caches(s.db, k, a) && Version(s.db, k) == Replacements(a)
    ensures var a' := a + [Arrival(e.balance, e.asOf.value)];
            Caches(Next(c, s, e).db, k, a') && Version(Next(c, s, e).db, k) == Replacements(a')
  {
    hide SnapshotTx, Apply, Latest, Replacements, IsStale, Caches, Version;
    var x := Arrival(e.balance, e.asOf.value);
    LatestAfter(a, x);
    CacheStep(s.db, k, a, x, s.clock);
  }

  lemma SameRowSameCache(db: Db, db': Db, k: Key, a: seq<Arrival>)
    requires Lookup(db'.balances, k) == Lookup(db.balances, k)
    ensures Caches(db', k, a) == Caches(db, k, a) && Version(db', k) == Version(db, k)
  {
    hide Cached, Kept;
  }

  /**
   * In every run a key's cached balance and stamp are those of the latest snapshot since the stamps last
   * changed kind; version counts the snapshots that were not stale.
   */
  lemma CacheIsLatest(c: Config, s0: Sys, run: seq<Event>, s: Sys, k: Key)
    requires Reached(c, s0, run, s)
    ensures Caches(s.db, k, Arrivals(run, k)) && Version(s.db, k) == Replacements(Arrivals(run, k))
    ensures var a := Arrivals(run, k); Clear(a) && |a| > 0 ==> IsLatest(a, Latest(a))
  {
    CacheIsFold(c, s0, run, s, k);
    hide Exec, IsLatest, Clear, Latest;
    var a := Arrivals(run, k);
    if Clear(a) && |a| > 0 { LatestIsLatest(a); }
  }

  // ----- Order of arrival -----

  predicate OneKind(a: seq<Arrival>) {
    forall i, j :: 0 <= i < |a| && 0 <= j < |a| ==> SameKind(a[i].asOf, a[j].asOf)
  }

  predicate DistinctStamps(a: seq<Arrival>) {
    forall i, j :: 0 <= i < j < |a| ==> Kept(a[i].asOf) != Kept(a[j].asOf)
  }

  lemma OneKindIsClear(a: seq<Arrival>)
    requires OneKind(a)
    ensures Clear(a)
  {
  }

  /** Among arrivals of one kind none is newer than the latest. */
  lemma LatestOfOneKind(a: seq<Arrival>, i: nat)
    requires |a| > 0 && OneKind(a) && i < |a|
    ensures !OlderInKind(Cached(a).asOf, a[i].asOf)
  {
    OneKindIsClear(a);
    LatestIsLatest(a);
    OlderIsTotal(Cached(a).asOf, a[i].asOf);
  }

  lemma SameCache(a: seq<Arrival>, b: seq<Arrival>)
    requires |a| > 0 && |b| > 0 && multiset(a) == multiset(b) && OneKind(a) && DistinctStamps(a)
    ensures Cached(a) == Cached(b)
  {
    hide OlderInKind, Latest, Kept, IsText;
    var x, y := Cached(a), Cached(b);
    assert y in multiset(b) && x in multiset(a);
    var i :| 0 <= i < |a| && a[i] == y;
    var j :| 0 <= j < |b| && b[j] == x;
    forall m, n | 0 <= m < |b| && 0 <= n < |b| ensures SameKind(b[m].asOf, b[n].asOf) {
      assert b[m] in multiset(a) && b[n] in multiset(a);
    }
    LatestOfOneKind(a, i);
    LatestOfOneKind(b, j);
    OlderIsTotal(x.asOf, y.asOf);
  }

  /** What is left in the cache is of the kind of what arrived last. */
  lemma LastKindWins(a: seq<Arrival>)
    requires |a| > 0 && Clear(a)
    ensures SameKind(Cached(a).asOf, a[|a| - 1].asOf)
  {
    LatestIsLatest(a);
  }

  /** Every order of arrival leaves the same cache. */
  ghost predicate OrderFree(a: seq<Arrival>)
    requires |a| > 0
  {
    forall b: seq<Arrival> :: |b| > 0 && multiset(b) == multiset(a) ==> Cached(b) == Cached(a)
  }

  function MovedLast(a: seq<Arrival>, i: nat): (b: seq<Arrival>)
    requires i < |a|
    ensures |b| == |a| && b[|b| - 1] == a[i] && multiset(b) == multiset(a)
  {
    assert a == a[..i] + [a[i]] + a[i + 1..];
    a[..i] + a[i + 1..] + [a[i]]
  }

  lemma ClearInAnyOrder(a: seq<Arrival>, b: seq<Arrival>)
    requires Clear(a) && multiset(b) == multiset(a)
    ensures Clear(b)
  {
    hide Clash;
    forall i, j | 0 <= i < |b| && 0 <= j < |b| ensures !Clash(b[i].asOf, b[j].asOf) {
      assert b[i] in multiset(a) && b[j] in multiset(a);
    }
  }

  /** The order of arrival does not matter exactly when all stamps are of one kind. */
  lemma OrderFreeIff(a: seq<Arrival>)
    requires |a| > 0 && Clear(a) && DistinctStamps(a)
    ensures OrderFree(a) <==> OneKind(a)
  {
    hide Latest, Kept, Clash, DistinctStamps, Clear, IsText;
    if OneKind(a) {
      forall b: seq<Arrival> | |b| > 0 && multiset(b) == multiset(a) ensures Cached(b) == Cached(a) {
        SameCache(a, b);
      }
    } else {
      var i, j :| 0 <= i < |a| && 0 <= j < |a| && !SameKind(a[i].asOf, a[j].asOf);
      var p, q := MovedLast(a, i), MovedLast(a, j);
      ClearInAnyOrder(a, p);
      ClearInAnyOrder(a, q);
      LastKindWins(p);
      LastKindWins(q);
      assert Cached(p) != Cached(q);
    }
  }

  /** So two runs with the same snapshots of one kind, with distinct stamps, cache the same. */
  lemma OrderDoesNotMatter(c: Config, s0: Sys, run1: seq<Event>, s1: Sys, run2: seq<Event>, s2: Sys, k: Key)
    requires Reached(c, s0, run1, s1) && Reached(c, s0, run2, s2)
    requires multiset(Arrivals(run1, k)) == multiset(Arrivals(run2, k))
    requires OneKind(Arrivals(run1, k)) && DistinctStamps(Arrivals(run1, k))
    ensures k in s1.db.balances <==> k in s2.db.balances
    ensures k in s1.db.balances ==>
              && s1.db.balances[k].hcmBalance == s2.db.balances[k].hcmBalance
              && s1.db.balances[k].hcmSnapshotAt == s2.db.balances[k].hcmSnapshotAt
  {
    hide Exec, Reached, OneKind, DistinctStamps, Latest, Kept, Arrivals;
    CacheIsFold(c, s0, run1, s1, k);
    CacheIsFold(c, s0, run2, s2, k);
    var a, b := Arrivals(run1, k), Arrivals(run2, k);
    assert |multiset(a)| == |a| && |multiset(b)| == |b|;
    if |a| > 0 { SameCache(a, b); }
  }

  // ----- Replays -----

  /** Of what came before, only the cached arrival matters. */
  lemma {:induction false} CachedConcat(a: seq<Arrival>, b: seq<Arrival>)
    requires |a| > 0
    ensures Cached(a + b) == Cached([Cached(a)] + b)
  {
    if |b| == 0 {
      assert a + b == a && [Cached(a)] + b == [Cached(a)];
    } else {
      var n := |b| - 1;
      CachedConcat(a, b[..n]);
      assert a + b == (a + b[..n]) + [b[n]] && [Cached(a)] + b == ([Cached(a)] + b[..n]) + [b[n]];
      LatestAfter(a + b[..n], b[n]);
      LatestAfter([Cached(a)] + b[..n], b[n]);
      hide Latest, Stale;
    }
  }

  /** Feeding a batch again to the cache it left changes neither balance nor stamp. */
  lemma ReplayChangesNothing(before: seq<Arrival>, batch: seq<Arrival>)
    requires |before + batch| > 0 && Clear(before + batch)
    ensures Cached([Cached(before + batch)] + batch) == Cached(before + batch)
  {
    hide OlderInKind, Latest, Kept, Clash, IsText;
    var a := before + batch;
    var j := Latest(a);
    var b := [a[j]] + batch;
    var t := if j < |before| then 0 else j - |before| + 1;
    LatestIsLatest(a);
    OlderIsTotal(a[j].asOf, a[j].asOf);
    forall i | 0 < i < |b| ensures b[i] == a[i + |before| - 1] {
    }
    ReplayedIsLatest(before, batch, a, b, j, t);
    ReplayedIsClear(before, batch, a, b, j);
    LatestIsLatest(b);
    LatestUnique(b, Latest(b), t);
  }

  lemma ReplayedIsClear(before: seq<Arrival>, batch: seq<Arrival>, a: seq<Arrival>, b: seq<Arrival>, j: nat)
    requires a == before + batch && j < |a| && b == [a[j]] + batch && Clear(a)
    ensures Clear(b)
  {
    hide Clash;
    forall i | 0 <= i < |b| ensures b[i] == a[if i == 0 then j else i + |before| - 1] {
    }
  }

  lemma ReplayedIsLatest(before: seq<Arrival>, batch: seq<Arrival>, a: seq<Arrival>, b: seq<Arrival>, j: nat, t: nat)
    requires a == before + batch && IsLatest(a, j) && b == [a[j]] + batch
    requires t == if j < |before| then 0 else j - |before| + 1
    requires !OlderInKind(a[j].asOf, a[j].asOf)
    ensures IsLatest(b, t) && b[t] == a[j]
  {
    hide OlderInKind, Kept, SameKind;
    forall i | 0 < i < |b| ensures b[i] == a[i + |before| - 1] {
    }
    forall i | 0 <= i < t && OlderInKind(b[t].asOf, b[i].asOf) ensures KindChanges(b, i, t) {
      assert KindChanges(a, i + |before| - 1, j);
      var m :| i + |before| - 1 < m < j && !SameKind(a[m].asOf, a[j].asOf);
      assert b[m - |before| + 1] == a[m];
    }
  }

  /**
   * Not so when bare numbers come beside proper texts: against a text a bare number compares as a text, and
   * against a number as a number.  Here the second feeding leaves another balance than the first.
   */
  lemma ClashBreaksReplay()
    ensures var before := [Arrival(1.0, Iso("2021-01"))];
            var batch := [Arrival(2.0, Iso("+2020-01")), Arrival(3.0, Iso("+2027")), Arrival(4.0, Iso("2026"))];
            && Cached(before + batch).balance == 4.0
            && Cached([Cached(before + batch)] + batch).balance == 3.0
  {
    hide Cached, Stale;
    var c, w, d, e := Arrival(1.0, Iso("2021-01")), Arrival(2.0, Iso("+2020-01")), Arrival(3.0, Iso("+2027")), Arrival(4.0, Iso("2026"));
    ClashStamps(c.asOf, w.asOf, d.asOf, e.asOf);
    CachedOfThree(c, w, d, e);
    CachedOfThree(e, w, d, e);
    assert [e] + [w, d, e] == [e, w, d, e] && [c] + [w, d, e] == [c, w, d, e];
  }

  lemma CachedAfter(a: seq<Arrival>, x: Arrival)
    ensures Cached(a + [x]) == if IsStale(a, x.asOf) then Cached(a) else x
  {
    hide Latest, Stale;
    LatestAfter(a, x);
  }

  lemma CachedOfThree(p: Arrival, x: Arrival, y: Arrival, z: Arrival)
    ensures var a := if Stale(x.asOf, p.asOf) then p else x;
            var b := if Stale(y.asOf, a.asOf) then a else y;
            Cached([p, x, y, z]) == if Stale(z.asOf, b.asOf) then b else z
  {
    hide Cached, Stale;
    CachedAfter([], p);
    CachedAfter([p], x);
    CachedAfter([p, x], y);
    CachedAfter([p, x, y], z);
    assert [] + [p] == [p] && [p] + [x] == [p, x] && [p, x] + [y] == [p, x, y] && [p, x, y] + [z] == [p, x, y, z];
  }

  lemma ClashStamps(c: Stamp, w: Stamp, d: Stamp, e: Stamp)
    requires c == Iso("2021-01") && w == Iso("+2020-01") && d == Iso("+2027") && e == Iso("2026")
    ensures Stale(w, c) && Stale(d, c) && !Stale(e, c)
    ensures !Stale(w, e) && !Stale(d, w) && Stale(e, d)
  {
    hide DigitsValue, Less;
    assert c.text[4] == '-' && w.text[5] == '-' && c.text[0] == '2' && w.text[1..][4] == '-';
    assert d.text[1..] == "2027";
    FourDigits("2026");
    FourDigits("2027");
    LessAt(w.text, c.text, 0);
    LessAt(d.text, c.text, 0);
    LessAt(c.text, e.text, 3);
    LessAt(w.text, d.text, 4);
    LessIsTotal(c.text, e.text);
    LessIsTotal(w.text, d.text);
  }

  lemma FourDigits(s: string)
    requires |s| == 4
    ensures DigitsValue(s) == 1000 * Digit(s[0]) + 100 * Digit(s[1]) + 10 * Digit(s[2]) + Digit(s[3])
  {
    var t, u, v := s[..3], s[..2], s[..1];
    assert t[..2] == u && u[..1] == v && v[..0] == "";
    assert DigitsValue(v) == Digit(s[0]);
    assert DigitsValue(u) == 10 * Digit(s[0]) + Digit(s[1]);
    assert DigitsValue(t) == 100 * Digit(s[0]) + 10 * Digit(s[1]) + Digit(s[2]);
  }

  lemma {:induction false} LessAt(s: string, t: string, k: nat)
    requires k < |s| && k < |t| && s[..k] == t[..k] && s[k] < t[k]
    ensures Less(s, t)
  {
    if k > 0 {
      assert s[..k][0] == s[0] && t[..k][0] == t[0];
      assert s[1..][..k - 1] == s[..k][1..] && t[1..][..k - 1] == t[..k][1..];
      LessAt(s[1..], t[1..], k - 1);
    }
  }

  lemma {:induction false} ArrivalsOfConcat(a: seq<Event>, b: seq<Event>, k: Key)
    ensures Arrivals(a + b, k) == Arrivals(a, k) + Arrivals(b, k)
  {
    if |b| == 0 {
      assert a + b == a;
    } else {
      assert (a + b)[..|a + b| - 1] == a + b[..|b| - 1];
      ArrivalsOfConcat(a, b[..|b| - 1], k);
    }
  }

  /** Said of runs: repeating a stretch of events right away leaves every key as taking it once did. */
  lemma ReplayedRunIsHarmless(c: Config, s0: Sys, run: seq<Event>, batch: seq<Event>, s1: Sys, s2: Sys, k: Key)
    requires Reached(c, s0, run + batch, s1) && Reached(c, s0, run + batch + batch, s2)
    requires Clear(Arrivals(run + batch, k))
    ensures k in s1.db.balances <==> k in s2.db.balances
    ensures k in s1.db.balances ==>
              && s2.db.balances[k].hcmBalance == s1.db.balances[k].hcmBalance
              && s2.db.balances[k].hcmSnapshotAt == s1.db.balances[k].hcmSnapshotAt
  {
    hide Exec, Reached, Latest, Kept, Arrivals, Clear;
    CacheIsFold(c, s0, run + batch, s1, k);
    CacheIsFold(c, s0, run + batch + batch, s2, k);
    ArrivalsOfConcat(run, batch, k);
    ArrivalsOfConcat(run + batch, batch, k);
    var a, b := Arrivals(run, k), Arrivals(batch, k);
    if |a + b| > 0 {
      CachedConcat(a + b, b);
      ReplayChangesNothing(a, b);
    }
  }
}
