/** The effective balance shown to employees (requirement N1 of TRD.md). */
module BalanceIntegrity {
  import opened Types
  import opened Rounding
  import opened Tables
  import opened Ledger
  import opened Invariants

  /** Whether the last snapshot that replaced this key's cached balance was flagged negative drift. */
  predicate Flagged(log: seq<AuditRow>, k: Key) {
    if |log| == 0 then false
    else
      var e := log[|log| - 1];
      if e.BalanceLogged? && e.key == k && e.snapshot != SnapshotIgnoredStale then e.snapshot == SnapshotNegativeDrift
      else Flagged(log[..|log| - 1], k)
  }

  /** What open reservations leave of a key's cached balance, before rounding. */
  function Slack(db: Db, k: Key): real
    requires k in db.balances
  {
    db.balances[k].hcmBalance - SumOpen(db.reservations, k) as real
  }

  /** While a key is not flagged, its open days exceed its cached balance by at most 0.005. */
  ghost predicate Covered(db: Db) {
    forall k :: k in db.balances && !Flagged(db.audit, k) ==> Slack(db, k) >= -0.005
  }

  lemma FlaggedAfter(log: seq<AuditRow>, e: AuditRow, k: Key)
    ensures Flagged(log + [e], k) ==
            if e.BalanceLogged? && e.key == k && e.snapshot != SnapshotIgnoredStale then e.snapshot == SnapshotNegativeDrift
            else Flagged(log, k)
  {
    assert (log + [e])[..|log|] == log;
  }

  predicate AppliesTo(ch: Change, k: Key) { ch.Snapshot? && ch.key == k && ch.action != SnapshotIgnoredStale }

  lemma FlaggedStep(db: Db, ch: Change, k: Key)
    requires Aligned(db)
    ensures Flagged(Apply(db, ch).audit, k) ==
            if AppliesTo(ch, k) then ch.action == SnapshotNegativeDrift else Flagged(db.audit, k)
  {
    hide Flagged;
    var log' := Apply(db, ch).audit;
    if |log'| > |db.audit| {
      FlaggedAfter(db.audit, log'[|db.audit|], k);
    }
  }

  lemma CoveredKept(c: Config, db: Db, ch: Change)
    requires Coupled(db) && Covered(db) && Allowed(c, db, ch)
    ensures Covered(Apply(db, ch))
  {
    var db' := Apply(db, ch);
    forall k | k in db'.balances && !Flagged(db'.audit, k) ensures Slack(db', k) >= -0.005 {
      SlackStep(c, db, ch, k);
    }
  }

  lemma SlackStep(c: Config, db: Db, ch: Change, k: Key)
    requires Coupled(db) && Allowed(c, db, ch) && k in Apply(db, ch).balances && !Flagged(Apply(db, ch).audit, k)
    requires k in db.balances && !Flagged(db.audit, k) ==> Slack(db, k) >= -0.005
    ensures Slack(Apply(db, ch), k) >= -0.005
  {
    FlaggedStep(db, ch, k);
    OpenSumAfter(c, db, ch, k);
    hide SumOpen, Flagged;
    if ch.Insert? && ch.request.key == k {
      RoundAtLeast(Slack(db, k), ch.request.days);
      assert Effective(db, k) == Round(Slack(db, k));
    } else if ch.Move? {
      assert Matches(db.requests[ch.i], db.reservations[ch.i]);
    }
  }

  /** The reported balance is negative only under a drift flag: N1 holds for every unflagged key. */
  lemma EffectiveNonNegativeUnlessFlagged(db: Db, k: Key)
    requires Covered(db) && k in db.balances && !Flagged(db.audit, k)
    ensures Effective(db, k) >= 0.0
  {
    RoundAtLeast(Slack(db, k), 0);
  }

  /**
   * Exactly when a transaction takes a non-negative effective balance below zero: it applies a
   * snapshot more than 0.005 below the days reserved at that moment.
   */
  lemma EffectiveTurnsNegativeIff(c: Config, db: Db, ch: Change, k: Key)
    requires Coupled(db) && Allowed(c, db, ch) && k in db.balances && Effective(db, k) >= 0.0
    ensures k in Apply(db, ch).balances
    ensures Effective(Apply(db, ch), k) < 0.0 <==>
            AppliesTo(ch, k) && ch.balance.hcmBalance < SumOpen(db.reservations, k) as real - 0.005
  {
    var db' := Apply(db, ch);
    OpenSumAfter(c, db, ch, k);
    RoundAtLeast(Slack(db, k), 0);
    RoundAtLeast(Slack(db', k), 0);
    if ch.Insert? && ch.request.key == k {
      RoundAtLeast(Slack(db, k), ch.request.days);
    } else if ch.Move? {
      assert Matches(db.requests[ch.i], db.reservations[ch.i]);
    }
    hide SumOpen, Round;
  }

  /** While the effective balance is negative, only an applied snapshot can lower it further. */
  lemma NegativeOnlyLoweredBySnapshot(c: Config, db: Db, ch: Change, k: Key)
    requires Coupled(db) && Allowed(c, db, ch) && k in db.balances && Effective(db, k) < 0.0 && !AppliesTo(ch, k)
    ensures k in Apply(db, ch).balances && Effective(Apply(db, ch), k) >= Effective(db, k)
  {
    var db' := Apply(db, ch);
    OpenSumAfter(c, db, ch, k);
    if ch.Move? {
      assert Matches(db.requests[ch.i], db.reservations[ch.i]);
    }
    RoundMonotone(Slack(db, k), Slack(db', k));
  }

  lemma HigherSnapshotRaises(c: Config, db: Db, ch: Change, k: Key)
    requires Coupled(db) && Allowed(c, db, ch) && k in db.balances && AppliesTo(ch, k)
    ensures k in Apply(db, ch).balances
    ensures ch.balance.hcmBalance >= db.balances[k].hcmBalance ==> Effective(Apply(db, ch), k) >= Effective(db, k)
  {
    var db' := Apply(db, ch);
    if ch.balance.hcmBalance >= db.balances[k].hcmBalance {
      RoundMonotone(Slack(db, k), Slack(db', k));
    }
    hide SumOpen, Round;
  }

  /** The reported balance is the balance less the open days, to the nearest hundredth. */
  lemma EffectiveIsNearest(db: Db, k: Key)
    requires k in db.balances
    ensures Effective(db, k) - 0.005 <= db.balances[k].hcmBalance - SumOpen(db.reservations, k) as real < Effective(db, k) + 0.005
    ensures (Effective(db, k) * 100.0).Floor as real == Effective(db, k) * 100.0
  {
    hide Round;
    RoundIsNearest(Slack(db, k));
  }

  // ----- Filing and undoing -----

  /** The balance a successful filing announces is the one read back next, although it was rounded twice. */
  lemma AnnouncedBalanceIsReported(c: Config, db: Db, actor: Actor, input: Input, id: Id, corr: Id, now: Time)
    requires Coupled(db) && CreateTx(db, actor, input, id, corr, now).Committed?
    ensures var tx := CreateTx(db, actor, input, id, corr, now);
            var db' := Apply(db, tx.change);
            var k := tx.value.row.key;
            && k in db'.balances && Effective(db', k) == tx.value.effectiveBalanceAfter
            && (var after, left := tx.value.effectiveBalanceAfter, db'.balances[k].hcmBalance - SumOpen(db'.reservations, k) as real;
                after - 0.005 <= left < after + 0.005 && (after * 100.0).Floor as real == after * 100.0)
  {
    hide Dates.CountDaysInclusive, FindRequest, SumOpen, Round;
    var tx := CreateTx(db, actor, input, id, corr, now);
    CreateAllowed(c, db, actor, input, id, corr, now);
    var k := tx.value.row.key;
    OpenSumAfter(c, db, tx.change, k);
    RoundTwice(Slack(db, k), tx.value.row.days);
    EffectiveIsNearest(Apply(db, tx.change), k);
  }

  /** Filing a request and closing it again unconsumed moves nobody's reserved days. */
  lemma FilingThenClosingRestores(c: Config, db: Db, file: Change, undo: Change, k: Key)
    requires Coupled(db) && file.Insert? && Allowed(c, db, file)
    requires undo.Move? && undo.i == |db.requests| && Allowed(c, Apply(db, file), undo)
    requires undo.to == Cancelled || undo.to == Rejected
    ensures SumOpen(Apply(Apply(db, file), undo).reservations, k) == SumOpen(db.reservations, k)
    ensures file.request.key != k ==> SumOpen(Apply(db, file).reservations, k) == SumOpen(db.reservations, k)
  {
    CoupledKept(c, db, file);
    OpenSumAfter(c, db, file, k);
    OpenSumAfter(c, Apply(db, file), undo, k);
  }

  /**
   * A filed request can be cancelled by its owner and rejected by an authorised manager, and
   * either brings every key's effective balance back exactly; other keys never moved.
   */
  lemma FileThenUndo(c: Config, db: Db, actor: Actor, input: Input, id: Id, corr: Id, now: Time,
                     manager: Actor, reason: Option<string>, later: Time, k: Key)
    requires Coupled(db) && k in db.balances
    requires CreateTx(db, actor, input, id, corr, now).Committed?
    ensures var file := CreateTx(db, actor, input, id, corr, now);
            var filed := Apply(db, file.change);
            var cancel := CancelTx(filed, actor, id, later);
            var reject := RejectTx(filed, manager, id, reason, later);
            && cancel.Committed? && (reject.Committed? <==>
                                    || Admin in manager.roles
                                    || (Manager in manager.roles && actor.managerId in {None, Some(""), Some(manager.sub)}))
            && k in filed.balances && k in Apply(filed, cancel.change).balances
            && Effective(Apply(filed, cancel.change), k) == Effective(db, k)
            && (reject.Committed? ==> k in Apply(filed, reject.change).balances
                                      && Effective(Apply(filed, reject.change), k) == Effective(db, k))
            && (file.value.row.key != k ==> Effective(filed, k) == Effective(db, k))
  {
    hide Dates.CountDaysInclusive, SumOpen, Round;
    var file := CreateTx(db, actor, input, id, corr, now);
    CreateAllowed(c, db, actor, input, id, corr, now);
    var filed := Apply(db, file.change);
    assert FindRequest(filed.requests, id) == Some(|db.requests|);
    UserMovesAllowed(c, filed, actor, id, id, reason, later);
    UserMovesAllowed(c, filed, manager, id, id, reason, later);
    hide Allowed;
    FilingThenClosingRestores(c, db, file.change, CancelTx(filed, actor, id, later).change, k);
    var reject := RejectTx(filed, manager, id, reason, later);
    if reject.Committed? {
      FilingThenClosingRestores(c, db, file.change, reject.change, k);
    }
  }
}
