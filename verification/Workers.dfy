/** The outbox worker, split at its two awaits, and the programmable HCM it talks to. */
module Workers {
  import opened Types
  import opened Backoff
  import opened Tables
  import opened Ledger
  import opened Invariants
  import opened Protocol
  import opened Safety
  import opened Drain
  import opened Repositories
  import opened Services

  /** MockHcmState of test/mocks/hcm-mock-server.js, without scripted failures. */
  class MockHcmState {
    var balances: map<Key, real>
    var idempotency: set<Id>  // external ids marked CONSUMED

    constructor ()
      ensures State() == Hcm(map[], {})
    {
      balances, idempotency := map[], {};
    }

    function State(): Hcm
      reads this
    {
      Hcm(balances, idempotency)
    }

    method SetBalance(k: Key, balance: real)
      modifies this`balances
      ensures HcmBalance(State(), k) == balance
      ensures forall j :: j != k ==> HcmBalance(State(), j) == HcmBalance(old(State()), j)
    {
      balances := balances[k := balance];
    }

    method GetBalance(k: Key) returns (balance: real)
      ensures balance == HcmBalance(State(), k)
      ensures if k in balances then balance == balances[k] else balance == 0.0
    {
      if k in balances { return balances[k]; }
      return 0.0;
    }

    method Consume(p: Payload) returns (reply: Reply)
      modifies this
      ensures State() == Protocol.Consume(old(State()), p) && reply == PromptReply(old(State()), p)
      ensures var held := if p.key in old(balances) then old(balances)[p.key] else 0.0;
              if p.externalRequestId in old(idempotency) then
                reply == Accepted && balances == old(balances) && idempotency == old(idempotency)
              else if held < p.days as real then
                reply == PermanentError && balances == old(balances) && idempotency == old(idempotency)
              else
                reply == Accepted && balances == old(balances)[p.key := held - p.days as real]
                && idempotency == old(idempotency) + {p.externalRequestId}
    {
      if p.externalRequestId in idempotency { return Accepted; }
      var cur := if p.key in balances then balances[p.key] else 0.0;
      if cur < p.days as real { return PermanentError; }
      balances := balances[p.key := cur - p.days as real];
      idempotency := idempotency + {p.externalRequestId};
      reply := Accepted;
    }
  }

  /** Where the worker is suspended, or what it still owes the row in hand. */
  datatype Point = NotRunning | AtBalance | AtConsume | AtMarkDone | AtAbort

  class HcmOutboxWorker {
    const db: Database
    const clock: Clock
    const outbox: HcmOutboxService
    const timeOff: TimeOffService
    const hcm: MockHcmState
    const c: Config

    var draining: bool
    var at: Point
    var rows: seq<Claimed>        // the row in hand and those after it
    ghost var sent: seq<Claimed>  // the consume calls put on the wire

    constructor (timeOff: TimeOffService, hcm: MockHcmState)
      requires timeOff.Wired() && timeOff.outbox.clock == timeOff.clock
      ensures this.timeOff == timeOff && this.hcm == hcm && Wired() && Valid()
      ensures !draining && sent == []
    {
      this.db, this.clock, this.outbox, this.c := timeOff.db, timeOff.clock, timeOff.outbox, timeOff.outbox.c;
      this.timeOff, this.hcm := timeOff, hcm;
      draining, at, rows, sent := false, NotRunning, [], [];
    }

    ghost predicate Wired() {
      && timeOff.Wired() && timeOff.db == db && timeOff.clock == clock && timeOff.outbox == outbox
      && outbox.db == db && outbox.clock == clock && outbox.c == c
    }

    ghost predicate Valid()
      reads this
    {
      (draining <==> at != NotRunning) && (draining <==> |rows| > 0)
    }

    function Phase(): Worker
      reads this
    {
      match at
      case NotRunning => Idle
      case AtBalance => AwaitBalance(rows)
      case AtConsume => AwaitConsume(rows)
      case AtMarkDone => Marked(rows, false)
      case AtAbort => Marked(rows, true)
    }

    ghost function View(): Sys
      reads this, db, clock, hcm
    {
      Sys(db.State(), clock.time, db.idempotencyKeys, Phase(), sent, hcm.State())
    }

    /** Leave the row in hand and take up the next one, or end the tick. */
    method NextRow()
      requires Valid() && draining
      modifies this`draining, this`at, this`rows
      ensures Valid() && Phase() == Holding(old(rows)[1..])
    {
      rows := rows[1..];
      if |rows| == 0 {
        draining, at := false, NotRunning;
      } else {
        at := AtBalance;
      }
    }

    /** scheduleRetry on the row in hand, and on to the next. */
    method RetryRow(random: real, text: string)
      requires Wired() && Valid() && draining && Coupled(db.State())
      modifies this`draining, this`at, this`rows, db`outbox
      ensures Valid() && Coupled(db.State()) && Phase() == Holding(old(rows)[1..])
      ensures db.State() == Apply(old(db.State()), RetryChange(c, old(db.outbox), old(rows)[0].id, text, random, clock.time))
    {
      hide RetryChange, ComputeBackoffMs;
      outbox.ScheduleRetry(rows[0].id, text, random);
      NextRow();
    }

    /** tick, up to the first await: a tick that finds another one running does nothing. */
    method StartTick() returns (claimed: nat)
      requires Wired() && Valid() && Coupled(db.State())
      modifies this`draining, this`at, this`rows, db`outbox
      ensures Valid() && Coupled(db.State()) && View() == Next(c, old(View()), Protocol.Tick)
      ensures !old(draining) ==> claimed == |rows| && (draining ==> at == AtBalance)
    {
      hide Next, EffectOf, Apply, Coupled, ClaimedRows, DueRows;
      AlignedWhenCoupled(db.State());
      TickNext(c, View());
      if draining { return 0; }
      rows := outbox.ClaimDue();
      draining := |rows| > 0;
      at := if draining then AtBalance else NotRunning;
      claimed := |rows|;
    }

    /** _handleRow, from the first await to the second. */
    method OnBalance(view: Option<real>, random: real, text: string)
      requires Wired() && Valid() && Coupled(db.State()) && at == AtBalance && Jitter(random)
      modifies this, db`requests, db`outbox, db`audit
      ensures Valid() && Coupled(db.State()) && View() == Next(c, old(View()), BalanceReply(view, random, text))
    {
      hide MarkTx, RetryChange, Coupled, Next, EffectOf, Apply;
      AlignedWhenCoupled(db.State());
      ReplyNext(c, View(), BalanceReply(view, random, text));
      var row := rows[0];
      ghost var was := db.State();
      if view.Some? && view.value < row.payload.days as real {
        var r := timeOff.MarkReviewRequired(row.requestId, text);
        if r.Success? {
          at := AtMarkDone;
        } else {
          assert db.State() == was;
          RetryRow(random, text);
        }
        return;
      }
      sent := sent + [row];
      at := AtConsume;
    }

    /** _handleRow, after the second await. */
    method OnConsume(reply: Reply, random: real, text: string)
      requires Wired() && Valid() && Coupled(db.State()) && at == AtConsume && Jitter(random)
      modifies this`draining, this`at, this`rows, db`requests, db`reservations, db`outbox, db`audit
      ensures Valid() && Coupled(db.State()) && View() == Next(c, old(View()), ConsumeReply(reply, random, text))
    {
      hide MarkTx, RetryChange, Coupled, Next, EffectOf, Apply;
      AlignedWhenCoupled(db.State());
      ReplyNext(c, View(), ConsumeReply(reply, random, text));
      var row := rows[0];
      ghost var was := db.State();
      match reply
      case Accepted =>
        var r := timeOff.MarkConsumed(row.requestId);
        if r.Success? {
          at := AtMarkDone;
        } else {
          assert db.State() == was;
          RetryRow(random, text);
        }
      case PermanentError =>
        var r := timeOff.MarkHcmFailed(row.requestId, text);
        // markDone runs either way; a refusal then ends the tick and leaves the rows after this one INFLIGHT.
        at := if r.Success? then AtMarkDone else AtAbort;
      case TransientError =>
        RetryRow(random, text);
    }

    /** The markDone that follows a mark. */
    method CloseRow()
      requires Wired() && Valid() && Coupled(db.State()) && (at == AtMarkDone || at == AtAbort)
      modifies this`draining, this`at, this`rows, db`outbox
      ensures Valid() && Coupled(db.State()) && View() == Next(c, old(View()), MarkDone)
      ensures !draining || (at == AtBalance && rows == old(rows)[1..])
    {
      hide Next, EffectOf, Apply, Coupled;
      AlignedWhenCoupled(db.State());
      DoneNext(c, View());
      outbox.MarkDone(rows[0].id);
      if at == AtAbort {
        draining, at, rows := false, NotRunning, [];
      } else {
        NextRow();
      }
    }

    /** The process dies and starts again: the worker's memory is gone. */
    method Restart()
      requires Aligned(db.State())
      modifies this`draining, this`at, this`rows
      ensures Valid() && View() == Next(c, old(View()), Crash)
    {
      draining, at, rows := false, NotRunning, [];
    }

    // ----- Without interleaving, against an HCM that answers at once -----

    /** The consume call and what follows it. */
    method Submit(random: real, text: string)
      requires Wired() && Valid() && Coupled(db.State()) && at == AtConsume && Jitter(random)
      requires |sent| > 0 && sent[|sent| - 1] == rows[0]
      modifies this`draining, this`at, this`rows, hcm, db`requests, db`reservations, db`outbox, db`audit
      ensures Valid() && Coupled(db.State())
      ensures Exec(c, old(View()), SubmitScript(old(View()), random, text)) == Some(View())
      ensures var s := old(View());
              if PromptReply(s.hcm, s.worker.rows[0].payload) == Accepted
                 && MarkTx(s.db, s.worker.rows[0].requestId, RequestState.Consumed, None, s.clock).RolledBack?
              then Phase() == Holding(old(rows)[1..])
              else (at == AtMarkDone || at == AtAbort) && rows == old(rows)
    {
      hide Next, MarkTx, Protocol.Consume, Exec, Coupled;
      AlignedWhenCoupled(db.State());
      ghost var s := View();
      ghost var m := |sent| - 1;
      var reply := hcm.Consume(rows[0].payload);
      AfterProcess(c, s, m);
      ghost var t := View();
      ExecOne(c, s, HcmProcess(m));
      OnConsume(reply, random, text);
      AfterConsume(c, t, ConsumeReply(reply, random, text));
      ExecMore(c, s, [HcmProcess(m)], t, ConsumeReply(reply, random, text));
      assert SubmitScript(s, random, text) == [HcmProcess(m)] + [ConsumeReply(reply, random, text)];
    }

    /** _handleRow in one go. */
    method HandleRow(random: real, text: string)
      requires Wired() && Valid() && Coupled(db.State()) && at == AtBalance && Jitter(random)
      modifies this, hcm, db`requests, db`reservations, db`outbox, db`audit
      ensures Valid() && Coupled(db.State())
      ensures Exec(c, old(View()), RowScript(old(View()), random, text)) == Some(View())
      ensures !draining || (at == AtBalance && rows == old(rows)[1..])
    {
      hide Next, MarkTx, Protocol.Consume, Exec, SubmitScript, RowScript, PromptReply, Coupled, Apply, HcmBalance;
      AlignedWhenCoupled(db.State());
      ghost var s := View();
      var view := hcm.GetBalance(rows[0].payload.key);
      ghost var first := BalanceReply(Some(view), random, text);
      ghost var script := [first];
      OnBalance(Some(view), random, text);
      ExecOne(c, s, first);
      AfterBalance(c, s, first);
      if at == AtConsume {
        ghost var t := View();
        Submit(random, text);
        ExecConcat(c, s, [first], SubmitScript(t, random, text));
        script := script + SubmitScript(t, random, text);
      }
      if at == AtMarkDone || at == AtAbort {
        ghost var v := View();
        CloseRow();
        ExecMore(c, s, script, v, MarkDone);
        script := script + [MarkDone];
      }
      RowScriptParts(s, random, text);
    }

    /** tick: claim the due rows and handle them in turn. */
    method Tick(random: real, text: string) returns (claimed: nat)
      requires Wired() && Valid() && Coupled(db.State()) && Jitter(random)
      modifies this, hcm, db`requests, db`reservations, db`outbox, db`audit
      ensures Valid() && Coupled(db.State())
      ensures if old(draining) then claimed == 0 && View() == old(View())
              else !draining && Exec(c, old(View()), TickScript(c, old(View()), random, text)) == Some(View())
    {
      hide Next, RowScript, Exec, RowsScript;
      if draining { return 0; }
      ghost var s := View();
      AlignedWhenCoupled(s.db);
      claimed := StartTick();
      ghost var s1 := View();
      ExecOne(c, s, Protocol.Tick);
      if !draining {
        assert TickScript(c, s, random, text) == [Protocol.Tick];
        return;
      }
      ghost var n := |rows|;
      ghost var script := RowsScript(c, s1, n, random, text);
      assert TickScript(c, s, random, text) == [Protocol.Tick] + script;
      ExecConcat(c, s, [Protocol.Tick], script);
      while draining
        invariant Valid() && Coupled(db.State()) && n >= |rows| && (draining ==> at == AtBalance)
        invariant Exec(c, s1, script) == Exec(c, View(), RowsScript(c, View(), n, random, text))
        decreases |rows|
      {
        ghost var t := View();
        AlignedWhenCoupled(t.db);
        HandleRow(random, text);
        RowsUnfold(c, t, View(), n, random, text);
        n := n - 1;
      }
      RowsOver(c, View(), n, random, text);
    }
  }

  // ----- Scripts, event by event -----

  function SubmitScript(s: Sys, random: real, text: string): seq<Event>
    requires s.worker.AwaitConsume? && |s.worker.rows| > 0 && |s.sent| > 0
  {
    [HcmProcess(|s.sent| - 1), ConsumeReply(PromptReply(s.hcm, s.worker.rows[0].payload), random, text)]
  }

  lemma RowScriptParts(s: Sys, random: real, text: string)
    requires s.worker.AwaitBalance? && |s.worker.rows| > 0
    ensures var row := s.worker.rows[0];
            var view := HcmBalance(s.hcm, row.payload.key);
            var first := [BalanceReply(Some(view), random, text)];
            if view < row.payload.days as real then
              RowScript(s, random, text) ==
              if MarkTx(s.db, row.requestId, ReviewRequired, Some(text), s.clock).Committed? then first + [MarkDone] else first
            else
              var t := s.(worker := AwaitConsume(s.worker.rows), sent := s.sent + [row]);
              RowScript(s, random, text) ==
              if PromptReply(s.hcm, row.payload) == Accepted
                 && MarkTx(s.db, row.requestId, RequestState.Consumed, None, s.clock).RolledBack?
              then first + SubmitScript(t, random, text) else first + SubmitScript(t, random, text) + [MarkDone]
  {
    hide MarkTx, PromptReply;
  }

  lemma RowsUnfold(c: Config, t: Sys, u: Sys, n: nat, random: real, text: string)
    requires Aligned(t.db) && t.worker.AwaitBalance? && |t.worker.rows| > 0 && n > 0
    requires Exec(c, t, RowScript(t, random, text)) == Some(u)
    ensures Exec(c, t, RowsScript(c, t, n, random, text)) == Exec(c, u, RowsScript(c, u, n - 1, random, text))
  {
    hide RowScript, Exec;
    ExecConcat(c, t, RowScript(t, random, text), RowsScript(c, u, n - 1, random, text));
  }

  lemma RowsOver(c: Config, s: Sys, n: nat, random: real, text: string)
    requires Aligned(s.db) && s.worker.Idle?
    ensures Exec(c, s, RowsScript(c, s, n, random, text)) == Some(s)
  {
  }

  lemma ReplyNext(c: Config, s: Sys, e: Event)
    requires Aligned(s.db) && Enabled(s, e) && (e.BalanceReply? || e.ConsumeReply?)
    ensures var f := if e.BalanceReply? then BalanceReplyEffect(c, s, e) else ConsumeReplyEffect(c, s, e);
            Next(c, s, e) == f.rest.(db := Apply(s.db, f.change))
    ensures Apply(s.db, Nothing) == s.db
  {
    hide BalanceReplyEffect, ConsumeReplyEffect;
  }

  lemma TickNext(c: Config, s: Sys)
    requires Coupled(s.db)
    ensures Next(c, s, Protocol.Tick) ==
            if !s.worker.Idle? then s
            else
              var ids := DueRows(s.db.outbox, s.clock, c.batchSize, 0);
              s.(db := Apply(s.db, Claim(ids, s.clock)), worker := Holding(ClaimedRows(s.db.outbox, ids)))
    ensures Coupled(Next(c, s, Protocol.Tick).db)
  {
    hide DueRows;
  }

  lemma DoneNext(c: Config, s: Sys)
    requires Coupled(s.db) && s.worker.Marked? && |s.worker.rows| > 0
    ensures Next(c, s, MarkDone) ==
            s.(db := Apply(s.db, Finish(s.worker.rows[0].id, s.clock)),
               worker := if s.worker.abort then Idle else Holding(s.worker.rows[1..]))
    ensures Coupled(Next(c, s, MarkDone).db)
  {
  }

  /** Where the worker stands after each kind of resumption. */
  lemma AfterBalance(c: Config, s: Sys, e: Event)
    requires Aligned(s.db) && e.BalanceReply? && Enabled(s, e)
    ensures var t := Next(c, s, e);
            if e.view.Some? && e.view.value < s.worker.rows[0].payload.days as real then
              t.worker == if MarkTx(s.db, s.worker.rows[0].requestId, ReviewRequired, Some(e.text), s.clock).Committed?
                          then Marked(s.worker.rows, false) else Holding(s.worker.rows[1..])
            else
              t == s.(worker := AwaitConsume(s.worker.rows), sent := s.sent + [s.worker.rows[0]])
  {
    hide MarkTx;
  }

  lemma AfterProcess(c: Config, s: Sys, m: nat)
    requires Aligned(s.db) && m < |s.sent|
    ensures Next(c, s, HcmProcess(m)) == s.(hcm := Consume(s.hcm, s.sent[m].payload))
  {
  }

  lemma AfterConsume(c: Config, s: Sys, e: Event)
    requires Aligned(s.db) && e.ConsumeReply? && Enabled(s, e) && e.reply != TransientError
    ensures var tx := MarkTx(s.db, s.worker.rows[0].requestId, RequestState.Consumed, None, s.clock);
            var w := Next(c, s, e).worker;
            if e.reply == Accepted && tx.RolledBack? then w == Holding(s.worker.rows[1..]) else w.Marked? && w.rows == s.worker.rows
  {
    hide MarkTx;
  }
}
