/** Idempotent filing (idempotency.service.js and the create handler of time-off.controller.js). */
module Filing {
  import opened Types
  import opened Tables
  import opened Ledger
  import opened Protocol
  import opened Guarantees

  /** What the handler answers. */
  function Response(s: Sys, e: Event): Result<Created, Error>
    requires e.Post?
  {
    var cached := IdemLookup(s.idem, IdemKey(e.key, ENDPOINT, e.actor.sub), s.clock);
    if cached.Some? then Success(cached.value.response)
    else
      match CreateTx(s.db, e.actor, e.input, e.id, e.corr, s.clock)
      case Committed(_, created) => Success(created)
      case RolledBack(error) => Failure(error)
  }

  /** Whether this event files a request under a key of an actor. */
  predicate FilesUnder(s: Sys, e: Event, ik: IdemKey) {
    && e.Post? && ik == IdemKey(e.key, ENDPOINT, e.actor.sub)
    && IdemLookup(s.idem, ik, s.clock).None?
    && CreateTx(s.db, e.actor, e.input, e.id, e.corr, s.clock).Committed?
  }

  datatype Filed = Filed(at: Time, response: Created)

  /** A filing whose response is stored: the process did not die in between. */
  predicate StoresUnder(s: Sys, e: Event, ik: IdemKey) { FilesUnder(s, e, ik) && !e.dies }

  /** The last stored filing under a key in a run. */
  function LastStored(c: Config, s0: Sys, run: seq<Event>, ik: IdemKey): Option<Filed>
    requires Aligned(s0.db) && Exec(c, s0, run).Some?
  {
    if |run| == 0 then None
    else
      var t, e := Exec(c, s0, run[..|run| - 1]).value, run[|run| - 1];
      if StoresUnder(t, e, ik) then Some(Filed(t.clock, Response(t, e).value))
      else LastStored(c, s0, run[..|run| - 1], ik)
  }

  /** The stored row mirrors the last stored filing until it expires. */
  predicate Mirrors(s: Sys, ik: IdemKey, last: Option<Filed>) {
    match last
    case None => ik !in s.idem
    case Some(f) =>
      && f.at <= s.clock
      && if ik in s.idem then s.idem[ik] == IdemRow(f.response, f.at + TTL_MS) else s.clock > f.at + TTL_MS
  }

  lemma MirrorsStep(c: Config, s: Sys, e: Event, ik: IdemKey, last: Option<Filed>)
    requires Aligned(s.db) && Enabled(s, e) && Mirrors(s, ik, last) && ik.key != ""
    ensures Mirrors(Next(c, s, e), ik, if StoresUnder(s, e, ik) then Some(Filed(s.clock, Response(s, e).value)) else last)
  {
    hide CreateTx, ApproveTx, RejectTx, CancelTx, MarkTx, SnapshotTx;
  }

  lemma {:induction false} StoreMirrorsFilings(c: Config, s0: Sys, run: seq<Event>, s: Sys, ik: IdemKey)
    requires Reached(c, s0, run, s) && ik.key != ""
    ensures Mirrors(s, ik, LastStored(c, s0, run, ik))
  {
    if |run| > 0 {
      var most := run[..|run| - 1];
      StoreMirrorsFilings(c, s0, most, Exec(c, s0, most).value, ik);
      MirrorsStep(c, Exec(c, s0, most).value, run[|run| - 1], ik, LastStored(c, s0, most, ik));
    }
  }

  /**
   * A POST under a key files a request exactly when the filing would commit and no stored filing under the
   * key is 24 hours old or less; while one is, its response is returned and nothing changes.
   */
  lemma FilesIff(c: Config, s0: Sys, run: seq<Event>, s: Sys, e: Event)
    requires Reached(c, s0, run, s) && e.Post? && e.key != ""
    ensures var ik := IdemKey(e.key, "POST /me/requests", e.actor.sub);
            var last := LastStored(c, s0, run, ik);
            && (FilesUnder(s, e, ik) <==>
                  && CreateTx(s.db, e.actor, e.input, e.id, e.corr, s.clock).Committed?
                  && (last.None? || s.clock > last.value.at + 24 * 60 * 60 * 1000))
            && (last.Some? && s.clock <= last.value.at + 24 * 60 * 60 * 1000 ==>
                  Response(s, e) == Success(last.value.response) && Next(c, s, e) == s)
            && (last.None? || s.clock > last.value.at + 24 * 60 * 60 * 1000 ==>
                  Response(s, e) == match CreateTx(s.db, e.actor, e.input, e.id, e.corr, s.clock)
                                    case Committed(_, created) => Success(created)
                                    case RolledBack(error) => Failure(error))
  {
    StoreMirrorsFilings(c, s0, run, s, IdemKey(e.key, ENDPOINT, e.actor.sub));
    hide CreateTx, LastStored, Exec;
  }

  /** Without a key nothing is looked up or stored: every POST is answered by the filing itself. */
  lemma NoKeyNoReplay(c: Config, s: Sys, e: Event)
    requires Aligned(s.db) && e.Post? && e.key == ""
    ensures Next(c, s, e).idem == s.idem
    ensures var tx := CreateTx(s.db, e.actor, e.input, e.id, e.corr, s.clock);
            && Response(s, e) == (match tx case Committed(_, created) => Success(created) case RolledBack(error) => Failure(error))
            && Next(c, s, e).db == match tx case Committed(ch, _) => Apply(s.db, ch) case RolledBack(_) => s.db
  {
    hide CreateTx;
    NothingWritten(s.db);
  }

  lemma {:induction false} LastStoredIsLater(c: Config, s0: Sys, run: seq<Event>, n: nat, ik: IdemKey)
    requires c.Valid() && Init(s0) && Exec(c, s0, run).Some? && n < |run|
    requires Exec(c, s0, run[..n]).Some? && StoresUnder(Exec(c, s0, run[..n]).value, run[n], ik)
    ensures LastStored(c, s0, run, ik).Some?
    ensures Exec(c, s0, run[..n]).value.clock <= LastStored(c, s0, run, ik).value.at <= Exec(c, s0, run).value.clock
  {
    var most := run[..|run| - 1];
    var t := Exec(c, s0, most).value;
    ClockMoves(c, t, run[|run| - 1]);
    if n < |run| - 1 {
      assert most[..n] == run[..n];
      LastStoredIsLater(c, s0, most, n, ik);
    }
    hide EffectOf, Apply, StoresUnder, Response;
  }

  lemma ClockMoves(c: Config, s: Sys, e: Event)
    requires Aligned(s.db) && Enabled(s, e)
    ensures s.clock <= Next(c, s, e).clock
  {
    hide CreateTx, ApproveTx, RejectTx, CancelTx, MarkTx, SnapshotTx, Apply;
  }

  /** After a stored filing the same actor files again under the same key only more than 24 hours later, whatever crashes in between. */
  lemma FilingsAreADayApart(c: Config, s0: Sys, run: seq<Event>, n: nat, m: nat, ik: IdemKey)
    requires c.Valid() && Init(s0) && n < m < |run| && ik.key != ""
    requires Exec(c, s0, run[..n]).Some? && FilesUnder(Exec(c, s0, run[..n]).value, run[n], ik) && !run[n].dies
    requires Exec(c, s0, run[..m]).Some? && FilesUnder(Exec(c, s0, run[..m]).value, run[m], ik)
    ensures Exec(c, s0, run[..m]).value.clock > Exec(c, s0, run[..n]).value.clock + 24 * 60 * 60 * 1000
  {
    hide Exec, LastStored, Response, CreateTx;
    var most := run[..m];
    assert most[..n] == run[..n] && most[n] == run[n];
    LastStoredIsLater(c, s0, most, n, ik);
    FilesIff(c, s0, most, Exec(c, s0, most).value, run[m]);
  }
}
