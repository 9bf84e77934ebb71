/** Which event moves a request where, and who may cause it (time-off.service.js, hcm-outbox.worker.js). */
module Lifecycle {
  import opened Types
  import opened StateMachine
  import opened Tables
  import opened Rounding
  import opened Ledger
  import opened Invariants
  import opened Protocol
  import opened Safety

  /** No admin, and no manager, or one whom the request passes over for another. */
  predicate NotTheirs(actor: Actor, q: Request) {
    && Admin !in actor.roles
    && (Manager !in actor.roles || (q.managerId.Some? && q.managerId.value != "" && q.managerId.value != actor.sub))
  }

  lemma NotTheirsIsRefused(actor: Actor, q: Request)
    ensures AuthorizeManager(actor, q) <==> !NotTheirs(actor, q)
  {
  }

  predicate OwnsOrAdministers(actor: Actor, q: Request) {
    Admin in actor.roles || actor.sub == q.key.employeeId
  }

  predicate Names(s: Sys, id: Id, i: nat) { FindRequest(s.db.requests, id) == Some(i) }

  /** The worker's row in hand belongs to request i. */
  predicate InHandOf(s: Sys, i: nat) {
    !s.worker.Idle? && |s.worker.rows| > 0 && Names(s, s.worker.rows[0].requestId, i)
  }

  /** The event by which request i may enter a state, and the states it may come from. */
  predicate Causes(s: Sys, e: Event, i: nat, to: RequestState)
    requires i < |s.db.requests| && Enabled(s, e)
  {
    var q := s.db.requests[i];
    match to
    case Pending => false
    case Approved =>
      && q.state in {RequestState.Pending, ReviewRequired} && e.Approve? && Names(s, e.id, i) && !NotTheirs(e.actor, q)
      && (q.externalRequestId.None? ==> !ExternalIdTaken(s.db.requests, e.newExt))
    case Rejected => q.state in {RequestState.Pending, ReviewRequired} && e.Reject? && Names(s, e.id, i) && !NotTheirs(e.actor, q)
    case Cancelled =>
      && q.state in {RequestState.Pending, Approved, ReviewRequired, HcmFailed}
      && e.Cancel? && Names(s, e.id, i) && OwnsOrAdministers(e.actor, q)
    case Consumed => q.state == Approved && e.ConsumeReply? && e.reply == Accepted && InHandOf(s, i)
    case HcmFailed => q.state == Approved && e.ConsumeReply? && e.reply == PermanentError && InHandOf(s, i)
    case ReviewRequired =>
      && q.state == Approved
      && (|| (e.Escalate? && Names(s, e.id, i))
          || (e.BalanceReply? && e.view.Some? && InHandOf(s, i) && e.view.value < s.worker.rows[0].payload.days as real))
  }

  /** A step puts a request into another state exactly when it is in a state to come from and the event may cause it. */
  lemma StateChangesIff(c: Config, s: Sys, e: Event, i: nat, to: RequestState)
    requires Aligned(s.db) && WorkerInv(s) && Enabled(s, e) && i < |s.db.requests| && to != s.db.requests[i].state
    ensures i < |Next(c, s, e).db.requests|
    ensures Next(c, s, e).db.requests[i].state == to <==> Causes(s, e, i, to)
  {
    hide EffectOf, Allowed, Causes;
    MovesIff(c, s, e, i, to);
    EffectAllowed(c, s, e);
    StateAfter(c, s.db, EffectOf(c, s, e).change, i);
  }

  /** This write set moves request i to a state. */
  predicate MovesTo(ch: Change, i: nat, to: RequestState) { ch.Move? && ch.i == i && ch.to == to }

  lemma StateAfter(c: Config, db: Db, ch: Change, i: nat)
    requires Aligned(db) && i < |db.requests|
    ensures i < |Apply(db, ch).requests|
    ensures Apply(db, ch).requests[i].state == if ch.Move? && ch.i == i then ch.to else db.requests[i].state
  {
  }

  lemma MovesIff(c: Config, s: Sys, e: Event, i: nat, to: RequestState)
    requires WorkerInv(s) && Enabled(s, e) && i < |s.db.requests| && to != s.db.requests[i].state
    ensures MovesTo(EffectOf(c, s, e).change, i, to) <==> Causes(s, e, i, to)
  {
    hide CanTransition, HoldsRows, Excused, ExternalIdTaken, CreateTx, ApproveTx, RejectTx, CancelTx, MarkTx, SnapshotTx,
         NotTheirs, OwnsOrAdministers;
    UserMoves(s.db, e, s.clock, i, to);
    if e.Escalate? {
      MarkMoves(s.db, e.id, ReviewRequired, Some(e.text), s.clock, i, to);
    } else if e.BalanceReply? {
      MarkMoves(s.db, s.worker.rows[0].requestId, ReviewRequired, Some(e.text), s.clock, i, to);
    } else if e.ConsumeReply? {
      MarkMoves(s.db, s.worker.rows[0].requestId, RequestState.Consumed, None, s.clock, i, to);
      MarkMoves(s.db, s.worker.rows[0].requestId, HcmFailed, Some(e.text), s.clock, i, to);
    }
    Edges(s.db.requests[i].state, to);
  }

  /** The lifecycle graph, told by where each edge leads. */
  lemma Edges(from: RequestState, to: RequestState)
    ensures CanTransition(from, to) <==>
            match to
            case Pending => false
            case Approved => from in {RequestState.Pending, ReviewRequired}
            case Rejected => from in {RequestState.Pending, ReviewRequired}
            case Cancelled => from in {RequestState.Pending, Approved, ReviewRequired, HcmFailed}
            case Consumed => from == Approved
            case HcmFailed => from == Approved
            case ReviewRequired => from == Approved
  {
  }

  lemma MarkMoves(db: Db, id: Id, mark: RequestState, error: Option<string>, now: Time, i: nat, to: RequestState)
    requires i < |db.requests| && to != db.requests[i].state
    ensures MovesTo(ChangeOf(MarkTx(db, id, mark, error, now)), i, to) <==>
            to == mark && FindRequest(db.requests, id) == Some(i) && CanTransition(db.requests[i].state, to)
  {
    hide Targets;
  }

  /** The moves of employees and managers; filings and snapshots move nothing. */
  lemma UserMoves(db: Db, e: Event, now: Time, i: nat, to: RequestState)
    requires i < |db.requests|
    ensures e.Post? ==> !MovesTo(ChangeOf(CreateTx(db, e.actor, e.input, e.id, e.corr, now)), i, to)
    ensures e.ApplySnapshot? ==> !MovesTo(ChangeOf(SnapshotTx(db, e.k, e.balance, e.asOf, now)), i, to)
    ensures e.Approve? ==>
              (MovesTo(ChangeOf(ApproveTx(db, e.actor, e.id, e.newExt, now)), i, to) <==>
               && to == Approved && FindRequest(db.requests, e.id) == Some(i) && CanTransition(db.requests[i].state, to)
               && !NotTheirs(e.actor, db.requests[i])
               && (db.requests[i].externalRequestId.None? ==> !ExternalIdTaken(db.requests, e.newExt)))
    ensures e.Reject? ==>
              (MovesTo(ChangeOf(RejectTx(db, e.actor, e.id, e.reason, now)), i, to) <==>
               && to == Rejected && FindRequest(db.requests, e.id) == Some(i) && CanTransition(db.requests[i].state, to)
               && !NotTheirs(e.actor, db.requests[i]))
    ensures e.Cancel? ==>
              (MovesTo(ChangeOf(CancelTx(db, e.actor, e.id, now)), i, to) <==>
               && to == Cancelled && FindRequest(db.requests, e.id) == Some(i) && CanTransition(db.requests[i].state, to)
               && OwnsOrAdministers(e.actor, db.requests[i]))
  {
    hide Targets, SumOpen, Round, ExternalIdTaken, Dates.CountDaysInclusive, AuthorizeManager, NotTheirs;
    if e.Approve? || e.Reject? { NotTheirsIsRefused(e.actor, db.requests[i]); }
  }
}
