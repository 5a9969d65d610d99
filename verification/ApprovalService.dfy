/** The pending-order table of `pa/alarms.py` and the approval handler of `daemon/handlers.py`, as methods. */
module ApprovalCalls {
  import opened Basics
  import opened OrderRules
  import opened OrderProtocol
  import opened Approval

  /** How `execute_on_accounts` ended: an error (canonical or not), or a result for the one account. */
  datatype CallOutcome = CallFailed(code: Option<ErrorCode>) | Returned(reply: Reply, rowId: string)

  /** What the handler files for the outcome. */
  function Filed(outcome: CallOutcome): (Stage, Option<string>) {
    match outcome
    case CallFailed(code) => (if code.Some? then AfterError(code.value) else ReconcileRequired, None)
    case Returned(reply, rowId) => (AfterReply(reply), ExecutedId(reply, rowId))
  }

  /** The error the handler raises for a result that is not a success. */
  function ReplyError(reply: Reply): ErrorCode {
    match reply
    case RowReply(_, report) =>
      if report.status.Expired? then OrderExpired
      else if DefiniteRejection(report.status) then OrderRejected
      else OrderReconcileRequired
    case Refusal(code) => code
    case Failure => OrderReconcileRequired
  }

  function InExecution(p: Pending, now: int): Pending {
    p.(stage := Executing, claims := p.claims + 1, startedAt := now)
  }

  /** The record once its handler is done. */
  function Handled(p: Pending, now: int, outcome: CallOutcome): Pending {
    InExecution(p, now).(stage := Filed(outcome).0, executedId := Filed(outcome).1)
  }

  /** An error that leaves open whether the order exists makes the record reconcile_required; any other rejects it. */
  predicate FailedInFull(code: ErrorCode, p: Pending) {
    p.stage == if code in {Timeout, StaleData, RateLimited, OrderUnknown, OrderReconcileRequired}
               then ReconcileRequired else Stage.Declined
  }

  /** What an outcome is filed as, in full: executed exactly for an order that is FILLED or PAPER, with the exchange's id
      when there is one and else the row's; rejected for an order that is REJECTED, CANCELED or EXPIRED and for errors
      that rule the order out; reconcile_required otherwise. */
  predicate FiledInFull(outcome: CallOutcome, p: Pending) {
    && (p.executedId.Some? ==> p.stage == Executed)
    && match outcome
       case CallFailed(None) => p.stage == ReconcileRequired
       case CallFailed(Some(code)) => FailedInFull(code, p)
       case Returned(Failure, _) => p.stage == ReconcileRequired
       case Returned(Refusal(code), _) => FailedInFull(code, p)
       case Returned(RowReply(_, report), rowId) =>
         if report.status in {Status.Filled, Paper} then
           && p.stage == Executed
           && p.executedId == if report.exchangeId != None && report.exchangeId.value != "" then report.exchangeId
                              else Some(rowId)
         else p.stage == if report.status in {Rejected, Canceled, Expired} then Stage.Declined else ReconcileRequired
  }

  /** The record after its handler: claimed once more, at this time, and filed. */
  predicate HandledInFull(p: Pending, now: int, outcome: CallOutcome, p': Pending) {
    && p'.account == p.account && p'.claims == p.claims + 1 && p'.startedAt == now
    && FiledInFull(outcome, p')
  }

  lemma HandledExactly(p: Pending, now: int, outcome: CallOutcome)
    ensures HandledInFull(p, now, outcome, Handled(p, now, outcome))
  {
  }

  /** What the handler answers: the stored id of an executed order, the error that the call raised or its result carries,
      or the code that stands for the status of the order. */
  predicate AnsweredInFull(outcome: CallOutcome, p': Pending, res: Result<Option<string>>) {
    match outcome
    case CallFailed(None) => res == Err(InternalError)
    case CallFailed(Some(code)) => res == Err(code)
    case Returned(Failure, _) => res == Err(OrderReconcileRequired)
    case Returned(Refusal(code), _) => res == Err(code)
    case Returned(RowReply(_, report), rowId) =>
      match report.status
      case Filled => res == Ok(p'.executedId)
      case Paper => res == Ok(p'.executedId)
      case Rejected => res == Err(OrderRejected)
      case Canceled => res == Err(OrderRejected)
      case Expired => res == Err(OrderExpired)
      case _ => res == Err(OrderReconcileRequired)
  }

  /** An executing record after recovery, in full: judged by the order row under its own key; without one it is given up
      after five minutes and else left as it is. */
  predicate RecoveredInFull(rows: map<Key, Row>, id: string, p: Pending, now: int, p': Pending) {
    var key := Key(p.account, "pending:" + id);
    && p' == p.(stage := p'.stage, executedId := p'.executedId)
    && if key in rows then
         var status := rows[key].report.status;
         if status in {Status.Filled, Paper} then p'.stage == Executed && p'.executedId == rows[key].report.exchangeId
         else
           && p'.executedId == None
           && p'.stage == if status in {Rejected, Canceled, Expired} then Stage.Declined else ReconcileRequired
       else if now - p.startedAt > 300 then p'.stage == ReconcileRequired && p'.executedId == None
       else p' == p
  }

  /** The record of an act's pending order before and after it, in full. */
  predicate RecordInFull(y: Sys, act: Act, p: Pending, p': Pending)
    requires act.Settled? ==> act.id in y.orders.replies
  {
    match act
    case Decline(_) => p' == Pending(p.account, Stage.Declined, None, p.claims, p.startedAt)
    case ApproveOnly(_) => p' == Pending(p.account, Approved, None, p.claims, p.startedAt)
    case Claim(_, now) => p' == Pending(p.account, Executing, p.executedId, p.claims + 1, now)
    case CallRaised(_, code) => if p.stage == Executing then Refiled(CallFailed(code), p, p') else p' == p
    case Settled(id, rowId) =>
      if p.stage == Executing then Refiled(Returned(y.orders.replies[id], rowId), p, p') else p' == p
    case Recover(id, now) => RecoveredInFull(y.orders.rows, id, p, now, p')
    case _ => p' == p
  }

  predicate Refiled(outcome: CallOutcome, p: Pending, p': Pending) {
    p'.account == p.account && p'.claims == p.claims && p'.startedAt == p.startedAt && FiledInFull(outcome, p')
  }

  /** What every act of a run does to the records: it raises a new one that awaits approval, or moves its own as the
      methods do; the acts of the order path and of other records leave it alone. */
  lemma ActsExactly(y: Sys, act: Act, id: string)
    requires Coherent(y.orders) && Can(y, act) && id in Do(y, act).pending
    ensures id in y.pending ==>
              if act.Order? || act.id != id then Do(y, act).pending[id] == y.pending[id]
              else RecordInFull(y, act, y.pending[id], Do(y, act).pending[id])
    ensures id !in y.pending ==> act.Raise? && act.id == id
                                 && Do(y, act).pending[id] == Pending(act.account, Awaiting, None, 0, 0)
  {
  }

  datatype Recovery = Recovery(scanned: nat, completed: nat, failed: nat, untouched: nat)

  function Tally(r: Recovery, done: Option<bool>): Recovery {
    if done.None? then r.(scanned := r.scanned + 1, untouched := r.untouched + 1)
    else if done.value then r.(scanned := r.scanned + 1, completed := r.completed + 1)
    else r.(scanned := r.scanned + 1, failed := r.failed + 1)
  }

  function ExecutingIds(pending: map<string, Pending>): set<string> {
    set id | id in pending && pending[id].stage.Executing?
  }

  function RecoveredRecord(rows: map<Key, Row>, id: string, p: Pending, now: int): Pending {
    var to := RecoverTo(rows, id, p, now);
    p.(stage := to.0, executedId := to.1)
  }

  /** The table once the records of `ids` are recovered. */
  function Recovered(pending: map<string, Pending>, ids: set<string>, rows: map<Key, Row>, now: int): map<string, Pending> {
    map id | id in pending ::
      if id in ids then RecoveredRecord(rows, id, pending[id], now) else pending[id]
  }

  lemma RecoveredOneMore(pending: map<string, Pending>, ids: set<string>, rows: map<Key, Row>, now: int, id: string)
    requires id in pending && id !in ids
    ensures Recovered(pending, ids, rows, now)[id := RecoveredRecord(rows, id, pending[id], now)]
         == Recovered(pending, ids + {id}, rows, now)
  {
  }

  /** What recovery reports about one record: completed, failed, or left alone as too recent. */
  function RecoveryDone(rows: map<Key, Row>, id: string, p: Pending, now: int): Option<bool> {
    match RecoverTo(rows, id, p, now).0
    case Executed => Some(true)
    case Executing => None
    case _ => Some(false)
  }

  /** The records of `ids` that recovery reports so. */
  function DoneIds(pending: map<string, Pending>, ids: set<string>, rows: map<Key, Row>, now: int,
                   done: Option<bool>): set<string>
    requires ids <= pending.Keys
  {
    set id | id in ids && RecoveryDone(rows, id, pending[id], now) == done
  }

  /** Each count of the summary is the number of records it names. */
  ghost predicate Tallied(pending: map<string, Pending>, ids: set<string>, rows: map<Key, Row>, now: int, r: Recovery) {
    && ids <= pending.Keys
    && r.scanned == |ids| == r.completed + r.failed + r.untouched
    && r.completed == |DoneIds(pending, ids, rows, now, Some(true))|
    && r.failed == |DoneIds(pending, ids, rows, now, Some(false))|
    && r.untouched == |DoneIds(pending, ids, rows, now, None)|
  }

  lemma DoneGrows(pending: map<string, Pending>, ids: set<string>, rows: map<Key, Row>, now: int, id: string,
                  done: Option<bool>)
    requires ids <= pending.Keys && id in pending && id !in ids
    ensures |DoneIds(pending, ids + {id}, rows, now, done)|
         == |DoneIds(pending, ids, rows, now, done)|
            + if RecoveryDone(rows, id, pending[id], now) == done then 1 else 0
  {
    var before := DoneIds(pending, ids, rows, now, done);
    if RecoveryDone(rows, id, pending[id], now) == done {
      assert DoneIds(pending, ids + {id}, rows, now, done) == before + {id};
    } else {
      assert DoneIds(pending, ids + {id}, rows, now, done) == before;
    }
  }

  lemma TallyGrows(pending: map<string, Pending>, ids: set<string>, rows: map<Key, Row>, now: int, r: Recovery,
                   id: string)
    requires Tallied(pending, ids, rows, now, r) && id in pending && id !in ids
    ensures Tallied(pending, ids + {id}, rows, now, Tally(r, RecoveryDone(rows, id, pending[id], now)))
  {
    DoneGrows(pending, ids, rows, now, id, Some(true));
    DoneGrows(pending, ids, rows, now, id, Some(false));
    DoneGrows(pending, ids, rows, now, id, None);
  }

  lemma NothingTallied(pending: map<string, Pending>, rows: map<Key, Row>, now: int)
    ensures Recovered(pending, {}, rows, now) == pending
    ensures Tallied(pending, {}, rows, now, Recovery(0, 0, 0, 0))
  {
  }

  lemma OneMoreRecord(pending: map<string, Pending>, ids: set<string>, rows: map<Key, Row>, now: int, r: Recovery,
                      id: string)
    requires Tallied(pending, ids, rows, now, r) && id in pending && id !in ids
    ensures Recovered(pending, ids, rows, now)[id := RecoveredRecord(rows, id, pending[id], now)]
         == Recovered(pending, ids + {id}, rows, now)
    ensures Tallied(pending, ids + {id}, rows, now, Tally(r, RecoveryDone(rows, id, pending[id], now)))
    ensures Recovered(pending, ids, rows, now)[id] == pending[id]
  {
    RecoveredOneMore(pending, ids, rows, now, id);
    TallyGrows(pending, ids, rows, now, r, id);
  }

  lemma RecoveredExactly(rows: map<Key, Row>, id: string, p: Pending, now: int)
    ensures RecoveredInFull(rows, id, p, now, RecoveredRecord(rows, id, p, now))
  {
  }

  /** The whole recovery, in full: every executing record is judged, no other changes, and each count is the number of
      executing records that ended so. */
  ghost predicate RecoveryInFull(pending: map<string, Pending>, rows: map<Key, Row>, now: int,
                                 pending': map<string, Pending>, sum: Recovery) {
    && pending'.Keys == pending.Keys
    && (forall id | id in pending ::
          if pending[id].stage == Executing then RecoveredInFull(rows, id, pending[id], now, pending'[id])
          else pending'[id] == pending[id])
    && sum.scanned == |EndedIn(pending, pending', {Executed, Stage.Declined, ReconcileRequired, Executing})|
    && sum.completed == |EndedIn(pending, pending', {Executed})|
    && sum.failed == |EndedIn(pending, pending', {Stage.Declined, ReconcileRequired})|
    && sum.untouched == |EndedIn(pending, pending', {Executing})|
  }

  /** The executing records that recovery leaves in one of these stages. */
  function EndedIn(pending: map<string, Pending>, pending': map<string, Pending>, stages: set<Stage>): set<string> {
    set id | id in pending && pending[id].stage == Executing && id in pending' && pending'[id].stage in stages
  }

  lemma DoneExactly(pending: map<string, Pending>, rows: map<Key, Row>, now: int, done: Option<bool>, stages: set<Stage>)
    requires stages == if done.None? then {Executing} else if done.value then {Executed}
                       else {Stage.Declined, ReconcileRequired}
    ensures var ids := ExecutingIds(pending);
            DoneIds(pending, ids, rows, now, done) == EndedIn(pending, Recovered(pending, ids, rows, now), stages)
  {
    var ids := ExecutingIds(pending);
    forall id | id in ids
      ensures RecoveryDone(rows, id, pending[id], now) == done
         <==> RecoveredRecord(rows, id, pending[id], now).stage in stages
    {
    }
  }

  lemma RecoveryExactly(pending: map<string, Pending>, rows: map<Key, Row>, now: int, sum: Recovery)
    requires Tallied(pending, ExecutingIds(pending), rows, now, sum)
    ensures RecoveryInFull(pending, rows, now, Recovered(pending, ExecutingIds(pending), rows, now), sum)
  {
    var ids := ExecutingIds(pending);
    var pending' := Recovered(pending, ids, rows, now);
    forall id | id in ids ensures RecoveredInFull(rows, id, pending[id], now, pending'[id]) {
      RecoveredExactly(rows, id, pending[id], now);
    }
    DoneExactly(pending, rows, now, Some(true), {Executed});
    DoneExactly(pending, rows, now, Some(false), {Stage.Declined, ReconcileRequired});
    DoneExactly(pending, rows, now, None, {Executing});
    AllEnd(pending, rows, now);
  }

  lemma AllEnd(pending: map<string, Pending>, rows: map<Key, Row>, now: int)
    ensures var ids := ExecutingIds(pending);
            EndedIn(pending, Recovered(pending, ids, rows, now),
                    {Executed, Stage.Declined, ReconcileRequired, Executing}) == ids
  {
  }

  class AlarmService {
    var pending: map<string, Pending>

    constructor ()
      ensures pending == map[]
    {
      pending := map[];
    }

    /** The compare-and-set behind every transition: only a record at `from` moves. */
    method Transition(id: string, from: Stage, to: Pending -> Pending) returns (res: Result<Pending>)
      modifies this
      ensures id !in old(pending) ==> res == Err(NotFound) && pending == old(pending)
      ensures id in old(pending) && old(pending)[id].stage != from ==> res == Err(InvalidRequest) && pending == old(pending)
      ensures id in old(pending) && old(pending)[id].stage == from ==>
                res == Ok(to(old(pending)[id])) && pending == old(pending)[id := to(old(pending)[id])]
    {
      if id !in pending {
        return Err(NotFound);
      }
      if pending[id].stage != from {
        return Err(InvalidRequest);
      }
      pending := pending[id := to(pending[id])];
      res := Ok(pending[id]);
    }

    method RejectPendingOrder(id: string) returns (res: Result<Pending>)
      modifies this
      ensures if id in old(pending) && old(pending)[id].stage == Awaiting
              then res.Ok? && pending == old(pending)[id := old(pending)[id].(stage := Stage.Declined)]
              else res.Err? && pending == old(pending)
    {
      res := Transition(id, Awaiting, (p: Pending) => p.(stage := Stage.Declined));
    }

    /** Both transitions of the claim commit together. */
    method ApproveAndClaim(id: string, now: int) returns (res: Result<Pending>)
      modifies this
      ensures if id in old(pending) && old(pending)[id].stage == Awaiting
              then res.Ok? && pending == old(pending)[id := InExecution(old(pending)[id], now)]
              else res == Err(if id in old(pending) then InvalidRequest else NotFound) && pending == old(pending)
    {
      res := Transition(id, Awaiting, (p: Pending) => InExecution(p, now));
    }

    method CompletePendingExecution(id: string, executedId: Option<string>) returns (res: Result<Pending>)
      modifies this
      ensures if id in old(pending) && old(pending)[id].stage == Executing
              then res.Ok? && pending == old(pending)[id := old(pending)[id].(stage := Executed, executedId := executedId)]
              else res.Err? && pending == old(pending)
    {
      res := Transition(id, Executing, (p: Pending) => p.(stage := Executed, executedId := executedId));
    }

    method FailPendingExecution(id: string, to: Stage) returns (res: Result<Pending>)
      requires to.Declined? || to.ReconcileRequired?
      modifies this
      ensures if id in old(pending) && old(pending)[id].stage == Executing
              then res.Ok? && pending == old(pending)[id := old(pending)[id].(stage := to)]
              else res.Err? && pending == old(pending)
    {
      res := Transition(id, Executing, (p: Pending) => p.(stage := to));
    }

    /** One record; `None` when it is too recent to judge, else whether it is completed. */
    method RecoverOne(id: string, rows: map<Key, Row>, now: int) returns (done: Option<bool>)
      requires id in pending && pending[id].stage.Executing? && pending[id].executedId.None?
      modifies this
      ensures pending == old(pending)[id := RecoveredRecord(rows, id, old(pending)[id], now)]
      ensures done == RecoveryDone(rows, id, old(pending)[id], now)
    {
      var p := pending[id];
      var key := PendingKey(p.account, id);
      if key in rows {
        var report := rows[key].report;
        if DefiniteSuccess(report.status) {
          var _ := CompletePendingExecution(id, report.exchangeId);
          return Some(true);
        }
        var _ := FailPendingExecution(id, if DefiniteRejection(report.status) then Stage.Declined else ReconcileRequired);
        return Some(false);
      }
      if now - p.startedAt > STALE_AFTER_SECONDS {
        var _ := FailPendingExecution(id, ReconcileRequired);
        return Some(false);
      }
      return None;
    }

    /** Every record left executing is judged by the order row under its own key. */
    method ReconcilePendingExecutions(rows: map<Key, Row>, now: int) returns (sum: Recovery)
      requires forall id | id in pending && pending[id].stage.Executing? :: pending[id].executedId.None?
      modifies this
      ensures pending == Recovered(old(pending), ExecutingIds(old(pending)), rows, now)
      ensures Tallied(old(pending), ExecutingIds(old(pending)), rows, now, sum)
      ensures RecoveryInFull(old(pending), rows, now, pending, sum)
    {
      ghost var before := pending;
      ghost var handled: set<string> := {};
      var left := ExecutingIds(pending);
      sum := Recovery(0, 0, 0, 0);
      NothingTallied(pending, rows, now);
      while left != {}
        invariant left !! handled && left + handled == ExecutingIds(before)
        invariant pending == Recovered(before, handled, rows, now)
        invariant Tallied(before, handled, rows, now, sum)
        decreases |left|
      {
        var id :| id in left;
        OneMoreRecord(before, handled, rows, now, sum, id);
        var done := RecoverOne(id, rows, now);
        sum := Tally(sum, done);
        left, handled := left - {id}, handled + {id};
      }
      assert handled == ExecutingIds(before);
      RecoveryExactly(before, rows, now, sum);
    }

    /** `approve_pending_order_handler`. `seen` is the record as read before the claim and may be out of date by then;
        `preflight` is what the checks before the claim found. */
    method ApproveHandler(id: string, seen: Option<Pending>, preflight: Option<ErrorCode>, now: int, outcome: CallOutcome)
      returns (res: Result<Option<string>>)
      requires forall p | p in pending && pending[p].stage.Awaiting? :: pending[p].executedId.None?
      requires outcome.Returned? ==> outcome.rowId != ""
      modifies this
      ensures !Claimable(old(pending), id, seen, preflight) ==> res.Err? && pending == old(pending)
      ensures Claimable(old(pending), id, seen, preflight) ==>
                && pending == old(pending)[id := Handled(old(pending)[id], now, outcome)]
                && (res.Ok? <==> Filed(outcome).0 == Executed)
                && (res.Ok? ==> res.value == Filed(outcome).1 && res.value.Some?)
      ensures if seen.None? then res == Err(NotFound) && pending == old(pending)
              else if seen.value.stage != Awaiting then res == Err(InvalidRequest) && pending == old(pending)
              else if preflight.Some? then res == Err(preflight.value) && pending == old(pending)
              else if id !in old(pending) then res == Err(NotFound) && pending == old(pending)
              else if old(pending)[id].stage != Awaiting then res == Err(InvalidRequest) && pending == old(pending)
              else
                && pending.Keys == old(pending).Keys
                && (forall other | other in pending && other != id :: pending[other] == old(pending)[other])
                && HandledInFull(old(pending)[id], now, outcome, pending[id])
                && AnsweredInFull(outcome, pending[id], res)
    {
      if seen.None? {
        return Err(NotFound);
      }
      if seen.value.stage != Awaiting {
        return Err(InvalidRequest);
      }
      if preflight.Some? {
        return Err(preflight.value);
      }
      var claim := ApproveAndClaim(id, now);
      if claim.Err? {
        return Err(claim.error);
      }
      match outcome
      case CallFailed(code) =>
        var _ := FailPendingExecution(id, if code.Some? then AfterError(code.value) else ReconcileRequired);
        return Err(if code.Some? then code.value else InternalError);
      case Returned(reply, rowId) =>
        var stage := AfterReply(reply);
        if stage == Executed {
          var executedId := ExecutedId(reply, rowId);
          var _ := CompletePendingExecution(id, executedId);
          return Ok(executedId);
        }
        var _ := FailPendingExecution(id, stage);
        return Err(ReplyError(reply));
    }
  }

  /** The checks pass on the record as it was read, and it is still awaiting approval when it is claimed. */
  predicate Claimable(pending: map<string, Pending>, id: string, seen: Option<Pending>, preflight: Option<ErrorCode>) {
    && seen.Some? && seen.value.stage == Awaiting && preflight.None?
    && id in pending && pending[id].stage == Awaiting
  }
}
