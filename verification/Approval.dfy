/** The approval path of `pa/alarms.py` and `daemon/handlers.py`, composed with the order protocol: pending orders,
    the compare-and-set claim, the handler's call, and recovery after a restart. */
module Approval {
  import opened Basics
  import opened OrderRules
  import opened OrderProtocol

  datatype Stage = Awaiting | Approved | Executing | Executed | Declined | ReconcileRequired

  /** `claims` counts how often the record was claimed for execution; `startedAt` is the time of the claim. */
  datatype Pending = Pending(
    account: string,
    stage: Stage,
    executedId: Option<string>,
    claims: nat,
    startedAt: int)

  /** Live handlers: false after the claim, true once `execute_on_accounts` was entered. */
  datatype Sys = Sys(orders: State, pending: map<string, Pending>, handlers: map<string, bool>)

  const START := Sys(INIT, map[], map[])

  const PENDING_PREFIX := "pending:"
  const STALE_AFTER_SECONDS := 300

  /** The idempotency key of a pending order's one execution. */
  function PendingKey(account: string, id: string): Key {
    Key(account, PENDING_PREFIX + id)
  }

  function KeyFor(y: Sys, id: string): Key
    requires id in y.pending
  {
    PendingKey(y.pending[id].account, id)
  }

  // ---------- classification ----------

  /** `_PENDING_TRANSIENT_ERRORS`. */
  predicate Transient(code: ErrorCode) {
    code.Timeout? || code.StaleData? || code.RateLimited? || code.OrderUnknown? || code.OrderReconcileRequired?
  }

  /** `_PENDING_DEFINITE_SUCCESS`. */
  predicate DefiniteSuccess(s: Status) {
    s.Filled? || s.Paper?
  }

  /** `_PENDING_DEFINITE_REJECTED`. */
  predicate DefiniteRejection(s: Status) {
    s.Rejected? || s.Canceled? || s.Expired?
  }

  function AfterError(code: ErrorCode): Stage {
    if Transient(code) then ReconcileRequired else Declined
  }

  /** How `approve_pending_order_handler` files the result of its call. */
  function AfterReply(reply: Reply): Stage {
    match reply
    case RowReply(_, report) =>
      if DefiniteSuccess(report.status) then Executed
      else if DefiniteRejection(report.status) then AfterError(if report.status.Expired? then OrderExpired else OrderRejected)
      else ReconcileRequired
    case Refusal(code) => AfterError(code)
    case Failure => ReconcileRequired
  }

  /** `exchange_order_id or order_id`: the exchange's id, or the row's own. */
  function ExecutedId(reply: Reply, rowId: string): Option<string> {
    if AfterReply(reply) != Executed then None
    else if reply.report.exchangeId.Some? && reply.report.exchangeId.value != "" then reply.report.exchangeId
    else Some(rowId)
  }

  /** `reconcile_pending_executions` for one record; the second part is the id it stores. */
  function RecoverTo(rows: map<Key, Row>, id: string, p: Pending, now: int): (Stage, Option<string>) {
    var key := PendingKey(p.account, id);
    if key in rows then
      var report := rows[key].report;
      if DefiniteSuccess(report.status) then (Executed, report.exchangeId)
      else if DefiniteRejection(report.status) then (Declined, None)
      else (ReconcileRequired, None)
    else if now - p.startedAt > STALE_AFTER_SECONDS then (ReconcileRequired, None)
    else (p.stage, p.executedId)
  }

  function AfterRestart(y: Sys, id: string, now: int): (Stage, Option<string>)
    requires id in y.pending
  {
    RecoverTo(y.orders.rows, id, y.pending[id], now)
  }

  // ---------- steps ----------

  datatype Act =
    | Raise(id: string, account: string)
    | Decline(id: string)
    | ApproveOnly(id: string)
    | Claim(id: string, now: int)
    | Call(id: string, draft: Draft)
    | CallAgain(id: string, isReal: bool)
    | CallRaised(id: string, code: Option<ErrorCode>)
    | Settled(id: string, rowId: string)
    | Vanish(id: string)
    | Recover(id: string, now: int)
    | Order(step: Step)

  predicate AtStage(y: Sys, id: string, stage: Stage) {
    id in y.pending && y.pending[id].stage == stage
  }

  predicate Claimed(y: Sys, id: string) {
    id in y.handlers && !y.handlers[id]
  }

  /** Calls from outside have no pending order to report to. */
  predicate Outside(step: Step) {
    && (step.Begin? ==> step.caller.None?)
    && (step.BeginExisting? ==> step.caller.None?)
  }

  predicate Can(y: Sys, act: Act) {
    match act
    case Raise(id, _) => id !in y.pending
    case Decline(id) => AtStage(y, id, Awaiting)
    case ApproveOnly(id) => AtStage(y, id, Awaiting)
    case Claim(id, _) => AtStage(y, id, Awaiting) && y.orders.serving
    case Call(id, d) =>
      Claimed(y, id) && id in y.pending && d.key == KeyFor(y, id) && Enabled(y.orders, Begin(d, Some(id)))
    case CallAgain(id, isReal) =>
      Claimed(y, id) && id in y.pending && Enabled(y.orders, BeginExisting(KeyFor(y, id), isReal, Some(id)))
    case CallRaised(id, _) => Claimed(y, id) && id in y.pending
    case Settled(id, rowId) =>
      id in y.handlers && y.handlers[id] && id in y.pending && id in y.orders.replies && rowId != ""
    case Vanish(id) => id in y.handlers && forall a | a in y.orders.holds :: y.orders.holds[a].caller != Some(id)
    case Recover(id, _) => AtStage(y, id, Executing) && !y.orders.serving && y.orders.fixup.None?
    case Order(step) => Outside(step) && Enabled(y.orders, step)
  }

  function Move(y: Sys, id: string, stage: Stage, executedId: Option<string>): Sys
    requires id in y.pending
  {
    y.(pending := y.pending[id := y.pending[id].(stage := stage, executedId := executedId)])
  }

  /** `complete_pending_execution` and `fail_pending_execution` guard on `executing`. */
  function MoveIfExecuting(y: Sys, id: string, stage: Stage, executedId: Option<string>): Sys
    requires id in y.pending
  {
    if y.pending[id].stage.Executing? then Move(y, id, stage, executedId) else y
  }

  ghost function Do(y: Sys, act: Act): Sys
    requires Coherent(y.orders) && Can(y, act)
  {
    match act
    case Raise(id, account) => y.(pending := y.pending[id := Pending(account, Awaiting, None, 0, 0)])
    case Decline(id) => Move(y, id, Stage.Declined, None)
    case ApproveOnly(id) => Move(y, id, Approved, None)
    case Claim(id, now) =>
      var p := y.pending[id];
      y.(pending := y.pending[id := p.(stage := Executing, claims := p.claims + 1, startedAt := now)],
         handlers := y.handlers[id := false])
    case Call(id, d) => y.(orders := Apply(y.orders, Begin(d, Some(id))), handlers := y.handlers[id := true])
    case CallAgain(id, isReal) =>
      y.(orders := Apply(y.orders, BeginExisting(KeyFor(y, id), isReal, Some(id))), handlers := y.handlers[id := true])
    case CallRaised(id, code) =>
      MoveIfExecuting(y, id, if code.Some? then AfterError(code.value) else ReconcileRequired, None)
        .(handlers := y.handlers - {id})
    case Settled(id, rowId) =>
      var reply := y.orders.replies[id];
      MoveIfExecuting(y, id, AfterReply(reply), ExecutedId(reply, rowId))
        .(handlers := y.handlers - {id}, orders := y.orders.(replies := y.orders.replies - {id}))
    case Vanish(id) => y.(handlers := y.handlers - {id})
    case Recover(id, now) => Move(y, id, AfterRestart(y, id, now).0, AfterRestart(y, id, now).1)
    case Order(step) => y.(orders := Apply(y.orders, step), handlers := if step.Crash? then map[] else y.handlers)
  }

  ghost predicate Possible(y: Sys, acts: seq<Act>)
    decreases |acts|
  {
    Coherent(y.orders) && (acts == [] || (Can(y, acts[0]) && Possible(Do(y, acts[0]), acts[1..])))
  }

  ghost function After(y: Sys, acts: seq<Act>): (r: Sys)
    requires Possible(y, acts)
    ensures Coherent(r.orders)
    decreases |acts|
  {
    if acts == [] then y else After(Do(y, acts[0]), acts[1..])
  }

  lemma CoherentAct(y: Sys, act: Act)
    requires Coherent(y.orders) && Can(y, act)
    ensures Coherent(Do(y, act).orders)
  {
    match act
    case Call(id, d) => CoherentStep(y.orders, Begin(d, Some(id)));
    case CallAgain(id, isReal) => CoherentStep(y.orders, BeginExisting(KeyFor(y, id), isReal, Some(id)));
    case Order(step) => CoherentStep(y.orders, step);
    case Settled(id, _) =>
      var s' := Do(y, act).orders;
      forall a | a in s'.holds ensures TaskCoherent(s', a, s'.holds[a].task) {
        assert TaskCoherent(y.orders, a, y.orders.holds[a].task);
      }
    case _ =>
  }

  /** The act belongs to the approval path, to a lock holder or to the exchange; nobody calls from outside. */
  predicate Own(act: Act) {
    act.Order? ==> act.step.Prepare? || act.step.Settle? || act.step.Abort? || act.step.Finish?
  }

  ghost predicate Yields(y: Sys, acts: seq<Act>, own: bool, y': Sys) {
    Possible(y, acts) && After(y, acts) == y' && (own ==> forall i | 0 <= i < |acts| :: Own(acts[i]))
  }

  /** Some run of the approval path, or with `own` some run of its own acts, leads from `y` to `y'`. */
  ghost predicate Attains(y: Sys, own: bool, y': Sys) {
    exists acts :: Yields(y, acts, own, y')
  }

  lemma AttainsSelf(y: Sys, own: bool)
    requires Coherent(y.orders)
    ensures Attains(y, own, y)
  {
    assert Yields(y, [], own, y);
  }

  lemma {:induction false} OneMoreAct(y: Sys, acts: seq<Act>, act: Act)
    requires Possible(y, acts) && Can(After(y, acts), act)
    ensures Possible(y, acts + [act]) && After(y, acts + [act]) == Do(After(y, acts), act)
    decreases |acts|
  {
    if acts == [] {
      CoherentAct(y, act);
      assert [act][1..] == [];
      assert Possible(Do(y, act), []);
    } else {
      assert (acts + [act])[1..] == acts[1..] + [act];
      OneMoreAct(Do(y, acts[0]), acts[1..], act);
    }
  }

  lemma Attain(y0: Sys, own: bool, y: Sys, act: Act)
    requires Attains(y0, own, y) && Coherent(y.orders) && Can(y, act) && (own ==> Own(act))
    ensures Attains(y0, own, Do(y, act)) && Coherent(Do(y, act).orders)
  {
    CoherentAct(y, act);
    var acts :| Yields(y0, acts, own, y);
    OneMoreAct(y0, acts, act);
    assert Yields(y0, acts + [act], own, Do(y, act));
  }

  // ---------- how order steps touch callers ----------

  /** A lock served for a pending order was taken for it, on the same key, and an unrecorded one still is. */
  lemma CallerKept(s: State, step: Step, a: string)
    requires Coherent(s) && Enabled(s, step) && Outside(step)
    requires a in Apply(s, step).holds && Apply(s, step).holds[a].caller.Some?
    ensures a in s.holds && s.holds[a].caller == Apply(s, step).holds[a].caller
    ensures KeyOf(Apply(s, step).holds[a].task) == KeyOf(s.holds[a].task)
    ensures HasRow(s.holds[a].task) ==> HasRow(Apply(s, step).holds[a].task)
  {
    if Actor(step) == Some(a) {
      match step
      case Prepare(_, p) => PrepKeepsCaller(s, a, p);
      case Settle(_, deal) =>
        assert TaskCoherent(s, a, s.holds[a].task);
        DealKeepsCaller(s, a, deal);
      case _ =>
    } else {
      HoldKept(s, step, a);
    }
  }

  lemma PrepKeepsCaller(s: State, a: string, p: Prep)
    requires PrepEnabled(s, a, p) && a in ApplyPrep(s, a, p).holds
    ensures var h := s.holds[a]; var h' := ApplyPrep(s, a, p).holds[a];
            h'.caller == h.caller && KeyOf(h'.task) == KeyOf(h.task) && !HasRow(h.task)
  {
  }

  lemma DealKeepsCaller(s: State, a: string, deal: Deal)
    requires DealEnabled(s, a, deal) && s.holds[a].task.key in s.rows && a in ApplyDeal(s, a, deal).holds
    ensures var h := s.holds[a]; var h' := ApplyDeal(s, a, deal).holds[a];
            h'.caller == h.caller && KeyOf(h'.task) == KeyOf(h.task) && HasRow(h'.task)
  {
  }

  /** What an order step may put into a handler's mailbox: the stored state of the row the lock worked on, or a
      refusal that recorded nothing. */
  predicate FairReply(s: State, s': State, a: string, reply: Reply) {
    && a in s.holds && a !in s'.holds
    && match reply
       case RowReply(k, report) => k == KeyOf(s.holds[a].task) && k in s'.rows && s'.rows[k].report == report
       case Refusal(_) => !HasRow(s.holds[a].task) && s'.rows == s.rows
       case Failure => true
  }

  predicate Delivers(s: State, s': State, a: string) {
    || s'.replies == s.replies
    || (a in s.holds && s.holds[a].caller.Some?
        && s.holds[a].caller.value in s'.replies
        && s'.replies == s.replies[s.holds[a].caller.value := s'.replies[s.holds[a].caller.value]]
        && FairReply(s, s', a, s'.replies[s.holds[a].caller.value]))
  }

  lemma PrepDelivers(s: State, a: string, p: Prep)
    requires PrepEnabled(s, a, p)
    ensures Delivers(s, ApplyPrep(s, a, p), a)
  {
  }

  lemma DealDelivers(s: State, a: string, deal: Deal)
    requires DealEnabled(s, a, deal) && s.holds[a].task.key in s.rows
    ensures Delivers(s, ApplyDeal(s, a, deal), a)
  {
  }

  lemma RepliesOfStep(s: State, step: Step)
    requires Coherent(s) && Enabled(s, step) && Outside(step) && !step.Crash?
    ensures Apply(s, step).replies == s.replies
         || (Actor(step).Some? && Delivers(s, Apply(s, step), Actor(step).value))
  {
    match step
    case Prepare(a, p) => PrepDelivers(s, a, p);
    case Settle(a, deal) =>
      assert TaskCoherent(s, a, s.holds[a].task);
      DealDelivers(s, a, deal);
    case _ =>
  }
}
