/** The approval handler and the restart recovery are runs of the approval state machine, and keep what such runs keep. */
module ApprovalRuns {
  import opened Basics
  import opened RiskRules
  import opened OrderRules
  import opened OrderProtocol
  import opened OrderSafety
  import opened OrderTruth
  import opened OrderExposure
  import opened OrderReach
  import opened OrderCalls
  import opened OrderRuns
  import opened Approval
  import opened ApprovalSafety
  import opened ApprovalCalls

  /** The kinds of steps that are made under a lock, or by the exchange. */
  const HOLDER: Kinds := {Moving, Spending, LyingMove, Finishing}

  lemma HolderIsOwn(s: State, step: Step)
    requires Enabled(s, step) && KindOf(s, step) in HOLDER
    ensures Own(Order(step)) && Outside(step)
  {
  }

  /** The work of a lock holder is made of the approval path's own acts. */
  lemma {:induction false} WorkIsActs(y0: Sys, y: Sys, steps: seq<Step>, ks: Kinds, s': State)
    requires Attains(y0, true, y) && Leads(y.orders, steps, ks, s') && ks <= HOLDER
    ensures Attains(y0, true, y.(orders := s'))
    decreases |steps|
  {
    if steps == [] {
      assert y.(orders := s') == y;
    } else {
      HolderIsOwn(y.orders, steps[0]);
      Attain(y0, true, y, Order(steps[0]));
      var y1 := Do(y, Order(steps[0]));
      assert y1 == y.(orders := Apply(y.orders, steps[0]));
      WorkIsActs(y0, y1, steps[1..], ks, s');
    }
  }

  /** The act by which a handler enters `execute_on_accounts`. */
  function CallAct(y: Sys, id: string, d: Draft): Act {
    if d.key in y.orders.rows then CallAgain(id, d.isReal) else Call(id, d)
  }

  lemma ClaimIsItsAct(y: Sys, id: string, now: int) returns (y': Sys)
    requires Coherent(y.orders) && y.orders.serving && AtStage(y, id, Awaiting)
    ensures Attains(y, true, y') && Claimed(y', id) && y'.orders == y.orders
    ensures y'.pending == y.pending[id := InExecution(y.pending[id], now)]
  {
    AttainsSelf(y, true);
    Attain(y, true, y, Claim(id, now));
    y' := Do(y, Claim(id, now));
  }

  /** A call that raises is filed at once. */
  lemma RaisingIsItsAct(y0: Sys, y: Sys, id: string, code: Option<ErrorCode>) returns (y': Sys)
    requires Attains(y0, true, y) && Coherent(y.orders) && Claimed(y, id) && AtStage(y, id, Executing)
    ensures var filed := Filed(CallFailed(code));
            y'.pending == y.pending[id := y.pending[id].(stage := filed.0, executedId := filed.1)]
    ensures Attains(y0, true, y') && id !in y'.handlers && y'.orders == y.orders
  {
    Attain(y0, true, y, CallRaised(id, code));
    y' := Do(y, CallRaised(id, code));
  }

  lemma EnteringIsItsAct(y0: Sys, y: Sys, id: string, d: Draft) returns (y': Sys)
    requires Attains(y0, true, y) && Coherent(y.orders) && Claimed(y, id) && id in y.pending
    requires d.key == KeyFor(y, id) && Doable(d) && Free(y.orders, d.key.account)
    ensures Attains(y0, true, y') && y'.pending == y.pending && y'.handlers == y.handlers[id := true]
    ensures y'.orders == Apply(y.orders, OpeningStep(y.orders, d, Some(id)))
  {
    Attain(y0, true, y, CallAct(y, id, d));
    y' := Do(y, CallAct(y, id, d));
  }

  lemma ReplyIsItsActs(y0: Sys, y: Sys, ks: Kinds, s': State) returns (y': Sys)
    requires Attains(y0, true, y) && Reaches(y.orders, ks, s') && ks <= HOLDER
    ensures Attains(y0, true, y') && y' == y.(orders := s')
  {
    var steps :| Leads(y.orders, steps, ks, s');
    WorkIsActs(y0, y, steps, ks, s');
    y' := y.(orders := s');
  }

  /** The call of a claimed record runs to its reply. */
  lemma CallIsItsActs(y0: Sys, y: Sys, id: string, d: Draft, w: World, rows': map<Key, Row>, r': Risk, reply: Reply)
      returns (y': Sys)
    requires Attains(y0, true, y) && Coherent(y.orders) && SentInv(y.orders) && Claimed(y, id) && id in y.pending
    requires d.key == KeyFor(y, id) && Doable(d) && Free(y.orders, d.key.account) && WorldFits(y.orders, d, w, Some(id))
    requires ExecuteOutcome(y.orders.rows, y.orders.risk, d, w, rows', r', reply)
    ensures Attains(y0, true, y') && y'.pending == y.pending && y'.handlers == y.handlers[id := true]
    ensures CallEnds(y.orders, y'.orders, rows', r', Some(id), reply)
    ensures Opens(y.orders, OpeningStep(y.orders, d, Some(id)), CallKinds(y.orders, d, w, rows', r'), y'.orders)
    ensures y'.orders.fates == CallFates(y.orders, d, w, rows')
  {
    var s' := ExecuteIsARun(y.orders, d, w, Some(id), rows', r', reply);
    var ks := CallKinds(y.orders, d, w, rows', r');
    var y1 := EnteringIsItsAct(y0, y, id, d);
    y' := ReplyIsItsActs(y0, y1, ks, s');
  }

  lemma AttainedCoherent(y: Sys, own: bool, y': Sys)
    requires Attains(y, own, y')
    ensures Coherent(y'.orders)
  {
    var acts :| Yields(y, acts, own, y');
  }

  /** A delivered reply is filed, and the handler is done. */
  lemma FilingIsItsAct(y0: Sys, y: Sys, id: string, reply: Reply, rowId: string) returns (y': Sys)
    requires Attains(y0, true, y) && id in y.handlers && y.handlers[id] && AtStage(y, id, Executing) && rowId != ""
    requires id in y.orders.replies && y.orders.replies[id] == reply
    ensures var filed := Filed(Returned(reply, rowId));
            y'.pending == y.pending[id := y.pending[id].(stage := filed.0, executedId := filed.1)]
    ensures Attains(y0, true, y') && id !in y'.handlers
    ensures y'.orders == y.orders.(replies := y.orders.replies - {id})
  {
    AttainedCoherent(y0, true, y);
    Attain(y0, true, y, Settled(id, rowId));
    y' := Do(y, Settled(id, rowId));
  }

  /** What a handler's call does to the order side: nothing when it fails before any account is tried, else one order
      call under the record's own key. */
  ghost predicate CallFits(s: State, key: Key, id: string, outcome: CallOutcome, d: Draft, w: World,
                           rows': map<Key, Row>, r': Risk) {
    match outcome
    case CallFailed(_) => rows' == s.rows && r' == s.risk
    case Returned(reply, rowId) =>
      && rowId != "" && d.key == key && Doable(d) && Free(s, key.account) && WorldFits(s, d, w, Some(id))
      && ExecuteOutcome(s.rows, s.risk, d, w, rows', r', reply)
  }

  /** The order side after a handler: as its order call left it, or untouched when the call raised. */
  ghost predicate CallLeft(s: State, id: string, outcome: CallOutcome, d: Draft, w: World,
                           rows': map<Key, Row>, r': Risk, s': State) {
    match outcome
    case CallFailed(_) => s' == s
    case Returned(reply, _) =>
      && CallEnds(s, s', rows', r', Some(id), reply) && s'.fates == CallFates(s, d, w, rows')
      && Opens(s, OpeningStep(s, d, Some(id)), CallKinds(s, d, w, rows', r'), s')
  }

  /** Claim, call and filing of a handler are the approval path's own acts: from any state in which the record awaits
      approval they lead, whatever the outcome of the call, to exactly the record that `ApproveHandler` leaves and
      exactly the order side that the order call leaves, its mailbox emptied. */
  lemma HandlerIsItsActs(y: Sys, id: string, now: int, outcome: CallOutcome, d: Draft, w: World,
                         rows': map<Key, Row>, r': Risk) returns (y': Sys, s': State)
    requires Coherent(y.orders) && SentInv(y.orders) && y.orders.serving && AtStage(y, id, Awaiting)
    requires CallFits(y.orders, KeyFor(y, id), id, outcome, d, w, rows', r')
    ensures Attains(y, true, y') && id !in y'.handlers
    ensures y'.pending == y.pending[id := Handled(y.pending[id], now, outcome)]
    ensures y'.orders == s'.(replies := y'.orders.replies) && s'.rows == rows' && s'.risk == r'
    ensures CallLeft(y.orders, id, outcome, d, w, rows', r', s')
  {
    var y1 := ClaimIsItsAct(y, id, now);
    match outcome
    case CallFailed(code) =>
      y' := RaisingIsItsAct(y, y1, id, code);
      s' := y'.orders;
    case Returned(reply, rowId) =>
      var y2 := CallIsItsActs(y, y1, id, d, w, rows', r', reply);
      y' := FilingIsItsAct(y, y2, id, reply, rowId);
      s' := y2.orders;
  }

  // ---------- what the approval path's own acts keep ----------

  /** Own acts never intrude, so the discipline that keeps rejected records closed holds across them. */
  lemma OwnKeepsQuiet(y: Sys, y': Sys)
    requires Attains(y, true, y') && BaseInv(y) && QuietInv(y)
    ensures BaseInv(y') && QuietInv(y')
  {
    var acts :| Yields(y, acts, true, y');
    assert forall i | 0 <= i < |acts| :: Own(acts[i]) ==> !Intrudes(acts[i]);
    QuietRun(y, acts);
  }

  lemma MailKeepsTruth(s: State, s': State)
    requires s' == s.(replies := s'.replies) && TruthInv(s)
    ensures TruthInv(s')
  {
    forall a | a in s'.holds ensures WriteJustified(s', a) && Unsent(s', a) {
      assert WriteJustified(s, a) && Unsent(s, a);
    }
    forall k | k in s'.rows ensures RowTrue(s'.rows, s'.fates, k) {
      assert RowTrue(s.rows, s.fates, k);
    }
  }

  lemma MailKeepsCeiling(s: State, s': State)
    requires s' == s.(replies := s'.replies)
    ensures forall account, cap | CeilingInv(s, account, cap) :: CeilingInv(s', account, cap)
  {
  }

  lemma MailKeepsIdle(s: State, s': State)
    requires s' == s.(replies := s'.replies) && IdleInv(s)
    ensures IdleInv(s')
  {
    forall a | a in s'.holds ensures WriteIsIdle(s', a) && Unsent(s', a) {
      assert WriteIsIdle(s, a) && Unsent(s, a);
    }
    forall k | k in s'.rows && Terminal(s'.rows[k].report.status) ensures !Working(s', k) {
      assert !Working(s, k);
    }
  }

  /** What one handler keeps: the records' invariants, rejected records closed, terminal rows idle, every exposure ceiling
      unless an override is spent, and stored statuses true unless a cancelled OCO under the record's key is misread. */
  lemma HandlerKeeps(y: Sys, id: string, now: int, outcome: CallOutcome, d: Draft, w: World,
                     rows': map<Key, Row>, r': Risk) returns (y': Sys)
    requires Coherent(y.orders) && SentInv(y.orders) && y.orders.serving && AtStage(y, id, Awaiting)
    requires CallFits(y.orders, KeyFor(y, id), id, outcome, d, w, rows', r')
    ensures y'.pending == y.pending[id := Handled(y.pending[id], now, outcome)] && y'.orders.rows == rows'
    ensures BaseInv(y) && QuietInv(y) ==> BaseInv(y') && QuietInv(y')
    ensures IdleInv(y.orders) ==> IdleInv(y'.orders)
    ensures r' == y.orders.risk ==>
              forall account, cap | CeilingInv(y.orders, account, cap) :: CeilingInv(y'.orders, account, cap)
    ensures TruthInv(y.orders) && (outcome.Returned? ==> !CallMisreads(y.orders, d, w, rows')) ==> TruthInv(y'.orders)
  {
    var s';
    y', s' := HandlerIsItsActs(y, id, now, outcome, d, w, rows', r');
    if BaseInv(y) && QuietInv(y) {
      OwnKeepsQuiet(y, y');
    }
    OrderSideKeeps(y.orders, id, outcome, d, w, rows', r', s');
    if IdleInv(y.orders) {
      MailKeepsIdle(s', y'.orders);
    }
    MailKeepsCeiling(s', y'.orders);
    if TruthInv(y.orders) && (outcome.Returned? ==> !CallMisreads(y.orders, d, w, rows')) {
      MailKeepsTruth(s', y'.orders);
    }
  }

  lemma OrderSideKeeps(s: State, id: string, outcome: CallOutcome, d: Draft, w: World, rows': map<Key, Row>, r': Risk,
                       s': State)
    requires CallLeft(s, id, outcome, d, w, rows', r', s')
    ensures IdleInv(s) ==> IdleInv(s')
    ensures r' == s.risk ==> forall account, cap | CeilingInv(s, account, cap) :: CeilingInv(s', account, cap)
    ensures TruthInv(s) && (outcome.Returned? ==> !CallMisreads(s, d, w, rows')) ==> TruthInv(s')
  {
    if outcome.Returned? {
      var ks := CallKinds(s, d, w, rows', r') + {Opening};
      OpenedReaches(s, OpeningStep(s, d, Some(id)), CallKinds(s, d, w, rows', r'), s');
      KindsOfCall(s, d, w, rows', r');
      ReachedKeeps(s, ks, s');
    }
  }

  // ---------- recovery ----------

  /** Recovering any set of executing records before the service opens, in any order, is a run of own acts. */
  lemma {:induction false} RecoveryIsItsActs(y: Sys, ids: set<string>, now: int)
    requires Coherent(y.orders) && !y.orders.serving && y.orders.fixup.None?
    requires ids <= ExecutingIds(y.pending)
    ensures Attains(y, true, y.(pending := Recovered(y.pending, ids, y.orders.rows, now)))
    decreases |ids|
  {
    if ids == {} {
      AttainsSelf(y, true);
      assert Recovered(y.pending, {}, y.orders.rows, now) == y.pending;
    } else {
      var id :| id in ids;
      var less := ids - {id};
      RecoveryIsItsActs(y, less, now);
      var y1 := y.(pending := Recovered(y.pending, less, y.orders.rows, now));
      assert y1.pending[id] == y.pending[id];
      Attain(y, true, y1, Recover(id, now));
      RecoveredOneMore(y.pending, less, y.orders.rows, now, id);
      assert less + {id} == ids;
    }
  }
}
