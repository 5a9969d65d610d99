/** The order side of the approval path: every run of the composed machine is, seen from the orders, a run of the order
    protocol, so that all run results hold for it too. */
module ApprovalOrders {
  import opened Basics
  import opened OrderRules
  import opened OrderProtocol
  import opened OrderSafety
  import opened OrderExposure
  import opened Approval

  /** Equal but for the mailboxes of the handlers. */
  predicate SameOrders(s: State, t: State) {
    t == s.(replies := t.replies)
  }

  lemma PrepIgnoresMail(s: State, t: State, a: string, p: Prep)
    requires SameOrders(s, t) && PrepEnabled(s, a, p)
    ensures PrepEnabled(t, a, p) && SameOrders(ApplyPrep(s, a, p), ApplyPrep(t, a, p))
  {
  }

  lemma DealIgnoresMail(s: State, t: State, a: string, deal: Deal)
    requires SameOrders(s, t) && DealEnabled(s, a, deal) && s.holds[a].task.key in s.rows
    ensures DealEnabled(t, a, deal) && SameOrders(ApplyDeal(s, a, deal), ApplyDeal(t, a, deal))
  {
  }

  lemma CoherentIgnoresMail(s: State, t: State)
    requires SameOrders(s, t) && Coherent(s)
    ensures Coherent(t)
  {
    forall a | a in t.holds ensures TaskCoherent(t, a, t.holds[a].task) {
      assert TaskCoherent(s, a, s.holds[a].task);
    }
  }

  /** No step looks into a mailbox. */
  lemma StepIgnoresMail(s: State, t: State, step: Step)
    requires SameOrders(s, t) && Coherent(s) && Coherent(t) && Enabled(s, step)
    ensures Enabled(t, step) && SameOrders(Apply(s, step), Apply(t, step))
  {
    match step
    case Prepare(a, p) => PrepIgnoresMail(s, t, a, p);
    case Settle(a, deal) =>
      assert TaskCoherent(s, a, s.holds[a].task);
      DealIgnoresMail(s, t, a, deal);
    case _ =>
  }

  /** What an act does to the orders, as a step of the order protocol. */
  function OrderMove(y: Sys, act: Act): Option<Step>
    requires Can(y, act)
  {
    match act
    case Order(step) => Some(step)
    case Call(id, d) => Some(Begin(d, Some(id)))
    case CallAgain(id, isReal) => Some(BeginExisting(KeyFor(y, id), isReal, Some(id)))
    case _ => None
  }

  lemma ActMovesOrders(y: Sys, act: Act)
    requires Coherent(y.orders) && Can(y, act)
    ensures var move := OrderMove(y, act);
            if move.Some? then Enabled(y.orders, move.value) && Do(y, act).orders == Apply(y.orders, move.value)
            else SameOrders(y.orders, Do(y, act).orders)
  {
  }

  /** Seen from the orders, a run of the approval path is a run of the order protocol. */
  lemma {:induction false} OrdersOfRun(y: Sys, t: State, acts: seq<Act>) returns (steps: seq<Step>)
    requires Possible(y, acts) && SameOrders(y.orders, t) && Coherent(t)
    ensures Legal(t, steps) && SameOrders(After(y, acts).orders, Run(t, steps))
    decreases |acts|
  {
    if acts == [] {
      steps := [];
    } else {
      var y1 := Do(y, acts[0]);
      var move := OrderMove(y, acts[0]);
      ActMovesOrders(y, acts[0]);
      if move.Some? {
        StepIgnoresMail(y.orders, t, move.value);
        CoherentStep(t, move.value);
        var rest := OrdersOfRun(y1, Apply(t, move.value), acts[1..]);
        steps := [move.value] + rest;
        assert steps[1..] == rest;
      } else {
        steps := OrdersOfRun(y1, t, acts[1..]);
      }
    }
  }

  /** Over every run of the approval path: the exchange gets at most one submission per key, so at most one for each
      pending order, and different pending orders have different keys. */
  lemma OneSubmissionPerRecord(acts: seq<Act>)
    requires Possible(START, acts)
    ensures var y := After(START, acts);
            && Distinct(y.orders.sent)
            && (forall k | k in y.orders.sent :: k in y.orders.rows)
            && (forall id, other | id in y.pending && other in y.pending && id != other ::
                  KeyFor(y, id) != KeyFor(y, other))
  {
    var steps := OrdersOfRun(START, INIT, acts);
    AtMostOneSubmission(steps);
    var y := After(START, acts);
    forall id, other | id in y.pending && other in y.pending && id != other
      ensures KeyFor(y, id) != KeyFor(y, other)
    {
      assert (PENDING_PREFIX + id)[|PENDING_PREFIX|..] == id;
      assert (PENDING_PREFIX + other)[|PENDING_PREFIX|..] == other;
    }
  }

  /** And every order outside the kill switch met its caps or owns an applied override, approved ones included. */
  lemma ApprovedOrdersAreCovered(acts: seq<Act>, k: Key)
    requires Possible(START, acts) && k in After(START, acts).orders.rows
    ensures var s := After(START, acts).orders;
            OriginOk(s.risk, k, s.rows[k].symbol, s.rows[k].notional, s.rows[k].origin)
  {
    var steps := OrdersOfRun(START, INIT, acts);
    EveryOrderIsCovered(steps);
  }
}
