/** Concrete runs that show where the conditional claims stop holding, so that their conditions are not idle. */
module Witnesses {
  import opened Basics
  import opened RiskRules
  import opened OrderRules
  import opened OrderProtocol
  import opened OrderPlacing
  import opened OrderSafety
  import opened OrderTruth
  import opened OrderReach
  import opened Sizing
  import opened KillSwitchRules
  import opened OrderCalls
  import opened OrderRuns
  import opened KillSwitchRuns
  import opened Approval
  import opened ApprovalSafety

  // ---------- a blind cancellation ----------

  const SALE := Draft(Key("acc", "close-1"), "BTCUSDT", Side.Sell, false, 1.0, 1.0, true)

  /** The exchange takes the order and lets it rest. */
  const RESTS := Placement(None, Some(Alive), Placed(FRESH), None, false)

  ghost function Serving(): State {
    INIT.(serving := true)
  }

  lemma Opened()
    ensures Reaches(INIT, EVERY, Serving()) && SentInv(Serving()) && TruthInv(Serving())
  {
    OneStep(INIT, Serve, EVERY);
    assert PendingJustified(Serving());
  }

  lemma SaleRests() returns (s: State)
    ensures Reaches(INIT, EVERY, s) && SentInv(s) && Coherent(s) && s.serving && s.holds == map[]
    ensures s.rows == map[SALE.key := RowFor(SALE, KillSwitch, New)] && s.fates == map[SALE.key := Alive]
  {
    Opened();
    var s0 := Serving();
    GoStep(INIT, EVERY, s0, BeginSell(SALE));
    s := ClearedWorks(INIT, EVERY, s0, SALE, KillSwitch, RESTS, None);
    ReachedIsSent(INIT, EVERY, s);
    ReachedCoherent(INIT, EVERY, s);
  }

  /** A real order rests, the account goes back to paper mode, and the kill switch then closes the row without asking:
      the row reads CANCELED while the exchange may still fill the order. */
  lemma BlindCancelHappens() returns (s: State)
    ensures Reaches(INIT, EVERY, s) && !TerminalIsIdle(s)
  {
    var s1 := SaleRests();
    GoStep(INIT, EVERY, s1, PaperCancel(SALE.key));
    s := Apply(s1, PaperCancel(SALE.key));
    assert Terminal(s.rows[SALE.key].report.status) && Working(s, SALE.key);
  }

  // ---------- a cancellation that was not verified ----------

  /** A close during which the order turns out not to be there, and asking about it fails. */
  ghost function Hasty(): CloseWorld {
    CloseWorld(None, Ok([]), _ => true, _ => NotThere(QueryFailed), None, Ok([]))
  }

  const ALL_CLOSED := CloseReport(true, false, [], [])

  ghost function ReadsCancelled(): map<Key, Row> {
    map[SALE.key := RowFor(SALE, KillSwitch, Canceled)]
  }

  lemma HastyClose(rows: map<Key, Row>)
    requires rows == map[SALE.key := RowFor(SALE, KillSwitch, New)]
    ensures ReachedTargets(rows, "acc", Hasty()) == {SALE.key}
    ensures CancelledRows(rows, {SALE.key}, Hasty().cancels) == ReadsCancelled()
    ensures CloseOutcome(rows, "acc", true, Hasty(), ReadsCancelled(), Ok(ALL_CLOSED))
  {
    assert SALE.key in Targets(rows, "acc");
    assert Targets(rows, "acc") == {SALE.key};
    assert SellRun(ReadsCancelled(), "acc", [], ReadsCancelled(), []);
  }

  /** The order is filled just before the kill switch cancels it, and the follow-up query fails: the close reports
      `closed` without a fault, and the row reads CANCELED although the order was filled. */
  lemma UnverifiedCancelHappens() returns (s: State, s': State)
    ensures Reaches(INIT, EVERY, s) && Reaches(s, EVERY, s')
    ensures CloseOutcome(s.rows, "acc", true, Hasty(), s'.rows, Ok(ALL_CLOSED))
    ensures SALE.key in s'.rows && s'.rows[SALE.key].report.status.Canceled? && FateOf(s'.fates, SALE.key) == Some(Done)
  {
    s := SaleRests();
    var ended := map[SALE.key := Done];
    var fates := EndedFates(s.fates, ended);
    assert fates == map[SALE.key := Done];
    HastyClose(s.rows);
    assert HonestCancels(s.rows, fates, "acc", Hasty());
    assert HonestSells(ReadsCancelled(), fates, "acc", [], ReadsCancelled(), fates, []);
    s' := CloseIsARun(s, "acc", Hasty(), ended, ReadsCancelled(), fates, Ok(ALL_CLOSED));
    ReachesMore(s, CloseKinds(s.rows, fates, "acc", Hasty()), EVERY, s');
  }

  // ---------- a cancelled OCO ----------

  const OCO := Draft(Key("acc", "oco-1"), "BTCUSDT", Side.Sell, true, 1.0, 1.0, true)

  /** A call without a cap in its way whose order the exchange takes, and one that asks about it again. */
  const PLACES := World(None, [], 0, RESTS)
  const LIST_DONE := Report(Filled, None, 0.0, 0.0)
  const ASKS := World(None, [], 0, Placement(None, None, NoAnswer, Some(LIST_DONE), false))

  function FirstOrigin(d: Draft): Origin {
    Checked(NO_POLICY, d.notional, None)
  }

  function FirstRow(d: Draft, status: Status): map<Key, Row> {
    map[d.key := RowFor(d, FirstOrigin(d), status)]
  }

  lemma NoCap(d: Draft, w: World)
    requires Doable(d) && w.balances == []
    ensures CapsOutcome(map[], Risk(map[], []), d, w, Ok(FirstOrigin(d)), Risk(map[], []))
  {
    assert OpenTotal(map[], d.key.account) == 0.0;
  }

  ghost predicate Fresh(s: State) {
    && Reaches(INIT, EVERY, s) && Coherent(s) && SentInv(s) && s.serving && s.holds == map[]
    && s.rows == map[] && s.risk == Risk(map[], []) && s.fates == map[]
  }

  ghost predicate Holds(s: State, d: Draft, fate: Fate) {
    && Reaches(INIT, EVERY, s) && Coherent(s) && SentInv(s) && s.serving && s.holds == map[]
    && s.rows == FirstRow(d, New) && s.fates == map[d.key := fate]
  }

  lemma Called(s: State, d: Draft, ks: Kinds, s': State)
    requires Reaches(INIT, EVERY, s) && SentInv(s) && Opens(s, OpeningStep(s, d, None), ks, s') && ks <= EVERY
    ensures Reaches(INIT, EVERY, s') && Coherent(s') && SentInv(s')
  {
    OpenedReaches(s, OpeningStep(s, d, None), ks, s');
    ReachesMore(s, ks + {Opening}, EVERY, s');
    ReachesOnward(INIT, s, s', EVERY);
    ReachedIsSent(s, EVERY, s');
    ReachedCoherent(INIT, EVERY, s');
  }

  lemma FirstOrder(s: State, d: Draft, w: World) returns (s': State)
    requires Fresh(s) && Doable(d) && d.isReal
    requires w.preflight.None? && w.balances == [] && w.placement == RESTS
    ensures Holds(s', d, Alive)
  {
    NoCap(d, w);
    var origin, reply := FirstOrigin(d), RowReply(d.key, FRESH);
    s' := FreshWorks(s, EVERY, d, w, None, Ok(origin), FirstRow(d, New), s.risk, reply);
    Called(s, d, EVERY, s');
  }

  lemma FirstOrderEnds(s: State, d: Draft) returns (s': State)
    requires Holds(s, d, Alive)
    ensures Holds(s', d, Gone)
  {
    GoStep(INIT, EVERY, s, Finish(d.key, Gone));
    s' := Apply(s, Finish(d.key, Gone));
    ReachedCoherent(INIT, EVERY, s');
    ReachedIsSent(INIT, EVERY, s');
  }

  lemma FirstOrderAsked(s: State, d: Draft, w: World) returns (s': State)
    requires Holds(s, d, Gone) && d.isReal && d.oco && w.balances == []
    requires !w.placement.dies && w.placement.found == Some(LIST_DONE)
    ensures Reaches(INIT, EVERY, s') && s'.rows == FirstRow(d, Filled) && s'.fates == s.fates
  {
    AskedRow(d, w.placement);
    s' := RetryWorks(s, EVERY, d, w, None);
    Called(s, d, EVERY, s');
  }

  lemma AskedRow(d: Draft, p: Placement)
    requires d.isReal && !p.dies && p.found == Some(LIST_DONE)
    ensures var rows := FirstRow(d, New); var stored := rows[d.key].report;
            rows[d.key := rows[d.key].(report := RetriedReport(stored, d.isReal, p))] == FirstRow(d, Filled)
  {
  }

  /** An OCO is cancelled at the exchange, and a retry of the call asks about it: the row reads FILLED although neither
      leg was. */
  lemma MisreadOcoHappens() returns (s: State)
    ensures Reaches(INIT, EVERY, s)
    ensures OCO.key in s.rows && s.rows[OCO.key].report.status.Filled? && FateOf(s.fates, OCO.key) == Some(Gone)
  {
    Opened();
    var s0 := FirstOrder(Serving(), OCO, PLACES);
    var s1 := FirstOrderEnds(s0, OCO);
    s := FirstOrderAsked(s1, OCO, ASKS);
  }

  // ---------- two open close sales ----------

  const LOT := Filters(1.0, 1.0, None, 1.0, 1.0, 1.0, None)

  /** The query about the first sale fails with a canonical error, and the exchange takes the second one. */
  const LINE := Holding("BTC", 1.0, None, true, Some(1.0), Some(LOT), LookupFails, "2", RESTS)

  const SECOND := Draft(Key("acc", "close-2"), "BTCUSDT", Side.Sell, false, 1.0, 1.0, true)

  /** A close during which the broker cannot be reached for cancelling and asking. */
  ghost function Deaf(): CloseWorld {
    CloseWorld(None, Ok([]), _ => true, _ => CancelFailed, None, Ok([LINE]))
  }

  /** The first sale's row once its cancellation failed. */
  ghost function Unsure(): map<Key, Row> {
    map[SALE.key := RowFor(SALE, KillSwitch, Unknown)]
  }

  ghost function Both(): map<Key, Row> {
    Unsure()[SECOND.key := RowFor(SECOND, KillSwitch, New)]
  }

  const LISTED := Sold("BTCUSDT", SECOND.key, New)

  lemma SecondIsPlaced()
    ensures LineOutcome(Unsure(), "acc", LINE, Both(), Ok([LISTED]))
  {
    assert PlanOf(LINE) == Offer(1.0);
    assert SaleDraft("acc", LINE, 1.0) == SECOND;
    assert OpenClose(Unsure(), "acc", "BTCUSDT", SALE.key);
    assert ResumedSale(Unsure(), "acc", LINE, 1.0, SALE.key, Both(), Ok(LISTED));
  }

  /** It is what a close of the account does: the row of the first sale is listed as a fault. */
  lemma SecondIsClose(rows: map<Key, Row>)
    requires rows == map[SALE.key := RowFor(SALE, KillSwitch, New)]
    ensures CancelledRows(rows, Targets(rows, "acc"), Deaf().cancels) == Unsure()
    ensures CloseOutcome(rows, "acc", true, Deaf(), Both(),
                         Ok(CloseReport(false, false, [RowFault(SALE.key)], [LISTED])))
  {
    SecondIsPlaced();
    assert Targets(rows, "acc") == {SALE.key};
    SecondIsSold();
    assert !LISTED.status.Filled?;
  }

  lemma SecondIsSold()
    ensures SellRun(Unsure(), "acc", [LINE], Both(), [LISTED])
  {
    SecondIsPlaced();
    assert [LINE][..0] == [] && [] + [LISTED] == [LISTED];
    assert SellRun(Unsure(), "acc", [], Unsure(), []);
    assert SellStage(Unsure(), "acc", [LINE], Unsure(), [], [LISTED], Both());
  }

  lemma BothAreOpen()
    ensures OpenClose(Both(), "acc", "BTCUSDT", SALE.key) && OpenClose(Both(), "acc", "BTCUSDT", SECOND.key)
  {
  }

  lemma CancelsFail(s: State)
    requires Coherent(s) && SentInv(s) && s.serving && s.holds == map[]
    requires s.rows == map[SALE.key := RowFor(SALE, KillSwitch, New)]
    ensures Reaches(s, EVERY, s.(rows := Unsure())) && SentInv(s.(rows := Unsure())) && Coherent(s.(rows := Unsure()))
  {
    SecondIsClose(s.rows);
    CancelStageIsARun(s, EVERY, "acc", Deaf());
    ReachedCoherent(s, EVERY, s.(rows := Unsure()));
    ReachedIsSent(s, EVERY, s.(rows := Unsure()));
  }

  lemma SecondIsSent(s: State) returns (s': State)
    requires Coherent(s) && SentInv(s) && s.serving && s.holds == map[] && s.rows == Unsure()
    requires s.fates == map[SALE.key := Alive]
    ensures Reaches(s, EVERY, s') && s'.rows == Both() && s'.fates == s.fates[SECOND.key := Alive]
  {
    SecondIsPlaced();
    SecondWorks(s);
    s' := LineIsARun(s, EVERY, "acc", LINE, Both(), Ok([LISTED]));
  }

  /** While a close sale of a symbol still works, the next close of the account writes a second one, which works too: the
      cancellation of the first failed and so did the query about it. */
  lemma TwoSalesHappen() returns (s: State, s': State)
    ensures Reaches(INIT, EVERY, s) && Reaches(s, EVERY, s')
    ensures exists res :: CloseOutcome(s.rows, "acc", true, Deaf(), s'.rows, res)
    ensures OpenClose(s'.rows, "acc", "BTCUSDT", SALE.key) && Working(s', SALE.key)
    ensures OpenClose(s'.rows, "acc", "BTCUSDT", SECOND.key) && Working(s', SECOND.key)
  {
    s := SaleRests();
    SecondIsClose(s.rows);
    CancelsFail(s);
    BothAreOpen();
    s' := SecondIsSent(s.(rows := Unsure()));
    ReachesOnward(s, s.(rows := Unsure()), s', EVERY);
  }

  lemma SecondWorks(s: State)
    ensures SoldFates(Unsure(), s.fates, "acc", LINE, Both()) == s.fates[SECOND.key := Alive]
  {
    assert PlanOf(LINE) == Offer(1.0);
    assert SaleDraft("acc", LINE, 1.0) == SECOND;
  }

  // ---------- an order under the key of a rejected record ----------

  const TAKEN := Draft(Key("acc", "pending:1"), "BTCUSDT", Buy, false, 1.0, 1.0, true)
  const AWAITING := Pending("acc", Awaiting, None, 0, 0)
  const CLAIMED := Pending("acc", Executing, None, 1, 0)
  const REJECTED := Pending("acc", Stage.Declined, None, 1, 0)

  lemma AttainOrder(y: Sys, step: Step)
    requires Attains(START, false, y) && Coherent(y.orders) && Can(y, Order(step)) && !step.Crash?
    ensures Attains(START, false, y.(orders := Apply(y.orders, step))) && Coherent(Apply(y.orders, step))
  {
    Attain(START, false, y, Order(step));
  }

  lemma RaisedRecord()
    ensures Attains(START, false, Sys(Serving(), map["1" := AWAITING], map[]))
  {
    AttainsSelf(START, false);
    AttainOrder(START, Serve);
    Attain(START, false, Sys(Serving(), map[], map[]), Raise("1", "acc"));
  }

  lemma ClaimedRecord()
    ensures Attains(START, false, Sys(Serving(), map["1" := CLAIMED], map["1" := false]))
  {
    RaisedRecord();
    var y := Sys(Serving(), map["1" := AWAITING], map[]);
    Attain(START, false, y, Claim("1", 0));
    assert Do(y, Claim("1", 0)).pending == map["1" := CLAIMED];
  }

  /** A record claimed and then refused by its own call. */
  lemma RejectedRecord()
    ensures Attains(START, false, Sys(Serving(), map["1" := REJECTED], map[]))
  {
    ClaimedRecord();
    var y := Sys(Serving(), map["1" := CLAIMED], map["1" := false]);
    var y' := Do(y, CallRaised("1", Some(InvalidRequest)));
    Attain(START, false, y, CallRaised("1", Some(InvalidRequest)));
    assert y'.handlers == map[] && y'.pending == map["1" := REJECTED];
  }

  /** The order side while an outsider's draft of `TAKEN` stands at the given stage. */
  function TakenAt(t: Task): State {
    INIT.(serving := true, holds := map["acc" := Hold(None, t)])
  }

  lemma AdvanceTaken(pending: map<string, Pending>, handlers: map<string, bool>, t: Task, p: Prep, t': Task)
    requires Attains(START, false, Sys(TakenAt(t), pending, handlers)) && Coherent(TakenAt(t))
    requires PrepEnabled(TakenAt(t), "acc", p) && ApplyPrep(TakenAt(t), "acc", p) == TakenAt(t')
    ensures Attains(START, false, Sys(TakenAt(t'), pending, handlers)) && Coherent(TakenAt(t'))
  {
    AttainOrder(Sys(TakenAt(t), pending, handlers), Prepare("acc", p));
  }

  lemma NothingOpen()
    ensures OpenTotal(map[], "acc") == 0.0
  {
  }

  const ORIGIN := Checked(NO_POLICY, 1.0, None)

  lemma TakenDrafted(pending: map<string, Pending>, handlers: map<string, bool>)
    requires Attains(START, false, Sys(Serving(), pending, handlers))
    ensures Attains(START, false, Sys(TakenAt(Drafted(TAKEN)), pending, handlers)) && Coherent(TakenAt(Drafted(TAKEN)))
  {
    var y := Sys(Serving(), pending, handlers);
    AttainOrder(y, Begin(TAKEN, None));
    assert Apply(y.orders, Begin(TAKEN, None)) == TakenAt(Drafted(TAKEN));
  }

  lemma TakenRead(pending: map<string, Pending>, handlers: map<string, bool>)
    requires Attains(START, false, Sys(Serving(), pending, handlers))
    ensures var t := PolicyRead(TAKEN, NO_POLICY);
            Attains(START, false, Sys(TakenAt(t), pending, handlers)) && Coherent(TakenAt(t))
  {
    TakenDrafted(pending, handlers);
    AdvanceTaken(pending, handlers, Drafted(TAKEN), ReadPolicy, PolicyRead(TAKEN, NO_POLICY));
  }

  lemma TakenTotalled(pending: map<string, Pending>, handlers: map<string, bool>)
    requires Attains(START, false, Sys(Serving(), pending, handlers))
    ensures var t := TotalRead(TAKEN, NO_POLICY, 0.0);
            Attains(START, false, Sys(TakenAt(t), pending, handlers)) && Coherent(TakenAt(t))
  {
    TakenRead(pending, handlers);
    NothingOpen();
    AdvanceTaken(pending, handlers, PolicyRead(TAKEN, NO_POLICY), ReadTotal, TotalRead(TAKEN, NO_POLICY, 0.0));
  }

  lemma TakenWeighed(pending: map<string, Pending>, handlers: map<string, bool>)
    requires Attains(START, false, Sys(Serving(), pending, handlers))
    ensures var t := Weighed(TAKEN, NO_POLICY, 1.0);
            Attains(START, false, Sys(TakenAt(t), pending, handlers)) && Coherent(TakenAt(t))
  {
    TakenTotalled(pending, handlers);
    AdvanceTaken(pending, handlers, TotalRead(TAKEN, NO_POLICY, 0.0), ReadHoldings(0.0),
                 Weighed(TAKEN, NO_POLICY, 1.0));
  }

  lemma TakenCleared(pending: map<string, Pending>, handlers: map<string, bool>)
    requires Attains(START, false, Sys(Serving(), pending, handlers))
    ensures var t := Cleared(TAKEN, ORIGIN);
            Attains(START, false, Sys(TakenAt(t), pending, handlers)) && Coherent(TakenAt(t))
  {
    TakenWeighed(pending, handlers);
    AdvanceTaken(pending, handlers, Weighed(TAKEN, NO_POLICY, 1.0), Clear, Cleared(TAKEN, ORIGIN));
  }

  /** The outsider's order is recorded, whatever the approval side looks like. */
  lemma TakenInserted(pending: map<string, Pending>, handlers: map<string, bool>) returns (y: Sys)
    requires Attains(START, false, Sys(Serving(), pending, handlers))
    ensures Attains(START, false, y) && Coherent(y.orders) && y.pending == pending && y.handlers == handlers
    ensures y.orders.rows == map[TAKEN.key := RowFor(TAKEN, ORIGIN, New)]
  {
    TakenCleared(pending, handlers);
    var y1 := Sys(TakenAt(Cleared(TAKEN, ORIGIN)), pending, handlers);
    AttainOrder(y1, Prepare("acc", Insert));
    y := y1.(orders := Apply(y1.orders, Prepare("acc", Insert)));
  }

  lemma TakenIsReserved(y: Sys)
    requires "1" in y.pending && y.pending["1"].account == "acc"
    ensures KeyFor(y, "1") == TAKEN.key
  {
    assert PENDING_PREFIX + "1" == "pending:1";
  }

  /** An agent that asks for the key of a rejected record gets a live order under it. */
  lemma RejectionCanBreak() returns (y: Sys)
    ensures Attains(START, false, y) && "1" in y.pending && !RejectedQuiet(y, "1")
  {
    RejectedRecord();
    y := TakenInserted(map["1" := REJECTED], map[]);
    TakenIsReserved(y);
  }

  /** The same when the order comes first: it is recorded while the record is being executed, and the record's own call
      is then refused. */
  lemma RejectionCanFollow() returns (y: Sys)
    ensures Attains(START, false, y) && "1" in y.pending && !RejectedQuiet(y, "1")
  {
    ClaimedRecord();
    var y1 := TakenInserted(map["1" := CLAIMED], map["1" := false]);
    Attain(START, false, y1, CallRaised("1", Some(InvalidRequest)));
    y := Do(y1, CallRaised("1", Some(InvalidRequest)));
    TakenIsReserved(y);
  }
}
