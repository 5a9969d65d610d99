/** The startup reconcile and a whole `_close_one`, however it ends, are runs of the order protocol, and keep what such
    runs keep. */
module KillSwitchRuns {
  import opened Basics
  import opened RealMath
  import opened OrderRules
  import opened OrderProtocol
  import opened OrderPlacing
  import opened OrderSafety
  import opened OrderTruth
  import opened OrderExposure
  import opened OrderReach
  import opened KillSwitchRules
  import opened OrderRuns

  /** Apart from what was submitted, only the table and the exchange's side differ. */
  ghost predicate Leaves(s: State, s': State, rows': map<Key, Row>, fates': map<Key, Fate>) {
    && s'.rows == rows' && s'.fates == fates' && s'.risk == s.risk && s'.holds == s.holds
    && s'.serving == s.serving && s'.fixup == s.fixup && s'.replies == s.replies
  }

  // ---------- startup ----------

  /** The startup query reads a cancelled OCO as FILLED. */
  predicate StartupMisreads(s: State, k: Key, ans: StartupAnswer)
    requires k in s.rows
  {
    && ans.Answered? && ans.found.Some?
    && Misread(s.rows[k].oco, ans.found.value.status, FateOf(s.fates, k))
  }

  lemma StartupRowIsARun(s: State, ks: Kinds, k: Key, ans: StartupAnswer)
    requires Coherent(s) && !s.serving && s.fixup.None?
    requires k in s.rows && Uncertain(s.rows[k].report.status)
    requires ans.Answered? ==> TruthfulFound(s, k, ans.found)
    requires Starting in ks && (StartupMisreads(s, k, ans) ==> LyingStart in ks)
    ensures Reaches(s, ks, s.(rows := s.rows[k := s.rows[k].(report := ReconciledReport(s.rows[k].report, ans))]))
  {
    ReachesSelf(s, ks);
    if ans.QueryError? {
      assert s.rows[k := s.rows[k].(report := s.rows[k].report)] == s.rows;
    } else {
      GoStep(s, ks, s, StartupFound(k, ans.found));
      var s1 := Apply(s, StartupFound(k, ans.found));
      CoherentStep(s, StartupFound(k, ans.found));
      GoStep(s, ks, s1, StartupWrite);
    }
  }

  ghost predicate TruthfulStartup(s: State, keys: set<Key>, answers: Key -> StartupAnswer) {
    forall k | k in keys && answers(k).Answered? :: TruthfulFound(s, k, answers(k).found)
  }

  /** Unsettled rows before the service opens, and truthful answers about them. */
  ghost predicate StartupFits(s: State, keys: set<Key>, answers: Key -> StartupAnswer) {
    && Coherent(s) && !s.serving && s.fixup.None?
    && (forall k | k in keys :: k in s.rows && Uncertain(s.rows[k].report.status))
    && TruthfulStartup(s, keys, answers)
  }

  ghost predicate AnyMisread(s: State, keys: set<Key>, answers: Key -> StartupAnswer)
    requires keys <= s.rows.Keys
  {
    exists k :: k in keys && StartupMisreads(s, k, answers(k))
  }

  ghost function StartupKinds(s: State, keys: set<Key>, answers: Key -> StartupAnswer): Kinds
    requires keys <= s.rows.Keys
  {
    {Starting} + (if AnyMisread(s, keys, answers) then {LyingStart} else {})
  }

  /** Reconciling any set of unsettled rows before the service opens, in any order, is a run. */
  lemma {:induction false} ReconcilingIsARun(s: State, ks: Kinds, keys: set<Key>, answers: Key -> StartupAnswer)
    requires StartupFits(s, keys, answers)
    requires Starting in ks && forall k | k in keys :: StartupMisreads(s, k, answers(k)) ==> LyingStart in ks
    ensures Reaches(s, ks, s.(rows := ReconciledRows(s.rows, keys, answers)))
    decreases |keys|
  {
    if keys == {} {
      ReachesSelf(s, ks);
      assert ReconciledRows(s.rows, {}, answers) == s.rows;
    } else {
      var k :| k in keys;
      var less := keys - {k};
      ReconcilingIsARun(s, ks, less, answers);
      var s1 := s.(rows := ReconciledRows(s.rows, less, answers));
      ReachedCoherent(s, ks, s1);
      StartupRowIsARun(s1, ks, k, answers(k));
      ReconciledOneMore(s.rows, less, answers, k);
      assert less + {k} == keys;
      ReachesOnward(s, s1, s.(rows := ReconciledRows(s.rows, keys, answers)), ks);
    }
  }

  /** The startup reconcile is a run of startup steps, which lie only when a cancelled OCO is read as FILLED. */
  lemma StartupIsARun(s: State, keys: set<Key>, answers: Key -> StartupAnswer)
    requires StartupFits(s, keys, answers)
    ensures Reaches(s, StartupKinds(s, keys, answers), s.(rows := ReconciledRows(s.rows, keys, answers)))
  {
    ReconcilingIsARun(s, StartupKinds(s, keys, answers), keys, answers);
  }

  /** What the startup reconcile keeps: terminal rows idle, every exposure ceiling, and stored statuses true if and only
      if it reads no cancelled OCO as FILLED. */
  lemma StartupKeeps(s: State, keys: set<Key>, answers: Key -> StartupAnswer) returns (s': State)
    requires StartupFits(s, keys, answers) && SentInv(s)
    ensures s' == s.(rows := ReconciledRows(s.rows, keys, answers))
    ensures IdleInv(s) ==> IdleInv(s')
    ensures forall account, cap | CeilingInv(s, account, cap) :: CeilingInv(s', account, cap)
    ensures TruthInv(s) ==> (TruthInv(s') <==> !AnyMisread(s, keys, answers))
  {
    s' := s.(rows := ReconciledRows(s.rows, keys, answers));
    var ks := StartupKinds(s, keys, answers);
    StartupIsARun(s, keys, answers);
    ReachedKeeps(s, ks, s');
    if AnyMisread(s, keys, answers) {
      MisreadStartupShows(s, keys, answers);
    } else {
      assert ks !! LIES;
    }
  }

  lemma MisreadStartupShows(s: State, keys: set<Key>, answers: Key -> StartupAnswer)
    requires keys <= s.rows.Keys && AnyMisread(s, keys, answers)
    ensures !RowsTrue(ReconciledRows(s.rows, keys, answers), s.fates)
  {
    var k :| k in keys && StartupMisreads(s, k, answers(k));
    assert !RowTrue(ReconciledRows(s.rows, keys, answers), s.fates, k);
  }

  // ---------- cancelling ----------

  /** The kinds of steps that a real close is made of, apart from lies. */
  predicate Closes(ks: Kinds) {
    Works(ks) && Opening in ks
  }

  lemma CancelIsARun(s: State, ks: Kinds, k: Key, ans: CancelAnswer)
    requires Coherent(s) && Free(s, k.account) && TruthfulCancel(s, k, ans)
    requires k in s.rows && Resting(s.rows[k].report.status)
    requires Closes(ks) && (CancelLies(FateOf(s.fates, k), s.rows[k].oco, ans) ==> LyingMove in ks)
    ensures Reaches(s, ks, s.(rows := s.rows[k := s.rows[k].(report := AfterCancel(s.rows[k].report, ans))]))
  {
    var a := k.account;
    var report := AfterCancel(s.rows[k].report, ans);
    var s1 := Acquire(s, a, None, Cancelling(k));
    OneStep(s, BeginCancel(k), ks);
    GoDeal(s, ks, s1, a, CancelAnswered(ans));
    CancelTellsTruthExactly(s.rows[k].report, FateOf(s.fates, k), s.rows[k].oco, ans);
    GoWrite(s, ks, s1, a, k, report, Unverified(ans));
    EndedIsIdle(s, s1, a, None, Cancelling(k), RowReply(k, report));
  }

  ghost predicate TruthfulCancels(s: State, keys: set<Key>, cancels: Key -> CancelAnswer) {
    forall k | k in keys :: TruthfulCancel(s, k, cancels(k))
  }

  /** Some cancellation writes a status that is not true. */
  ghost predicate AnyLies(rows: map<Key, Row>, fates: map<Key, Fate>, keys: set<Key>, cancels: Key -> CancelAnswer)
    requires keys <= rows.Keys
  {
    exists k :: k in keys && CancelLies(FateOf(fates, k), rows[k].oco, cancels(k))
  }

  /** Cancelling all of an account's resting rows, in any order, is a run. */
  lemma {:induction false} CancellingIsARun(s: State, ks: Kinds, account: string, keys: set<Key>,
                                            cancels: Key -> CancelAnswer)
    requires Coherent(s) && Free(s, account) && TruthfulCancels(s, keys, cancels)
    requires forall k | k in keys :: k in s.rows && k.account == account && Resting(s.rows[k].report.status)
    requires Closes(ks) && (AnyLies(s.rows, s.fates, keys, cancels) ==> LyingMove in ks)
    ensures Reaches(s, ks, s.(rows := CancelledRows(s.rows, keys, cancels)))
    decreases |keys|
  {
    if keys == {} {
      ReachesSelf(s, ks);
      assert CancelledRows(s.rows, {}, cancels) == s.rows;
    } else {
      var k :| k in keys;
      var less := keys - {k};
      CancellingIsARun(s, ks, account, less, cancels);
      var s1 := s.(rows := CancelledRows(s.rows, less, cancels));
      ReachedCoherent(s, ks, s1);
      assert s1.rows[k] == s.rows[k];
      CancelIsARun(s1, ks, k, cancels(k));
      CancelledOneMore(s.rows, less, cancels, k);
      assert less + {k} == keys;
      ReachesOnward(s, s1, s.(rows := CancelledRows(s.rows, keys, cancels)), ks);
    }
  }

  lemma CancelledOneMore(rows: map<Key, Row>, keys: set<Key>, cancels: Key -> CancelAnswer, k: Key)
    requires k in rows && k !in keys
    ensures CancelledRows(rows, keys, cancels)[k := rows[k].(report := AfterCancel(rows[k].report, cancels(k)))]
         == CancelledRows(rows, keys + {k}, cancels)
  {
  }

  // ---------- a paper account ----------

  ghost predicate AnyFate(fates: map<Key, Fate>, keys: set<Key>, fate: Fate) {
    exists k :: k in keys && FateOf(fates, k) == Some(fate)
  }

  /** Closing without asking is blind over an order that may still fill, and untrue over one that did. */
  function PaperKind(fate: Option<Fate>): Kind {
    if fate == Some(Alive) then BlindClosing else if fate == Some(Done) then LyingClosing else Closing
  }

  ghost function PaperKinds(fates: map<Key, Fate>, keys: set<Key>): Kinds {
    {Closing} + (if AnyFate(fates, keys, Alive) then {BlindClosing} else {})
      + (if AnyFate(fates, keys, Done) then {LyingClosing} else {})
  }

  lemma PaperRowIsARun(s: State, ks: Kinds, k: Key)
    requires Coherent(s) && Enabled(s, PaperCancel(k)) && PaperKind(FateOf(s.fates, k)) in ks
    ensures Reaches(s, ks, s.(rows := s.rows[k := s.rows[k].(report := s.rows[k].report.(status := Canceled))]))
  {
    OneStep(s, PaperCancel(k), ks);
  }

  /** A paper account's rows are closed one by one, each without asking the exchange. */
  lemma {:induction false} PaperClosingIsARun(s: State, ks: Kinds, account: string, keys: set<Key>)
    requires Coherent(s) && Free(s, account)
    requires forall k | k in keys :: k in s.rows && k.account == account && Resting(s.rows[k].report.status)
    requires forall k | k in keys :: PaperKind(FateOf(s.fates, k)) in ks
    ensures Reaches(s, ks, s.(rows := PaperClosedRows(s.rows, keys)))
    decreases |keys|
  {
    if keys == {} {
      ReachesSelf(s, ks);
      assert PaperClosedRows(s.rows, {}) == s.rows;
    } else {
      var k :| k in keys;
      var less := keys - {k};
      PaperClosingIsARun(s, ks, account, less);
      var s1 := s.(rows := PaperClosedRows(s.rows, less));
      ReachedCoherent(s, ks, s1);
      assert s1.rows[k] == s.rows[k];
      PaperRowIsARun(s1, ks, k);
      PaperClosedOneMore(s.rows, less, k);
      assert less + {k} == keys;
      ReachesOnward(s, s1, s.(rows := PaperClosedRows(s.rows, keys)), ks);
    }
  }

  lemma PaperClosedOneMore(rows: map<Key, Row>, keys: set<Key>, k: Key)
    requires k in rows && k !in keys
    ensures PaperClosedRows(rows, keys)[k := rows[k].(report := rows[k].report.(status := Canceled))]
         == PaperClosedRows(rows, keys + {k})
  {
  }

  lemma PaperCancellingIsARun(s: State, account: string, keys: set<Key>)
    requires Coherent(s) && Free(s, account)
    requires forall k | k in keys :: k in s.rows && k.account == account && Resting(s.rows[k].report.status)
    ensures Reaches(s, PaperKinds(s.fates, keys), s.(rows := PaperClosedRows(s.rows, keys)))
  {
    PaperClosingIsARun(s, PaperKinds(s.fates, keys), account, keys);
  }

  // ---------- the exchange ----------

  /** The exchange's side once the orders of `ended` have ended. */
  function EndedFates(fates: map<Key, Fate>, ended: map<Key, Fate>): map<Key, Fate> {
    map k | k in fates :: if k in ended then ended[k] else fates[k]
  }

  predicate MayEnd(s: State, ended: map<Key, Fate>) {
    forall k | k in ended :: Working(s, k) && !ended[k].Alive?
  }

  /** The exchange may end any orders, filled or cancelled, while a call is under way. */
  lemma {:induction false} FinishingIsARun(s: State, ks: Kinds, ended: map<Key, Fate>)
    requires Coherent(s) && MayEnd(s, ended) && Finishing in ks
    ensures Reaches(s, ks, s.(fates := EndedFates(s.fates, ended)))
    decreases |ended.Keys|
  {
    if ended.Keys == {} {
      ReachesSelf(s, ks);
      assert EndedFates(s.fates, ended) == s.fates;
    } else {
      var k :| k in ended.Keys;
      var less := ended - {k};
      assert less.Keys == ended.Keys - {k};
      FinishingIsARun(s, ks, less);
      var s1 := s.(fates := EndedFates(s.fates, less));
      ReachedCoherent(s, ks, s1);
      assert Working(s, k);
      GoStep(s, ks, s1, Finish(k, ended[k]));
      EndedOneMore(s.fates, ended, k);
    }
  }

  lemma EndedOneMore(fates: map<Key, Fate>, ended: map<Key, Fate>, k: Key)
    requires k in ended && k in fates
    ensures EndedFates(fates, ended - {k})[k := ended[k]] == EndedFates(fates, ended)
  {
  }

  // ---------- selling ----------

  lemma SaleIsDoable(account: string, h: Holding, quantity: real)
    requires h.price.Some? && SaleIsValid(h, quantity)
    ensures Doable(SaleDraft(account, h, quantity))
  {
    SaleKeyIsClose(account, h, quantity);
    ScaleStrictly(0.0, quantity, h.price.value);
  }

  /** The exchange's side once a line was sold: a new row brings the fate of its order. */
  function SoldFates(rows: map<Key, Row>, fates: map<Key, Fate>, account: string, h: Holding,
                     rows': map<Key, Row>): map<Key, Fate> {
    if !PlanOf(h).Offer? then fates
    else
      var d := SaleDraft(account, h, PlanOf(h).quantity);
      if d.key in rows' && d.key !in rows then PlacedFates(fates, d, h.placement) else fates
  }

  lemma FreshSaleIsARun(s: State, ks: Kinds, account: string, h: Holding, rows': map<Key, Row>, sale: Result<Sale>)
      returns (s': State)
    requires Closes(ks) && Coherent(s) && SentInv(s) && Free(s, account)
    requires PlanOf(h).Offer? && TruthfulPlacement(false, h.placement)
    requires FreshSale(s.rows, account, h, PlanOf(h).quantity, rows', sale)
    ensures Reaches(s, ks, s') && Leaves(s, s', rows', SoldFates(s.rows, s.fates, account, h, rows'))
  {
    var quantity := PlanOf(h).quantity;
    var d := SaleDraft(account, h, quantity);
    if !SaleIsValid(h, quantity) || d.key in s.rows {
      ReachesSelf(s, ks);
      s' := s;
    } else {
      SaleIsDoable(account, h, quantity);
      SaleKeyIsClose(account, h, quantity);
      OneStep(s, BeginSell(d), ks);
      s' := ClearedWorks(s, ks, s, d, KillSwitch, h.placement, None);
    }
  }

  lemma SyncIsARun(s: State, ks: Kinds, k: Key, found: Report)
    requires Closes(ks) && Coherent(s) && Free(s, k.account) && TruthfulAbout(FateOf(s.fates, k), false, found)
    requires k in s.rows && Uncertain(s.rows[k].report.status)
    ensures Reaches(s, ks, s.(rows := s.rows[k := s.rows[k].(report := found)]))
  {
    var s1 := Acquire(s, k.account, None, Lookup(k));
    OneStep(s, BeginExisting(k, true, None), ks);
    GoDeal(s, ks, s1, k.account, Found(Some(found)));
    GoWrite(s, ks, s1, k.account, k, found, false);
    EndedIsIdle(s, s1, k.account, None, Lookup(k), RowReply(k, found));
  }

  /** The order was taken and is open or was filled. */
  predicate Stands(fates: map<Key, Fate>, k: Key) {
    FateOf(fates, k) == Some(Alive) || FateOf(fates, k) == Some(Done)
  }

  /** The answer to the query about an earlier close sale is truthful. */
  predicate TruthfulLookup(fates: map<Key, Fate>, k: Key, lookup: Lookup) {
    lookup.LookupSays? ==>
      if lookup.found.Some? then TruthfulAbout(FateOf(fates, k), false, lookup.found.value) else !Stands(fates, k)
  }

  /** The exchange's answers about one line are truthful when they are given. */
  ghost predicate TruthfulLine(rows: map<Key, Row>, fates: map<Key, Fate>, account: string, h: Holding) {
    && TruthfulPlacement(false, h.placement)
    && (forall k | OpenClose(rows, account, SymbolOf(h), k) :: TruthfulLookup(fates, k, h.lookup))
  }

  /** Selling one holding, reconciliation of an earlier sale included, is a run. */
  lemma SellIsARun(s: State, ks: Kinds, account: string, h: Holding, rows': map<Key, Row>, sale: Result<Sale>)
      returns (s': State)
    requires Closes(ks) && Coherent(s) && SentInv(s) && Free(s, account) && PlanOf(h).Offer?
    requires TruthfulLine(s.rows, s.fates, account, h) && SellOutcome(s.rows, account, h, rows', sale)
    ensures Reaches(s, ks, s') && Leaves(s, s', rows', SoldFates(s.rows, s.fates, account, h, rows'))
  {
    var quantity := PlanOf(h).quantity;
    if AnyOpenClose(s.rows, account, SymbolOf(h)) {
      var k :| OpenClose(s.rows, account, SymbolOf(h), k) && ResumedSale(s.rows, account, h, quantity, k, rows', sale);
      if h.lookup.LookupRaises? {
        ReachesSelf(s, ks);
        s' := s;
      } else if Heard(h.lookup).None? {
        s' := FreshSaleIsARun(s, ks, account, h, rows', sale);
      } else {
        s' := ResumedIsARun(s, ks, account, h, k, Heard(h.lookup).value, rows', sale);
      }
    } else {
      s' := FreshSaleIsARun(s, ks, account, h, rows', sale);
    }
  }

  lemma ResumedIsARun(s: State, ks: Kinds, account: string, h: Holding, k: Key, found: Report,
                      rows': map<Key, Row>, sale: Result<Sale>) returns (s': State)
    requires Closes(ks) && Coherent(s) && SentInv(s) && Free(s, account) && PlanOf(h).Offer?
    requires TruthfulLine(s.rows, s.fates, account, h) && Heard(h.lookup) == Some(found)
    requires OpenClose(s.rows, account, SymbolOf(h), k)
    requires ResumedSale(s.rows, account, h, PlanOf(h).quantity, k, rows', sale)
    ensures Reaches(s, ks, s') && Leaves(s, s', rows', SoldFates(s.rows, s.fates, account, h, rows'))
  {
    var s1 := s.(rows := s.rows[k := s.rows[k].(report := found)]);
    SyncIsARun(s, ks, k, found);
    if StillStands(found.status) {
      s' := s1;
    } else {
      ReachedCoherent(s, ks, s1);
      ReachedIsSent(s, ks, s1);
      s' := FreshSaleIsARun(s1, ks, account, h, rows', sale);
      ReachesOnward(s, s1, s', ks);
    }
  }

  lemma LineIsARun(s: State, ks: Kinds, account: string, h: Holding, rows': map<Key, Row>, sales: Result<seq<Sale>>)
      returns (s': State)
    requires Closes(ks) && Coherent(s) && SentInv(s) && Free(s, account)
    requires TruthfulLine(s.rows, s.fates, account, h) && LineOutcome(s.rows, account, h, rows', sales)
    ensures Reaches(s, ks, s') && Leaves(s, s', rows', SoldFates(s.rows, s.fates, account, h, rows'))
  {
    if PlanOf(h).Offer? {
      s' := SellIsARun(s, ks, account, h, rows', if sales.Ok? then Ok(sales.value[0]) else Err(sales.error));
    } else {
      ReachesSelf(s, ks);
      s' := s;
    }
  }

  /** Over an earlier close sale that the exchange holds open or has filled, a second one is written if and only if the
      query about it fails (and nothing else stops the new one). */
  lemma DoubleSaleExactly(rows: map<Key, Row>, fates: map<Key, Fate>, account: string, h: Holding, k: Key,
                          rows': map<Key, Row>, sale: Result<Sale>)
    requires PlanOf(h).Offer? && SellOutcome(rows, account, h, rows', sale) && TruthfulLine(rows, fates, account, h)
    requires OpenClose(rows, account, SymbolOf(h), k) && Stands(fates, k)
    ensures rows'.Keys != rows.Keys <==> h.lookup.LookupFails? && SaleCanBeRecorded(rows, account, h)
  {
    SecondSaleExactly(rows, account, h, rows', sale);
    assert TruthfulLookup(fates, k, h.lookup);
  }

  // ---------- a whole close ----------

  /** `SellRun` against a truthful exchange: each answer fits what has become of the orders when it is given. */
  ghost predicate HonestSells(rows: map<Key, Row>, fates: map<Key, Fate>, account: string, hs: seq<Holding>,
                              rows': map<Key, Row>, fates': map<Key, Fate>, sold: seq<Sale>)
    decreases |hs|
  {
    if hs == [] then rows' == rows && fates' == fates && sold == []
    else exists mid, midFates, before, sales ::
      HonestStage(rows, fates, account, hs, mid, midFates, before, sales, rows', fates') && sold == before + sales
  }

  ghost predicate HonestStage(rows: map<Key, Row>, fates: map<Key, Fate>, account: string, hs: seq<Holding>,
                              mid: map<Key, Row>, midFates: map<Key, Fate>, before: seq<Sale>, sales: seq<Sale>,
                              rows': map<Key, Row>, fates': map<Key, Fate>)
    requires hs != []
    decreases |hs|, 0
  {
    var h := hs[|hs| - 1];
    && HonestSells(rows, fates, account, hs[..|hs| - 1], mid, midFates, before)
    && TruthfulLine(mid, midFates, account, h)
    && LineOutcome(mid, account, h, rows', Ok(sales))
    && fates' == SoldFates(mid, midFates, account, h, rows')
  }

  /** Honesty only adds to what the service sees. */
  lemma {:induction false} HonestIsSellRun(rows: map<Key, Row>, fates: map<Key, Fate>, account: string,
      hs: seq<Holding>, rows': map<Key, Row>, fates': map<Key, Fate>, sold: seq<Sale>)
    requires HonestSells(rows, fates, account, hs, rows', fates', sold)
    ensures SellRun(rows, account, hs, rows', sold)
    decreases |hs|
  {
    if hs != [] {
      var mid, midFates, before, sales :|
        HonestStage(rows, fates, account, hs, mid, midFates, before, sales, rows', fates') && sold == before + sales;
      HonestIsSellRun(rows, fates, account, hs[..|hs| - 1], mid, midFates, before);
      assert SellStage(rows, account, hs, mid, before, sales, rows');
    }
  }

  /** Selling any list of holdings, line after line, is a run. */
  lemma {:induction false} SellRunIsARun(s: State, ks: Kinds, account: string, hs: seq<Holding>,
      rows': map<Key, Row>, fates': map<Key, Fate>, sold: seq<Sale>) returns (s': State)
    requires Closes(ks) && Coherent(s) && SentInv(s) && Free(s, account)
    requires HonestSells(s.rows, s.fates, account, hs, rows', fates', sold)
    ensures Reaches(s, ks, s') && Leaves(s, s', rows', fates')
    decreases |hs|
  {
    if hs == [] {
      ReachesSelf(s, ks);
      s' := s;
    } else {
      var mid, midFates, before, sales :|
        HonestStage(s.rows, s.fates, account, hs, mid, midFates, before, sales, rows', fates')
        && sold == before + sales;
      var s1 := SellRunIsARun(s, ks, account, hs[..|hs| - 1], mid, midFates, before);
      ReachedCoherent(s, ks, s1);
      ReachedIsSent(s, ks, s1);
      s' := LineIsARun(s1, ks, account, hs[|hs| - 1], rows', Ok(sales));
      ReachesOnward(s, s1, s', ks);
    }
  }

  /** A truthful exchange up to the line whose error ends the call, and during it. */
  ghost predicate HonestFailure(rows: map<Key, Row>, fates: map<Key, Fate>, account: string, hs: seq<Holding>,
                                n: nat, mid: map<Key, Row>, midFates: map<Key, Fate>, before: seq<Sale>,
                                rows': map<Key, Row>, fates': map<Key, Fate>, error: ErrorCode) {
    && n < |hs|
    && HonestSells(rows, fates, account, hs[..n], mid, midFates, before)
    && TruthfulLine(mid, midFates, account, hs[n])
    && LineOutcome(mid, account, hs[n], rows', Err(error))
    && fates' == SoldFates(mid, midFates, account, hs[n], rows')
  }

  lemma SellFailureIsARun(s: State, ks: Kinds, account: string, hs: seq<Holding>, n: nat, mid: map<Key, Row>,
      midFates: map<Key, Fate>, before: seq<Sale>, rows': map<Key, Row>, fates': map<Key, Fate>, error: ErrorCode)
      returns (s': State)
    requires Closes(ks) && Coherent(s) && SentInv(s) && Free(s, account)
    requires HonestFailure(s.rows, s.fates, account, hs, n, mid, midFates, before, rows', fates', error)
    ensures Reaches(s, ks, s') && Leaves(s, s', rows', fates')
  {
    var s1 := SellRunIsARun(s, ks, account, hs[..n], mid, midFates, before);
    ReachedCoherent(s, ks, s1);
    ReachedIsSent(s, ks, s1);
    s' := LineIsARun(s1, ks, account, hs[n], rows', Err(error));
    ReachesOnward(s, s1, s', ks);
  }

  ghost predicate HonestSelling(rows: map<Key, Row>, fates: map<Key, Fate>, account: string, hs: seq<Holding>,
                                rows': map<Key, Row>, fates': map<Key, Fate>, res: Result<CloseReport>) {
    if res.Ok? then HonestSells(rows, fates, account, hs, rows', fates', res.value.sold)
    else exists n, mid, midFates, before ::
      HonestFailure(rows, fates, account, hs, n, mid, midFates, before, rows', fates', res.error)
  }

  /** The call gets as far as the cancellations. */
  predicate Cancels(w: CloseWorld) {
    w.credentials.None? && w.openOrders.Ok?
  }

  /** The call gets as far as the sales. */
  predicate Sells(w: CloseWorld) {
    Cancels(w) && w.reached.None? && w.balances.Ok?
  }

  /** The exchange lists an open order under this key. */
  ghost predicate ListedOpen(account: string, orders: seq<ExchangeOrder>, k: Key) {
    k.account == account
    && exists i | 0 <= i < |orders| :: orders[i].idem == Some(k.idem) && orders[i].symbol != ""
  }

  /** Answers about listed orders that no resting row stands for are truthful as well. */
  ghost predicate TruthfulOrphans(rows: map<Key, Row>, fates: map<Key, Fate>, account: string,
                                  orders: seq<ExchangeOrder>, cancels: Key -> CancelAnswer) {
    forall k | ListedOpen(account, orders, k) && !(k in rows && Resting(rows[k].report.status)) ::
      TruthfulCancelAbout(FateOf(fates, k), false, cancels(k))
  }

  ghost predicate HonestCancels(rows: map<Key, Row>, fates: map<Key, Fate>, account: string, w: CloseWorld)
    requires w.openOrders.Ok?
  {
    && (forall k | k in ReachedTargets(rows, account, w) ::
          TruthfulCancelAbout(FateOf(fates, k), rows[k].oco, w.cancels(k)))
    && (w.reached.None? ==> TruthfulOrphans(rows, fates, account, w.openOrders.value, w.cancels))
  }

  /** A `_close_one` of a real account against a truthful exchange. */
  ghost predicate HonestClose(rows: map<Key, Row>, fates: map<Key, Fate>, account: string, w: CloseWorld,
                              rows': map<Key, Row>, fates': map<Key, Fate>, res: Result<CloseReport>) {
    && CloseOutcome(rows, account, true, w, rows', res)
    && (Cancels(w) ==> HonestCancels(rows, fates, account, w))
    && if Sells(w) then
         var mid := CancelledRows(rows, ReachedTargets(rows, account, w), w.cancels);
         HonestSelling(mid, fates, account, w.balances.value, rows', fates', res)
       else fates' == fates
  }

  /** The close writes an untrue status: it takes a cancellation for verified that was not, over a filled order, or reads
      a cancelled OCO as FILLED. */
  ghost predicate CloseLies(rows: map<Key, Row>, fates: map<Key, Fate>, account: string, w: CloseWorld) {
    Cancels(w) && AnyLies(rows, fates, ReachedTargets(rows, account, w), w.cancels)
  }

  /** The kinds of steps of a real close: none is blind, and none lies unless the close does. */
  ghost function CloseKinds(rows: map<Key, Row>, fates: map<Key, Fate>, account: string, w: CloseWorld): Kinds {
    {Opening, Moving, Finishing} + (if CloseLies(rows, fates, account, w) then {LyingMove} else {})
  }

  lemma CancelStageIsARun(s: State, ks: Kinds, account: string, w: CloseWorld)
    requires Closes(ks) && Coherent(s) && Free(s, account) && Cancels(w) && HonestCancels(s.rows, s.fates, account, w)
    requires AnyLies(s.rows, s.fates, ReachedTargets(s.rows, account, w), w.cancels) ==> LyingMove in ks
    ensures Reaches(s, ks, s.(rows := CancelledRows(s.rows, ReachedTargets(s.rows, account, w), w.cancels)))
  {
    var keys := ReachedTargets(s.rows, account, w);
    forall k | k in keys ensures TruthfulCancel(s, k, w.cancels(k)) {
      assert TruthfulCancelAbout(FateOf(s.fates, k), s.rows[k].oco, w.cancels(k));
    }
    CancellingIsARun(s, ks, account, keys, w.cancels);
  }

  lemma SalesStageIsARun(s: State, ks: Kinds, account: string, hs: seq<Holding>, rows': map<Key, Row>,
                         fates': map<Key, Fate>, res: Result<CloseReport>) returns (s': State)
    requires Closes(ks) && Coherent(s) && SentInv(s) && Free(s, account)
    requires HonestSelling(s.rows, s.fates, account, hs, rows', fates', res)
    ensures Reaches(s, ks, s') && Leaves(s, s', rows', fates')
  {
    if res.Ok? {
      s' := SellRunIsARun(s, ks, account, hs, rows', fates', res.value.sold);
    } else {
      var n, mid, midFates, before :|
        HonestFailure(s.rows, s.fates, account, hs, n, mid, midFates, before, rows', fates', res.error);
      s' := SellFailureIsARun(s, ks, account, hs, n, mid, midFates, before, rows', fates', res.error);
    }
  }

  lemma HonestCloseIsARun(s: State, account: string, w: CloseWorld, rows': map<Key, Row>, fates': map<Key, Fate>,
                          res: Result<CloseReport>) returns (s': State)
    requires Coherent(s) && SentInv(s) && Free(s, account)
    requires HonestClose(s.rows, s.fates, account, w, rows', fates', res)
    ensures Reaches(s, CloseKinds(s.rows, s.fates, account, w), s') && Leaves(s, s', rows', fates')
  {
    var ks := CloseKinds(s.rows, s.fates, account, w);
    if !Cancels(w) {
      ReachesSelf(s, ks);
      s' := s;
    } else {
      CancelStageIsARun(s, ks, account, w);
      var s1 := s.(rows := CancelledRows(s.rows, ReachedTargets(s.rows, account, w), w.cancels));
      if Sells(w) {
        ReachedCoherent(s, ks, s1);
        ReachedIsSent(s, ks, s1);
        s' := SalesStageIsARun(s1, ks, account, w.balances.value, rows', fates', res);
        ReachesOnward(s, s1, s', ks);
      } else {
        s' := s1;
      }
    }
  }

  /** Whatever one `_close_one` of a real account does, to whatever point it gets, is a run of the protocol without a
      blind cancellation; `ended` are the orders that the exchange ends in the meantime, asked to or not. */
  lemma CloseIsARun(s: State, account: string, w: CloseWorld, ended: map<Key, Fate>, rows': map<Key, Row>,
                    fates': map<Key, Fate>, res: Result<CloseReport>) returns (s': State)
    requires Coherent(s) && SentInv(s) && Free(s, account) && MayEnd(s, ended)
    requires HonestClose(s.rows, EndedFates(s.fates, ended), account, w, rows', fates', res)
    ensures Reaches(s, CloseKinds(s.rows, EndedFates(s.fates, ended), account, w), s')
    ensures Leaves(s, s', rows', fates')
  {
    var s1 := s.(fates := EndedFates(s.fates, ended));
    var ks := CloseKinds(s.rows, s1.fates, account, w);
    EndedIsCoherent(s, ks, ended);
    s' := HonestCloseIsARun(s1, account, w, rows', fates', res);
    ReachesOnward(s, s1, s', ks);
  }

  lemma EndedIsCoherent(s: State, ks: Kinds, ended: map<Key, Fate>)
    requires Coherent(s) && SentInv(s) && MayEnd(s, ended) && Finishing in ks
    ensures Coherent(s.(fates := EndedFates(s.fates, ended))) && SentInv(s.(fates := EndedFates(s.fates, ended)))
    ensures Reaches(s, ks, s.(fates := EndedFates(s.fates, ended)))
  {
    FinishingIsARun(s, ks, ended);
    ReachedCoherent(s, ks, s.(fates := EndedFates(s.fates, ended)));
    ReachedIsSent(s, ks, s.(fates := EndedFates(s.fates, ended)));
  }

  lemma LyingCancelShows(s: State, keys: set<Key>, cancels: Key -> CancelAnswer, k: Key)
    requires keys <= s.rows.Keys && k in keys && TruthfulCancelAbout(FateOf(s.fates, k), s.rows[k].oco, cancels(k))
    requires CancelLies(FateOf(s.fates, k), s.rows[k].oco, cancels(k))
    ensures k in s.fates && !s.fates[k].Alive? && !RowTrue(CancelledRows(s.rows, keys, cancels), s.fates, k)
  {
    CancelTellsTruthExactly(s.rows[k].report, FateOf(s.fates, k), s.rows[k].oco, cancels(k));
  }

  /** A lie of the cancellations is still there when the call ends. */
  lemma LyingCloseShows(s: State, account: string, w: CloseWorld, rows': map<Key, Row>, fates': map<Key, Fate>,
                        res: Result<CloseReport>)
    requires Coherent(s) && SentInv(s) && Free(s, account)
    requires HonestClose(s.rows, s.fates, account, w, rows', fates', res) && CloseLies(s.rows, s.fates, account, w)
    ensures !RowsTrue(rows', fates')
  {
    var keys := ReachedTargets(s.rows, account, w);
    var ks := CloseKinds(s.rows, s.fates, account, w);
    var k :| k in keys && CancelLies(FateOf(s.fates, k), s.rows[k].oco, w.cancels(k));
    LyingCancelShows(s, keys, w.cancels, k);
    var s1 := s.(rows := CancelledRows(s.rows, keys, w.cancels));
    if Sells(w) {
      CancelStageIsARun(s, ks, account, w);
      ReachedCoherent(s, ks, s1);
      ReachedIsSent(s, ks, s1);
      var s' := SalesStageIsARun(s1, ks, account, w.balances.value, rows', fates', res);
      LieReached(s1, ks, s', k);
    } else {
      assert rows' == s1.rows && fates' == s1.fates;
    }
  }

  lemma LyingCloseStays(s: State, account: string, w: CloseWorld, ended: map<Key, Fate>, rows': map<Key, Row>,
                        fates': map<Key, Fate>, res: Result<CloseReport>)
    requires Coherent(s) && SentInv(s) && Free(s, account) && MayEnd(s, ended)
    requires HonestClose(s.rows, EndedFates(s.fates, ended), account, w, rows', fates', res)
    requires CloseLies(s.rows, EndedFates(s.fates, ended), account, w)
    ensures !RowsTrue(rows', fates')
  {
    EndedIsCoherent(s, {Finishing}, ended);
    LyingCloseShows(s.(fates := EndedFates(s.fates, ended)), account, w, rows', fates', res);
  }

  lemma CloseKindsLie(rows: map<Key, Row>, fates: map<Key, Fate>, account: string, w: CloseWorld)
    ensures var ks := CloseKinds(rows, fates, account, w);
            && BlindClosing !in ks && Spending !in ks && Governing !in ks
            && (!CloseLies(rows, fates, account, w) ==> ks !! LIES)
  {
  }

  /** What a real close keeps: terminal rows idle, every exposure ceiling, and stored statuses true if and only if it
      does not write one of the two lies. */
  lemma CloseKeeps(s: State, account: string, w: CloseWorld, ended: map<Key, Fate>, rows': map<Key, Row>,
                   fates': map<Key, Fate>, res: Result<CloseReport>) returns (s': State)
    requires Coherent(s) && SentInv(s) && Free(s, account) && MayEnd(s, ended)
    requires HonestClose(s.rows, EndedFates(s.fates, ended), account, w, rows', fates', res)
    ensures Coherent(s') && SentInv(s') && Leaves(s, s', rows', fates')
    ensures IdleInv(s) ==> IdleInv(s')
    ensures forall other, cap | CeilingInv(s, other, cap) :: CeilingInv(s', other, cap)
    ensures TruthInv(s) ==> (TruthInv(s') <==> !CloseLies(s.rows, EndedFates(s.fates, ended), account, w))
  {
    var fates := EndedFates(s.fates, ended);
    var ks := CloseKinds(s.rows, fates, account, w);
    s' := CloseIsARun(s, account, w, ended, rows', fates', res);
    CloseKindsLie(s.rows, fates, account, w);
    ReachedKeeps(s, ks, s');
    ReachedCoherent(s, ks, s');
    ReachedIsSent(s, ks, s');
    if CloseLies(s.rows, fates, account, w) {
      LyingCloseStays(s, account, w, ended, rows', fates', res);
    }
  }

  /** What the close of a paper account keeps: every exposure ceiling, and terminal rows idle if and only if none of the
      rows it closes has an order that may still fill. */
  lemma PaperCloseKeeps(s: State, account: string, keys: set<Key>) returns (s': State)
    requires Coherent(s) && SentInv(s) && Free(s, account)
    requires forall k | k in keys :: k in s.rows && k.account == account && Resting(s.rows[k].report.status)
    ensures s' == s.(rows := PaperClosedRows(s.rows, keys))
    ensures forall other, cap | CeilingInv(s, other, cap) :: CeilingInv(s', other, cap)
    ensures IdleInv(s) ==> (IdleInv(s') <==> !AnyFate(s.fates, keys, Alive))
    ensures TruthInv(s) ==> (TruthInv(s') <==> !AnyFate(s.fates, keys, Alive) && !AnyFate(s.fates, keys, Done))
  {
    s' := s.(rows := PaperClosedRows(s.rows, keys));
    var ks := PaperKinds(s.fates, keys);
    PaperCancellingIsARun(s, account, keys);
    ReachedKeeps(s, ks, s');
    if AnyFate(s.fates, keys, Alive) {
      BlindPaperShows(s, keys);
    }
    if AnyFate(s.fates, keys, Alive) || AnyFate(s.fates, keys, Done) {
      LyingPaperShows(s.rows, s.fates, keys);
    }
  }

  lemma BlindPaperShows(s: State, keys: set<Key>)
    requires keys <= s.rows.Keys && AnyFate(s.fates, keys, Alive)
    ensures !TerminalIsIdle(s.(rows := PaperClosedRows(s.rows, keys)))
  {
    var s' := s.(rows := PaperClosedRows(s.rows, keys));
    var k :| k in keys && FateOf(s.fates, k) == Some(Alive);
    assert Working(s', k) && Terminal(s'.rows[k].report.status);
  }

  lemma LyingPaperShows(rows: map<Key, Row>, fates: map<Key, Fate>, keys: set<Key>)
    requires keys <= rows.Keys && (AnyFate(fates, keys, Alive) || AnyFate(fates, keys, Done))
    ensures !RowsTrue(PaperClosedRows(rows, keys), fates)
  {
    var k :| k in keys && Stands(fates, k);
    StandingIsNotClosed(fates, k);
    assert !RowTrue(PaperClosedRows(rows, keys), fates, k);
  }

  lemma StandingIsNotClosed(fates: map<Key, Fate>, k: Key)
    requires Stands(fates, k)
    ensures !StatusTrue(Canceled, FateOf(fates, k))
  {
    if FateOf(fates, k) == Some(Alive) {
      assert !StatusTrue(Canceled, Some(Alive));
    } else {
      assert !StatusTrue(Canceled, Some(Done));
    }
  }

  // ---------- what `closed` means at the exchange ----------

  predicate NoneAlive(fates: map<Key, Fate>, account: string) {
    forall k | k in fates && k.account == account :: !fates[k].Alive?
  }

  /** A sale reported FILLED adds no open order. */
  lemma FilledLineAddsNone(rows: map<Key, Row>, fates: map<Key, Fate>, account: string, h: Holding,
                           rows': map<Key, Row>, sales: seq<Sale>)
    requires TruthfulLine(rows, fates, account, h) && LineOutcome(rows, account, h, rows', Ok(sales))
    requires AllFilled(sales) && NoneAlive(fates, account)
    ensures NoneAlive(SoldFates(rows, fates, account, h, rows'), account)
  {
    if PlanOf(h).Offer? {
      assert sales[0].Sold? && sales[0].status.Filled?;
    }
  }

  lemma {:induction false} FilledSalesAddNone(rows: map<Key, Row>, fates: map<Key, Fate>, account: string,
      hs: seq<Holding>, rows': map<Key, Row>, fates': map<Key, Fate>, sold: seq<Sale>)
    requires HonestSells(rows, fates, account, hs, rows', fates', sold) && AllFilled(sold) && NoneAlive(fates, account)
    ensures NoneAlive(fates', account)
    decreases |hs|
  {
    if hs != [] {
      var mid, midFates, before, sales :|
        HonestStage(rows, fates, account, hs, mid, midFates, before, sales, rows', fates') && sold == before + sales;
      assert forall i | 0 <= i < |before| :: sold[i] == before[i];
      assert forall i | 0 <= i < |sales| :: sold[|before| + i] == sales[i];
      FilledSalesAddNone(rows, fates, account, hs[..|hs| - 1], mid, midFates, before);
      FilledLineAddsNone(mid, midFates, account, hs[|hs| - 1], rows', sales);
    }
  }

  /** An order that is a resting row of the account, or is listed, is ended by cancellations that report no fault. */
  lemma FaultlessCancelsEnd(rows: map<Key, Row>, fates: map<Key, Fate>, account: string, w: CloseWorld,
                            faults: seq<Fault>, k: Key)
    requires Named(rows) && w.openOrders.Ok? && w.reached.None? && HonestCancels(rows, fates, account, w)
    requires FaultsOk(rows, account, w.openOrders.value, w, faults) && faults == []
    requires k in Targets(rows, account) || ListedOpen(account, w.openOrders.value, k)
    ensures FateOf(fates, k) != Some(Alive)
  {
    if k in rows && Resting(rows[k].report.status) {
      assert RowFault(k) !in faults;
      NoErrorNotAlive(FateOf(fates, k), rows[k].oco, w.cancels(k));
    } else {
      assert OrphanFault(k.idem) !in faults;
      OrphanIsAsked(rows, account, w, k);
      NoErrorNotAlive(FateOf(fates, k), false, w.cancels(k));
    }
  }

  lemma OrphanIsAsked(rows: map<Key, Row>, account: string, w: CloseWorld, k: Key)
    requires w.openOrders.Ok? && ListedOpen(account, w.openOrders.value, k)
    requires !(k in rows && Resting(rows[k].report.status))
    requires !ListsOrphan(rows, account, w.openOrders.value, w, k.idem)
    ensures !CancelIsError(w.cancels(k))
  {
    var orders := w.openOrders.value;
    var i :| 0 <= i < |orders| && orders[i].idem == Some(k.idem) && orders[i].symbol != "";
    assert Key(account, k.idem) == k;
    assert !OrphanFails(rows, account, orders[i], w.cancels);
  }

  /** `closed` means closed at the exchange: when every open order of the account that has a key is a resting row of the
      table, or is listed, or ends by itself, then a close that reports `closed` leaves none of them open. This includes
      the orders behind UNKNOWN rows, and behind rows that wrongly read as settled. */
  lemma ClosedMeansNoneAlive(s: State, account: string, w: CloseWorld, ended: map<Key, Fate>, rows': map<Key, Row>,
                             fates': map<Key, Fate>, res: Result<CloseReport>)
    requires MayEnd(s, ended) && Named(s.rows)
    requires HonestClose(s.rows, EndedFates(s.fates, ended), account, w, rows', fates', res)
    requires res.Ok? && res.value.closed
    requires forall k | Working(s, k) && k.account == account && k !in ended ::
               k in Targets(s.rows, account) || ListedOpen(account, w.openOrders.value, k)
    ensures NoneAlive(fates', account)
  {
    var fates := EndedFates(s.fates, ended);
    forall k | k in fates && k.account == account ensures !fates[k].Alive? {
      if Working(s, k) && k !in ended {
        FaultlessCancelsEnd(s.rows, fates, account, w, res.value.faults, k);
      }
    }
    var mid := CancelledRows(s.rows, ReachedTargets(s.rows, account, w), w.cancels);
    FilledSalesAddNone(mid, fates, account, w.balances.value, rows', fates', res.value.sold);
  }

  /** Every row of a reachable state names its symbol. */
  lemma {:induction false} NamedRun(s: State, steps: seq<Step>)
    requires Legal(s, steps) && Named(s.rows)
    ensures Named(Run(s, steps).rows)
    decreases |steps|
  {
    if steps != [] {
      NamedStep(s, steps[0]);
      NamedRun(Apply(s, steps[0]), steps[1..]);
    }
  }

  lemma NamedStep(s: State, step: Step)
    requires Coherent(s) && Named(s.rows) && Enabled(s, step)
    ensures Named(Apply(s, step).rows)
  {
    RowsGrowStep(s, step);
    forall k | k in Apply(s, step).rows ensures Apply(s, step).rows[k].symbol != "" {
      if k in s.rows {
        assert RowGrows(s.rows[k], Apply(s, step).rows[k]);
      } else {
        NewRowIsInserted(s, step, k);
        assert TaskCoherent(s, step.account, s.holds[step.account].task);
      }
    }
  }
}
