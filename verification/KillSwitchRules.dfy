/** What the startup reconcile and the kill switch of `storage/orders.py` leave behind, and what that guarantees. */
module KillSwitchRules {
  import opened Basics
  import opened OrderRules
  import opened OrderProtocol
  import opened OrderPlacing
  import opened OrderSafety
  import opened Sizing
  import opened OrderValidation

  // ---------- startup reconcile ----------

  /** One query at startup: a canonical error leaves the row alone. */
  datatype StartupAnswer = QueryError | Answered(found: Option<Report>)

  predicate Stuck(rows: map<Key, Row>, k: Key, reals: set<string>) {
    k in rows && k.account in reals && Uncertain(rows[k].report.status)
  }

  function StuckKeys(rows: map<Key, Row>, reals: set<string>): set<Key> {
    set k | k in rows && Stuck(rows, k, reals)
  }

  /** The query found exactly the stored columns. */
  predicate SameAsStored(stored: Report, ans: StartupAnswer) {
    ans.Answered? && ans.found.Some? && !ans.found.value.status.Unknown? && ans.found.value == stored
  }

  function ReconciledReport(stored: Report, ans: StartupAnswer): Report {
    if ans.Answered? then AfterStartup(stored, ans.found) else stored
  }

  /** The table once the rows of `keys` are reconciled. */
  function ReconciledRows(rows: map<Key, Row>, keys: set<Key>, answers: Key -> StartupAnswer): map<Key, Row> {
    map k | k in rows ::
      if k in keys then rows[k].(report := ReconciledReport(rows[k].report, answers(k))) else rows[k]
  }

  lemma ReconciledOneMore(rows: map<Key, Row>, keys: set<Key>, answers: Key -> StartupAnswer, k: Key)
    requires k in rows && k !in keys
    ensures ReconciledRows(rows, keys, answers)[k := rows[k].(report := ReconciledReport(rows[k].report, answers(k)))]
         == ReconciledRows(rows, keys + {k}, answers)
  {
  }

  /** The rows a startup query confirmed. */
  function SameKeys(rows: map<Key, Row>, keys: set<Key>, answers: Key -> StartupAnswer): set<Key>
    requires keys <= rows.Keys
  {
    set k | k in keys && SameAsStored(rows[k].report, answers(k))
  }

  /** The rows whose startup query failed. */
  function ErrorKeys(keys: set<Key>, answers: Key -> StartupAnswer): set<Key> {
    set k | k in keys && answers(k).QueryError?
  }

  lemma CountsGrow(rows: map<Key, Row>, keys: set<Key>, answers: Key -> StartupAnswer, k: Key)
    requires keys <= rows.Keys && k in rows && k !in keys
    ensures |SameKeys(rows, keys + {k}, answers)|
         == |SameKeys(rows, keys, answers)| + if SameAsStored(rows[k].report, answers(k)) then 1 else 0
    ensures ErrorKeys(keys + {k}, answers) == ErrorKeys(keys, answers) + if answers(k).QueryError? then {k} else {}
    ensures k !in ErrorKeys(keys, answers)
  {
    var same := SameKeys(rows, keys, answers);
    if SameAsStored(rows[k].report, answers(k)) {
      assert SameKeys(rows, keys + {k}, answers) == same + {k};
    } else {
      assert SameKeys(rows, keys + {k}, answers) == same;
    }
  }

  datatype StartupSummary = StartupSummary(scanned: nat, reconciled: nat, same: nat, errors: set<Key>)

  /** The summary accounts for every scanned row exactly once. */
  ghost predicate Tallied(rows: map<Key, Row>, keys: set<Key>, answers: Key -> StartupAnswer, sum: StartupSummary) {
    && keys <= rows.Keys
    && sum.errors == ErrorKeys(keys, answers)
    && sum.same == |SameKeys(rows, keys, answers)|
    && sum.scanned == |keys| == sum.reconciled + sum.same + |sum.errors|
  }

  /** One more scanned row: an error, a confirmation, or a write. */
  function Tally(sum: StartupSummary, k: Key, wrote: Option<bool>): StartupSummary {
    if wrote.None? then sum.(scanned := sum.scanned + 1, errors := sum.errors + {k})
    else if wrote.value then sum.(scanned := sum.scanned + 1, reconciled := sum.reconciled + 1)
    else sum.(scanned := sum.scanned + 1, same := sum.same + 1)
  }

  lemma TallyGrows(rows: map<Key, Row>, keys: set<Key>, answers: Key -> StartupAnswer, sum: StartupSummary, k: Key)
    requires Tallied(rows, keys, answers, sum) && k in rows && k !in keys
    ensures var wrote := if answers(k).QueryError? then None else Some(!SameAsStored(rows[k].report, answers(k)));
            Tallied(rows, keys + {k}, answers, Tally(sum, k, wrote))
  {
    CountsGrow(rows, keys, answers, k);
  }

  // ---------- kill switch: cancelling ----------

  /** An order the exchange lists as open; the client id stands for the idempotency key it was made from. */
  datatype ExchangeOrder = ExchangeOrder(idem: Option<string>, symbol: string)

  /** How the query about an earlier close sale ends: an error that ends the call, a canonical error, which the code takes
      for "no such order", or an answer. */
  datatype Lookup = LookupRaises(code: ErrorCode) | LookupFails | LookupSays(found: Option<Report>)

  function Heard(lookup: Lookup): Option<Report> {
    if lookup.LookupSays? then lookup.found else None
  }

  /** A balance line with what the market knows about selling it, the answer to a query about an earlier close, and
      what becomes of a new sale under a key of this run. */
  datatype Holding = Holding(
    asset: string,
    free: real,
    trouble: Option<ErrorCode>,      // an error while the market is asked about the symbol
    known: bool,
    price: Option<real>,
    filters: Option<Filters>,
    lookup: Lookup,
    tag: string,
    placement: Placement)

  datatype CloseWorld = CloseWorld(
    credentials: Option<ErrorCode>,
    openOrders: Result<seq<ExchangeOrder>>,
    bulkOk: nat -> bool,
    cancels: Key -> CancelAnswer,
    reached: Option<set<Key>>,       // the rows already dealt with when an uncaught error ends the cancelling
    balances: Result<seq<Holding>>)

  datatype Fault = RowFault(key: Key) | OrphanFault(idem: string) | BulkFault(symbol: string)

  datatype Sale = Skipped(symbol: string) | Sold(symbol: string, key: Key, status: Status)

  datatype CloseReport = CloseReport(closed: bool, simulated: bool, faults: seq<Fault>, sold: seq<Sale>)

  /** The local rows the kill switch cancels. */
  predicate Target(rows: map<Key, Row>, account: string, k: Key) {
    k in rows && k.account == account && Resting(rows[k].report.status) && rows[k].symbol != ""
  }

  function Targets(rows: map<Key, Row>, account: string): set<Key> {
    set k | k in rows && Target(rows, account, k)
  }

  /** The targets the call gets to. */
  function ReachedTargets(rows: map<Key, Row>, account: string, w: CloseWorld): set<Key> {
    if w.reached.Some? then Targets(rows, account) * w.reached.value else Targets(rows, account)
  }

  function CancelledRows(rows: map<Key, Row>, keys: set<Key>, cancels: Key -> CancelAnswer): map<Key, Row> {
    map k | k in rows ::
      if k in keys then rows[k].(report := AfterCancel(rows[k].report, cancels(k))) else rows[k]
  }

  function PaperClosedRows(rows: map<Key, Row>, keys: set<Key>): map<Key, Row> {
    map k | k in rows ::
      if k in keys then rows[k].(report := rows[k].report.(status := Canceled)) else rows[k]
  }

  predicate OrphanFails(rows: map<Key, Row>, account: string, o: ExchangeOrder, cancels: Key -> CancelAnswer) {
    && o.idem.Some? && o.symbol != ""
    && var k := Key(account, o.idem.value);
       !(k in rows && k.account == account && Resting(rows[k].report.status)) && CancelIsError(cancels(k))
  }

  predicate BulkFails(o: ExchangeOrder, ok: bool) {
    o.idem.None? && o.symbol != "" && !ok
  }

  ghost predicate ListsOrphan(rows: map<Key, Row>, account: string, orders: seq<ExchangeOrder>, w: CloseWorld,
                              idem: string) {
    exists i | 0 <= i < |orders| :: orders[i].idem == Some(idem) && OrphanFails(rows, account, orders[i], w.cancels)
  }

  ghost predicate ListsBulk(orders: seq<ExchangeOrder>, w: CloseWorld, symbol: string) {
    exists i: nat | i < |orders| :: orders[i].symbol == symbol && BulkFails(orders[i], w.bulkOk(i))
  }

  /** What the fault list holds, kind by kind. */
  ghost predicate FaultsOk(rows: map<Key, Row>, account: string, orders: seq<ExchangeOrder>, w: CloseWorld,
                           faults: seq<Fault>) {
    && (forall k :: RowFault(k) in faults <==> k in Targets(rows, account) && CancelIsError(w.cancels(k)))
    && (forall idem :: OrphanFault(idem) in faults <==> ListsOrphan(rows, account, orders, w, idem))
    && (forall symbol :: BulkFault(symbol) in faults <==> ListsBulk(orders, w, symbol))
  }

  lemma ListsOneMore(rows: map<Key, Row>, account: string, orders: seq<ExchangeOrder>, w: CloseWorld, n: nat)
    requires n < |orders|
    ensures forall idem :: ListsOrphan(rows, account, orders[..n + 1], w, idem) <==>
              ListsOrphan(rows, account, orders[..n], w, idem)
              || (orders[n].idem == Some(idem) && OrphanFails(rows, account, orders[n], w.cancels))
    ensures forall symbol :: ListsBulk(orders[..n + 1], w, symbol) <==>
              ListsBulk(orders[..n], w, symbol) || (orders[n].symbol == symbol && BulkFails(orders[n], w.bulkOk(n)))
  {
    var now, next := orders[..n], orders[..n + 1];
    assert next == now + [orders[n]];
    assert forall i | 0 <= i < n :: next[i] == now[i];
    assert next[n] == orders[n];
    forall symbol
      ensures ListsBulk(next, w, symbol) <==>
              ListsBulk(now, w, symbol) || (orders[n].symbol == symbol && BulkFails(orders[n], w.bulkOk(n)))
    {
      if ListsBulk(now, w, symbol) {
        var i: nat :| i < |now| && now[i].symbol == symbol && BulkFails(now[i], w.bulkOk(i));
        assert next[i].symbol == symbol && BulkFails(next[i], w.bulkOk(i));
      }
      if orders[n].symbol == symbol && BulkFails(orders[n], w.bulkOk(n)) {
        assert next[n].symbol == symbol && BulkFails(next[n], w.bulkOk(n));
      }
    }
  }

  // ---------- kill switch: selling ----------

  const QUOTE_ASSET := "USDT"

  datatype Plan = Ignore | Trouble(code: ErrorCode) | Skip | Offer(quantity: real)

  function SymbolOf(h: Holding): string {
    h.asset + QUOTE_ASSET
  }

  /** Assets outside the universe are passed over in silence; the others are sold or listed as skipped. */
  function PlanOf(h: Holding): Plan {
    if h.asset == QUOTE_ASSET || h.free <= 0.0 then Ignore
    else if h.trouble.Some? then Trouble(h.trouble.value)
    else if !h.known then Ignore
    else if h.price.None? || h.filters.None? then Skip
    else
      var quantity := RoundDownToStep(h.free, h.filters.value.stepSize);
      if quantity < h.filters.value.minQty then Skip else Offer(quantity)
  }

  /** An earlier close sale of the symbol that is still in flight. */
  predicate OpenClose(rows: map<Key, Row>, account: string, symbol: string, k: Key) {
    && k in rows && k.account == account && rows[k].symbol == symbol && rows[k].side.Sell?
    && CLOSE_PREFIX <= k.idem && Uncertain(rows[k].report.status)
  }

  ghost predicate AnyOpenClose(rows: map<Key, Row>, account: string, symbol: string) {
    exists k :: OpenClose(rows, account, symbol, k)
  }

  /** The exchange's answer about the earlier sale rules a second one out. */
  predicate StillStands(status: Status) {
    Uncertain(status) || status.Filled?
  }

  function SaleDraft(account: string, h: Holding, quantity: real): Draft
    requires h.price.Some?
  {
    Draft(Key(account, CLOSE_PREFIX + h.tag), SymbolOf(h), Side.Sell, false, quantity, quantity * h.price.value, true)
  }

  predicate SaleIsValid(h: Holding, quantity: real)
    requires h.price.Some?
  {
    ValidateOrder(Order(Side.Sell, Market, quantity, None, None, None), None, h.price).Ok?
  }

  /** What the close reports for the reply of `_place_and_record`. */
  function SaleOf(d: Draft, reply: Reply): Result<Sale> {
    match reply
    case RowReply(_, report) => Ok(Sold(d.symbol, d.key, report.status))
    case Refusal(code) => Err(code)
    case Failure => Err(InternalError)
  }

  /** A new sale: refused by validation, refused by the unique key, or placed. */
  ghost predicate FreshSale(rows: map<Key, Row>, account: string, h: Holding, quantity: real,
                            rows': map<Key, Row>, sale: Result<Sale>)
    requires h.price.Some?
  {
    var d := SaleDraft(account, h, quantity);
    if !SaleIsValid(h, quantity) then rows' == rows && sale == Err(InvalidRequest)
    else if d.key in rows then rows' == rows && sale == Err(InternalError)
    else rows' == PlacedRows(rows, d, KillSwitch, h.placement) && sale == SaleOf(d, PlacedReply(d, h.placement))
  }

  /** The earlier sale takes over what the exchange says; a new one follows only when it failed or nothing is said. */
  ghost predicate ResumedSale(rows: map<Key, Row>, account: string, h: Holding, quantity: real, k: Key,
                              rows': map<Key, Row>, sale: Result<Sale>)
    requires h.price.Some? && k in rows
  {
    if h.lookup.LookupRaises? then rows' == rows && sale == Err(h.lookup.code)
    else if Heard(h.lookup).None? then FreshSale(rows, account, h, quantity, rows', sale)
    else
      var found := Heard(h.lookup).value;
      var synced := rows[k := rows[k].(report := found)];
      if StillStands(found.status) then rows' == synced && sale == Ok(Sold(SymbolOf(h), k, found.status))
      else FreshSale(synced, account, h, quantity, rows', sale)
  }

  ghost predicate SellOutcome(rows: map<Key, Row>, account: string, h: Holding,
                              rows': map<Key, Row>, sale: Result<Sale>)
    requires PlanOf(h).Offer?
  {
    var quantity := PlanOf(h).quantity;
    if AnyOpenClose(rows, account, SymbolOf(h)) then
      exists k :: OpenClose(rows, account, SymbolOf(h), k) && ResumedSale(rows, account, h, quantity, k, rows', sale)
    else FreshSale(rows, account, h, quantity, rows', sale)
  }

  /** One balance line: nothing, a skipped line, or a sale. */
  ghost predicate LineOutcome(rows: map<Key, Row>, account: string, h: Holding,
                              rows': map<Key, Row>, sales: Result<seq<Sale>>) {
    match PlanOf(h)
    case Ignore => rows' == rows && sales == Ok([])
    case Skip => rows' == rows && sales == Ok([Skipped(SymbolOf(h))])
    case Trouble(code) => rows' == rows && sales == Err(code)
    case Offer(_) =>
      if sales.Ok? then |sales.value| == 1 && SellOutcome(rows, account, h, rows', Ok(sales.value[0]))
      else SellOutcome(rows, account, h, rows', Err(sales.error))
  }

  /** All lines, one after the other, without an error. */
  ghost predicate SellRun(rows: map<Key, Row>, account: string, hs: seq<Holding>, rows': map<Key, Row>, sold: seq<Sale>)
    decreases |hs|
  {
    if hs == [] then rows' == rows && sold == []
    else exists mid, before, sales :: SellStage(rows, account, hs, mid, before, sales, rows') && sold == before + sales
  }

  ghost predicate SellStage(rows: map<Key, Row>, account: string, hs: seq<Holding>, mid: map<Key, Row>,
                            before: seq<Sale>, sales: seq<Sale>, rows': map<Key, Row>)
    requires hs != []
    decreases |hs|, 0
  {
    && SellRun(rows, account, hs[..|hs| - 1], mid, before)
    && LineOutcome(mid, account, hs[|hs| - 1], rows', Ok(sales))
  }

  lemma OneMoreLine(rows: map<Key, Row>, account: string, hs: seq<Holding>, n: nat, mid: map<Key, Row>,
                    before: seq<Sale>, rows': map<Key, Row>, sales: seq<Sale>)
    requires n < |hs| && SellRun(rows, account, hs[..n], mid, before)
    requires LineOutcome(mid, account, hs[n], rows', Ok(sales))
    ensures SellRun(rows, account, hs[..n + 1], rows', before + sales)
  {
    var now := hs[..n + 1];
    assert now[..n] == hs[..n];
    assert SellStage(rows, account, now, mid, before, sales, rows');
  }

  /** The error of the first line that fails ends the run. */
  ghost predicate SellFailure(rows: map<Key, Row>, account: string, hs: seq<Holding>, n: nat, mid: map<Key, Row>,
                              before: seq<Sale>, rows': map<Key, Row>, error: ErrorCode) {
    && n < |hs|
    && SellRun(rows, account, hs[..n], mid, before)
    && LineOutcome(mid, account, hs[n], rows', Err(error))
  }

  predicate AllFilled(sold: seq<Sale>) {
    forall i | 0 <= i < |sold| :: sold[i].Sold? && sold[i].status.Filled?
  }

  /** `_close_one`, as a relation. */
  ghost predicate CloseOutcome(rows: map<Key, Row>, account: string, isReal: bool, w: CloseWorld,
                               rows': map<Key, Row>, res: Result<CloseReport>) {
    var reached := ReachedTargets(rows, account, w);
    if !isReal then
      && rows' == PaperClosedRows(rows, reached)
      && res == if w.reached.Some? then Err(InternalError) else Ok(CloseReport(false, true, [], []))
    else if w.credentials.Some? then rows' == rows && res == Err(w.credentials.value)
    else if w.openOrders.Err? then rows' == rows && res == Err(w.openOrders.error)
    else
      var mid := CancelledRows(rows, reached, w.cancels);
      if w.reached.Some? then rows' == mid && res == Err(InternalError)
      else if w.balances.Err? then rows' == mid && res == Err(w.balances.error)
      else if res.Ok? then
        && !res.value.simulated
        && FaultsOk(rows, account, w.openOrders.value, w, res.value.faults)
        && SellRun(mid, account, w.balances.value, rows', res.value.sold)
        && (res.value.closed <==> res.value.faults == [] && AllFilled(res.value.sold))
      else
        exists n, m, before :: SellFailure(mid, account, w.balances.value, n, m, before, rows', res.error)
  }

  // ---------- what a close guarantees ----------

  ghost predicate Named(rows: map<Key, Row>) {
    forall k | k in rows :: rows[k].symbol != ""
  }

  /** The row was touched by a sale that the report lists with the row's own status. */
  ghost predicate Listed(sold: seq<Sale>, k: Key, status: Status) {
    exists i | 0 <= i < |sold| :: sold[i].Sold? && sold[i].key == k && sold[i].status == status
  }

  predicate SaleMatches(rows: map<Key, Row>, account: string, sale: Sale) {
    sale.Sold? ==>
      && sale.key in rows && sale.key.account == account
      && (Terminal(sale.status) ==> rows[sale.key].report.status == sale.status)
  }

  /** Rows only grow, other accounts are untouched, new rows are kill-switch sales. */
  ghost predicate TableGrows(rows: map<Key, Row>, account: string, rows': map<Key, Row>) {
    && (forall k | k in rows :: k in rows' && RowGrows(rows[k], rows'[k]) && (k.account != account ==> rows'[k] == rows[k]))
    && (forall k | k in rows' && k !in rows ::
          k.account == account && CLOSE_PREFIX <= k.idem && rows'[k].side.Sell? && rows'[k].origin.KillSwitch?
          && rows'[k].symbol != "")
  }

  lemma GrowthComposes(rows: map<Key, Row>, account: string, mid: map<Key, Row>, rows': map<Key, Row>)
    requires TableGrows(rows, account, mid) && TableGrows(mid, account, rows')
    ensures TableGrows(rows, account, rows')
  {
    forall k | k in rows
      ensures k in rows' && RowGrows(rows[k], rows'[k]) && (k.account != account ==> rows'[k] == rows[k])
    {
      assert k in mid && RowGrows(rows[k], mid[k]);
      assert RowGrows(mid[k], rows'[k]);
    }
    forall k | k in rows' && k !in rows
      ensures k.account == account && CLOSE_PREFIX <= k.idem && rows'[k].side.Sell? && rows'[k].origin.KillSwitch?
      ensures rows'[k].symbol != ""
    {
      if k in mid {
        assert RowGrows(mid[k], rows'[k]);
      }
    }
  }

  /** Every row that changed and still is, or newly is, unsettled is listed with its status. */
  ghost predicate Accounted(rows: map<Key, Row>, rows': map<Key, Row>, sold: seq<Sale>) {
    forall k | k in rows' && Uncertain(rows'[k].report.status) ::
      (k in rows && rows'[k] == rows[k]) || Listed(sold, k, rows'[k].report.status)
  }

  /** What one line, or a run of lines, keeps. */
  ghost predicate SalesKeep(rows: map<Key, Row>, account: string, rows': map<Key, Row>, sold: seq<Sale>) {
    && TableGrows(rows, account, rows')
    && Accounted(rows, rows', sold)
    && forall i | 0 <= i < |sold| :: SaleMatches(rows', account, sold[i])
  }

  lemma FreshSaleGrows(rows: map<Key, Row>, account: string, h: Holding, quantity: real,
                       rows': map<Key, Row>, sale: Result<Sale>)
    requires h.price.Some? && FreshSale(rows, account, h, quantity, rows', sale)
    ensures TableGrows(rows, account, rows')
  {
    SaleKeyIsClose(account, h, quantity);
  }

  lemma FreshSaleKeeps(rows: map<Key, Row>, account: string, h: Holding, quantity: real,
                       rows': map<Key, Row>, sale: Sale)
    requires h.price.Some? && FreshSale(rows, account, h, quantity, rows', Ok(sale))
    ensures SalesKeep(rows, account, rows', [sale])
  {
    assert [sale][0].key == sale.key;
    SaleKeyIsClose(account, h, quantity);
  }

  lemma SaleKeyIsClose(account: string, h: Holding, quantity: real)
    requires h.price.Some?
    ensures var d := SaleDraft(account, h, quantity);
            d.key.account == account && CLOSE_PREFIX <= d.key.idem && d.symbol != ""
  {
    assert |SymbolOf(h)| >= |QUOTE_ASSET|;
  }

  lemma SyncGrows(rows: map<Key, Row>, account: string, symbol: string, k: Key, found: Report)
    requires OpenClose(rows, account, symbol, k)
    ensures TableGrows(rows, account, rows[k := rows[k].(report := found)])
  {
  }

  lemma ResumedSaleGrows(rows: map<Key, Row>, account: string, h: Holding, quantity: real, k: Key,
                         rows': map<Key, Row>, sale: Result<Sale>)
    requires h.price.Some? && OpenClose(rows, account, SymbolOf(h), k)
    requires ResumedSale(rows, account, h, quantity, k, rows', sale)
    ensures TableGrows(rows, account, rows')
  {
    if Heard(h.lookup).Some? {
      var found := Heard(h.lookup).value;
      var synced := rows[k := rows[k].(report := found)];
      SyncGrows(rows, account, SymbolOf(h), k, found);
      if !StillStands(found.status) {
        FreshSaleGrows(synced, account, h, quantity, rows', sale);
        GrowthComposes(rows, account, synced, rows');
      }
    } else if !h.lookup.LookupRaises? {
      FreshSaleGrows(rows, account, h, quantity, rows', sale);
    }
  }

  lemma ResumedSaleKeeps(rows: map<Key, Row>, account: string, h: Holding, quantity: real, k: Key,
                         rows': map<Key, Row>, sale: Sale)
    requires h.price.Some? && OpenClose(rows, account, SymbolOf(h), k)
    requires ResumedSale(rows, account, h, quantity, k, rows', Ok(sale))
    ensures SalesKeep(rows, account, rows', [sale])
  {
    ResumedSaleGrows(rows, account, h, quantity, k, rows', Ok(sale));
    if Heard(h.lookup).None? {
      FreshSaleKeeps(rows, account, h, quantity, rows', sale);
    } else {
      var found := Heard(h.lookup).value;
      var synced := rows[k := rows[k].(report := found)];
      if StillStands(found.status) {
        assert [sale][0].key == k;
      } else {
        FreshSaleKeeps(synced, account, h, quantity, rows', sale);
      }
    }
  }

  /** However a line ends, the table only grows. */
  lemma LineGrows(rows: map<Key, Row>, account: string, h: Holding, rows': map<Key, Row>, sales: Result<seq<Sale>>)
    requires LineOutcome(rows, account, h, rows', sales)
    ensures TableGrows(rows, account, rows')
  {
    if PlanOf(h).Offer? {
      var sale := if sales.Ok? then Ok(sales.value[0]) else Err(sales.error);
      var quantity := PlanOf(h).quantity;
      if AnyOpenClose(rows, account, SymbolOf(h)) {
        var k :| OpenClose(rows, account, SymbolOf(h), k) && ResumedSale(rows, account, h, quantity, k, rows', sale);
        ResumedSaleGrows(rows, account, h, quantity, k, rows', sale);
      } else {
        FreshSaleGrows(rows, account, h, quantity, rows', sale);
      }
    }
  }

  lemma LineKeeps(rows: map<Key, Row>, account: string, h: Holding, rows': map<Key, Row>, sales: seq<Sale>)
    requires LineOutcome(rows, account, h, rows', Ok(sales))
    ensures SalesKeep(rows, account, rows', sales)
  {
    if PlanOf(h).Offer? {
      assert sales == [sales[0]];
      var quantity := PlanOf(h).quantity;
      if AnyOpenClose(rows, account, SymbolOf(h)) {
        var k :| OpenClose(rows, account, SymbolOf(h), k)
                 && ResumedSale(rows, account, h, quantity, k, rows', Ok(sales[0]));
        ResumedSaleKeeps(rows, account, h, quantity, k, rows', sales[0]);
      } else {
        FreshSaleKeeps(rows, account, h, quantity, rows', sales[0]);
      }
    }
  }

  lemma SalesCompose(rows: map<Key, Row>, account: string, mid: map<Key, Row>, rows': map<Key, Row>,
                     before: seq<Sale>, sales: seq<Sale>)
    requires SalesKeep(rows, account, mid, before) && SalesKeep(mid, account, rows', sales)
    ensures SalesKeep(rows, account, rows', before + sales)
  {
    GrowthComposes(rows, account, mid, rows');
    var sold := before + sales;
    forall k | k in rows' && Uncertain(rows'[k].report.status)
      ensures (k in rows && rows'[k] == rows[k]) || Listed(sold, k, rows'[k].report.status)
    {
      var status := rows'[k].report.status;
      if Listed(sales, k, status) {
        var i :| 0 <= i < |sales| && sales[i].Sold? && sales[i].key == k && sales[i].status == status;
        assert sold[|before| + i] == sales[i];
      } else if Listed(before, k, status) {
        var i :| 0 <= i < |before| && before[i].Sold? && before[i].key == k && before[i].status == status;
        assert sold[i] == before[i];
      }
    }
    forall i | 0 <= i < |sold| ensures SaleMatches(rows', account, sold[i]) {
      if i < |before| {
        assert SaleMatches(mid, account, before[i]);
        if before[i].Sold? {
          assert RowGrows(mid[before[i].key], rows'[before[i].key]);
        }
      } else {
        assert SaleMatches(rows', account, sales[i - |before|]);
      }
    }
  }

  lemma {:induction false} SellRunKeeps(rows: map<Key, Row>, account: string, hs: seq<Holding>,
                                        rows': map<Key, Row>, sold: seq<Sale>)
    requires SellRun(rows, account, hs, rows', sold)
    ensures SalesKeep(rows, account, rows', sold)
    decreases |hs|
  {
    if hs != [] {
      var mid, before, sales :| SellStage(rows, account, hs, mid, before, sales, rows') && sold == before + sales;
      SellRunKeeps(rows, account, hs[..|hs| - 1], mid, before);
      LineKeeps(mid, account, hs[|hs| - 1], rows', sales);
      SalesCompose(rows, account, mid, rows', before, sales);
    }
  }

  lemma CancellingGrows(rows: map<Key, Row>, account: string, w: CloseWorld)
    ensures TableGrows(rows, account, CancelledRows(rows, ReachedTargets(rows, account, w), w.cancels))
    ensures TableGrows(rows, account, PaperClosedRows(rows, ReachedTargets(rows, account, w)))
  {
  }

  lemma SellFailureGrows(rows: map<Key, Row>, account: string, hs: seq<Holding>, n: nat, mid: map<Key, Row>,
                         before: seq<Sale>, rows': map<Key, Row>, error: ErrorCode)
    requires SellFailure(rows, account, hs, n, mid, before, rows', error)
    ensures TableGrows(rows, account, rows')
  {
    SellRunKeeps(rows, account, hs[..n], mid, before);
    LineGrows(mid, account, hs[n], rows', Err(error));
    GrowthComposes(rows, account, mid, rows');
  }

  /** However the call ends: no row is lost, rewritten or reopened, and other accounts are untouched. */
  lemma CloseGrows(rows: map<Key, Row>, account: string, isReal: bool, w: CloseWorld,
                   rows': map<Key, Row>, res: Result<CloseReport>)
    requires CloseOutcome(rows, account, isReal, w, rows', res)
    ensures TableGrows(rows, account, rows')
  {
    CancellingGrows(rows, account, w);
    if isReal && w.credentials.None? && w.openOrders.Ok? && w.reached.None? && w.balances.Ok? {
      var mid := CancelledRows(rows, Targets(rows, account), w.cancels);
      if res.Ok? {
        SellRunKeeps(mid, account, w.balances.value, rows', res.value.sold);
        GrowthComposes(rows, account, mid, rows');
      } else {
        var n, m, before :| SellFailure(mid, account, w.balances.value, n, m, before, rows', res.error);
        SellFailureGrows(mid, account, w.balances.value, n, m, before, rows', res.error);
        GrowthComposes(rows, account, mid, rows');
      }
    }
  }

  /** A row that was resting when a real account was closed is settled, unless its cancellation was reported as a
      fault: then it is UNKNOWN, or an earlier close sale that the report lists with the status just queried. */
  lemma CloseSettles(rows: map<Key, Row>, account: string, w: CloseWorld,
                     rows': map<Key, Row>, res: Result<CloseReport>, k: Key)
    requires CloseOutcome(rows, account, true, w, rows', res) && res.Ok?
    requires Named(rows) && k in rows && k.account == account && Resting(rows[k].report.status)
    ensures k in rows'
    ensures RowFault(k) !in res.value.faults ==> Terminal(rows'[k].report.status)
    ensures Resting(rows'[k].report.status) ==> Listed(res.value.sold, k, rows'[k].report.status)
  {
    var mid := CancelledRows(rows, Targets(rows, account), w.cancels);
    SellRunKeeps(mid, account, w.balances.value, rows', res.value.sold);
    assert k in Targets(rows, account);
    CancelSettlesOrReports(rows[k].report, w.cancels(k));
    assert RowGrows(mid[k], rows'[k]);
    if Uncertain(rows'[k].report.status) {
      assert rows'[k] == mid[k] || Listed(res.value.sold, k, rows'[k].report.status);
    }
  }

  /** `closed` means what it says: no fault, every listed sale FILLED in the table, and no row of the account resting. */
  lemma ClosedMeansClosed(rows: map<Key, Row>, account: string, isReal: bool, w: CloseWorld,
                          rows': map<Key, Row>, res: Result<CloseReport>)
    requires CloseOutcome(rows, account, isReal, w, rows', res) && res.Ok? && res.value.closed && Named(rows)
    ensures isReal && res.value.faults == []
    ensures forall i | 0 <= i < |res.value.sold| ::
              && res.value.sold[i].Sold? && res.value.sold[i].status.Filled?
              && res.value.sold[i].key in rows' && rows'[res.value.sold[i].key].report.status.Filled?
    ensures forall k | k in rows' && k.account == account :: !Resting(rows'[k].report.status)
  {
    var mid := CancelledRows(rows, Targets(rows, account), w.cancels);
    var sold := res.value.sold;
    SellRunKeeps(mid, account, w.balances.value, rows', sold);
    forall i | 0 <= i < |sold|
      ensures sold[i].key in rows' && rows'[sold[i].key].report.status.Filled?
    {
      assert SaleMatches(rows', account, sold[i]);
    }
    forall k | k in rows' && k.account == account ensures !Resting(rows'[k].report.status) {
      if k in rows && Resting(rows[k].report.status) {
        CloseSettles(rows, account, w, rows', res, k);
      } else if k in rows && rows'[k] != rows[k] {
        assert RowGrows(rows[k], mid[k]) && mid[k] == rows[k];
      }
    }
  }

  // ---------- which holdings are reported ----------

  /** The symbols a close must account for: every sellable holding of the universe. */
  function DueSymbols(hs: seq<Holding>): seq<string> {
    if hs == [] then []
    else
      var h := hs[|hs| - 1];
      DueSymbols(hs[..|hs| - 1]) + (if PlanOf(h).Ignore? then [] else [SymbolOf(h)])
  }

  function SaleSymbols(sold: seq<Sale>): seq<string> {
    seq(|sold|, i requires 0 <= i < |sold| => sold[i].symbol)
  }

  lemma LineSymbols(rows: map<Key, Row>, account: string, h: Holding, rows': map<Key, Row>, sales: seq<Sale>)
    requires LineOutcome(rows, account, h, rows', Ok(sales))
    ensures SaleSymbols(sales) == if PlanOf(h).Ignore? then [] else [SymbolOf(h)]
  {
  }

  lemma SymbolsAppend(before: seq<Sale>, sales: seq<Sale>)
    ensures SaleSymbols(before + sales) == SaleSymbols(before) + SaleSymbols(sales)
  {
  }

  /** Exactly one entry per due holding, in the order of the balances. */
  lemma {:induction false} EveryHoldingIsListed(rows: map<Key, Row>, account: string, hs: seq<Holding>,
                                                rows': map<Key, Row>, sold: seq<Sale>)
    requires SellRun(rows, account, hs, rows', sold)
    ensures SaleSymbols(sold) == DueSymbols(hs)
    decreases |hs|
  {
    if hs != [] {
      var mid, before, sales :| SellStage(rows, account, hs, mid, before, sales, rows') && sold == before + sales;
      var h := hs[|hs| - 1];
      EveryHoldingIsListed(rows, account, hs[..|hs| - 1], mid, before);
      LineSymbols(mid, account, h, rows', sales);
      SymbolsAppend(before, sales);
    }
  }

  // ---------- a second sale ----------

  /** The query about the earlier sale says nothing, or that it failed. */
  predicate ReportsNoSale(h: Holding) {
    !h.lookup.LookupRaises? && (Heard(h.lookup).Some? ==> !StillStands(Heard(h.lookup).value.status))
  }

  /** Nothing else keeps a new sale from being recorded. */
  predicate SaleCanBeRecorded(rows: map<Key, Row>, account: string, h: Holding)
    requires PlanOf(h).Offer?
  {
    && SaleIsValid(h, PlanOf(h).quantity)
    && SaleDraft(account, h, PlanOf(h).quantity).key !in rows
    && h.placement.stop.None?
  }

  /** Reconcile before resend: over an unsettled close sale of the symbol a second one is written if and only if the
      query about the first says nothing or reports a failure (and nothing else stops it). Otherwise the only change is
      that the earlier row takes over what the exchange said. */
  lemma SecondSaleExactly(rows: map<Key, Row>, account: string, h: Holding, rows': map<Key, Row>, sale: Result<Sale>)
    requires PlanOf(h).Offer? && SellOutcome(rows, account, h, rows', sale)
    requires AnyOpenClose(rows, account, SymbolOf(h))
    ensures rows'.Keys != rows.Keys <==> ReportsNoSale(h) && SaleCanBeRecorded(rows, account, h)
    ensures rows'.Keys != rows.Keys ==>
              rows'.Keys == rows.Keys + {SaleDraft(account, h, PlanOf(h).quantity).key}
    ensures Heard(h.lookup).Some? && StillStands(Heard(h.lookup).value.status) ==>
              exists k :: OpenClose(rows, account, SymbolOf(h), k)
                          && rows' == rows[k := rows[k].(report := Heard(h.lookup).value)]
                          && sale == Ok(Sold(SymbolOf(h), k, Heard(h.lookup).value.status))
  {
    var quantity := PlanOf(h).quantity;
    var key := SaleDraft(account, h, quantity).key;
    var k :| OpenClose(rows, account, SymbolOf(h), k) && ResumedSale(rows, account, h, quantity, k, rows', sale);
    if Heard(h.lookup).Some? {
      assert rows[k := rows[k].(report := Heard(h.lookup).value)].Keys == rows.Keys;
    }
    assert key in rows' && key !in rows ==> rows'.Keys != rows.Keys;
  }
}
