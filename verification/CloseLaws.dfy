/** The startup reconcile and the kill switch in full: what they do to every row and what they report, spelled out in
    statuses, answers and amounts. */
module CloseLaws {
  import opened Basics
  import opened OrderRules
  import opened OrderProtocol
  import opened OrderPlacing
  import opened OrderSafety
  import opened Sizing
  import opened OrderValidation
  import opened KillSwitchRules

  // ---------- startup reconcile ----------

  /** A row the startup asks about. */
  predicate AskedAtStartup(rows: map<Key, Row>, k: Key, reals: set<string>) {
    k in rows && k.account in reals && rows[k].report.status in {New, PartiallyFilled, Unknown}
  }

  /** The columns one startup query leaves: a failed query changes nothing, an order that is not found or is UNKNOWN keeps
      its fill columns, and any other report is taken over whole. */
  predicate StartupAnswerInFull(stored: Report, ans: StartupAnswer, after: Report) {
    match ans
    case QueryError => after == stored
    case Answered(None) => after == Report(Unknown, stored.exchangeId, stored.executedQty, stored.avgPrice)
    case Answered(Some(found)) =>
      after == if found.status == Unknown then Report(Unknown, stored.exchangeId, stored.executedQty, stored.avgPrice)
               else found
  }

  ghost predicate StartupInFull(rows: map<Key, Row>, reals: set<string>, answers: Key -> StartupAnswer,
                                rows': map<Key, Row>, sum: StartupSummary) {
    && rows'.Keys == rows.Keys
    && (forall k | k in rows ::
          && rows'[k] == rows[k].(report := rows'[k].report)
          && if AskedAtStartup(rows, k, reals) then StartupAnswerInFull(rows[k].report, answers(k), rows'[k].report)
             else rows'[k] == rows[k])
    && sum.scanned == |set k | k in rows && AskedAtStartup(rows, k, reals)|
    && sum.errors == (set k | k in rows && AskedAtStartup(rows, k, reals) && answers(k) == QueryError)
    && sum.same == |set k | k in rows && AskedAtStartup(rows, k, reals) && rows[k].report.status != Unknown
                            && answers(k) == StartupAnswer.Answered(Some(rows[k].report))|
    && sum.scanned == sum.reconciled + sum.same + |sum.errors|
  }

  lemma StartupExactly(rows: map<Key, Row>, reals: set<string>, answers: Key -> StartupAnswer, sum: StartupSummary)
    requires Tallied(rows, StuckKeys(rows, reals), answers, sum)
    ensures StartupInFull(rows, reals, answers, ReconciledRows(rows, StuckKeys(rows, reals), answers), sum)
  {
    var stuck := StuckKeys(rows, reals);
    assert stuck == set k | k in rows && AskedAtStartup(rows, k, reals);
    assert ErrorKeys(stuck, answers) == set k | k in rows && AskedAtStartup(rows, k, reals) && answers(k) == QueryError;
    assert SameKeys(rows, stuck, answers)
        == set k | k in rows && AskedAtStartup(rows, k, reals) && rows[k].report.status != Unknown
                   && answers(k) == StartupAnswer.Answered(Some(rows[k].report));
  }

  // ---------- cancelling ----------

  /** A row the kill switch cancels, as far as the call gets. */
  predicate Reached(rows: map<Key, Row>, account: string, w: CloseWorld, k: Key) {
    && k in rows && k.account == account && rows[k].report.status in {New, PartiallyFilled} && rows[k].symbol != ""
    && (w.reached.None? || k in w.reached.value)
  }

  /** Every reached row ends as its cancellation says and is a fault exactly when that failed; the others stay. */
  ghost predicate CancelledInFull(rows: map<Key, Row>, account: string, w: CloseWorld,
                                  rows': map<Key, Row>, faults: seq<Fault>) {
    && rows'.Keys == rows.Keys
    && (forall k | k in rows ::
          && rows'[k] == rows[k].(report := rows'[k].report)
          && if Reached(rows, account, w, k) then
               CancelInFull(rows[k].report, w.cancels(k), rows'[k].report, RowFault(k) in faults)
             else rows'[k] == rows[k] && RowFault(k) !in faults)
    && (forall k | k !in rows :: RowFault(k) !in faults)
  }

  lemma CancelsExactly(rows: map<Key, Row>, account: string, w: CloseWorld, faults: seq<Fault>)
    requires forall k :: RowFault(k) in faults <==> k in ReachedTargets(rows, account, w) && CancelIsError(w.cancels(k))
    ensures CancelledInFull(rows, account, w, CancelledRows(rows, ReachedTargets(rows, account, w), w.cancels), faults)
  {
    var targets := ReachedTargets(rows, account, w);
    var rows' := CancelledRows(rows, targets, w.cancels);
    forall k | k in rows
      ensures if Reached(rows, account, w, k) then
                CancelInFull(rows[k].report, w.cancels(k), rows'[k].report, RowFault(k) in faults)
              else rows'[k] == rows[k] && RowFault(k) !in faults
    {
      assert k in targets <==> Reached(rows, account, w, k);
      CancelledExactly(rows[k].report, w.cancels(k));
    }
  }

  /** A paper account's reached rows become CANCELED and keep their fill columns. */
  ghost predicate PaperClosedInFull(rows: map<Key, Row>, account: string, w: CloseWorld, rows': map<Key, Row>) {
    && rows'.Keys == rows.Keys
    && forall k | k in rows ::
         var stored := rows[k].report;
         rows'[k] == if Reached(rows, account, w, k)
                     then rows[k].(report := Report(Canceled, stored.exchangeId, stored.executedQty, stored.avgPrice))
                     else rows[k]
  }

  lemma PaperClosesExactly(rows: map<Key, Row>, account: string, w: CloseWorld)
    ensures PaperClosedInFull(rows, account, w, PaperClosedRows(rows, ReachedTargets(rows, account, w)))
  {
    forall k | k in rows ensures k in ReachedTargets(rows, account, w) <==> Reached(rows, account, w, k) {
    }
  }

  /** The cancellation got no answer, or reported an order that is not final. */
  predicate Unfinished(ans: CancelAnswer) {
    || ans == CancelFailed
    || ans == NotThere(QueryTimedOut)
    || (ans.NotThere? && ans.query.QueryFound? && ans.query.report.status in {New, PartiallyFilled, Unknown})
    || (ans.CancelReport? && ans.report.status in {New, PartiallyFilled, Unknown})
  }

  /** An exchange order with a client id that no resting row of the account has, and whose cancellation is unfinished. */
  predicate LeftOver(rows: map<Key, Row>, account: string, o: ExchangeOrder, cancels: Key -> CancelAnswer) {
    && o.idem.Some? && o.symbol != ""
    && (Key(account, o.idem.value) !in rows
        || rows[Key(account, o.idem.value)].report.status !in {New, PartiallyFilled})
    && Unfinished(cancels(Key(account, o.idem.value)))
  }

  /** The faults about exchange orders without a row: failed single cancellations, and failed bulk cancellations of the
      symbols of orders that carry no client id. */
  ghost predicate ForeignInFull(rows: map<Key, Row>, account: string, orders: seq<ExchangeOrder>, w: CloseWorld,
                                faults: seq<Fault>) {
    && (forall idem :: OrphanFault(idem) in faults <==>
          exists i :: 0 <= i < |orders| && orders[i].idem == Some(idem) && LeftOver(rows, account, orders[i], w.cancels))
    && (forall symbol :: BulkFault(symbol) in faults <==>
          exists i: nat :: i < |orders| && orders[i].idem == None && orders[i].symbol == symbol && symbol != ""
                           && !w.bulkOk(i))
  }

  lemma ForeignExactly(rows: map<Key, Row>, account: string, orders: seq<ExchangeOrder>, w: CloseWorld,
                       faults: seq<Fault>)
    requires forall idem :: OrphanFault(idem) in faults <==> ListsOrphan(rows, account, orders, w, idem)
    requires forall symbol :: BulkFault(symbol) in faults <==> ListsBulk(orders, w, symbol)
    ensures ForeignInFull(rows, account, orders, w, faults)
  {
    forall i | 0 <= i < |orders|
      ensures OrphanFails(rows, account, orders[i], w.cancels) <==> LeftOver(rows, account, orders[i], w.cancels)
    {
      if orders[i].idem.Some? {
        CancelledExactly(FRESH, w.cancels(Key(account, orders[i].idem.value)));
      }
    }
    forall symbol
      ensures BulkFault(symbol) in faults <==>
              exists i: nat :: i < |orders| && orders[i].idem == None && orders[i].symbol == symbol && symbol != ""
                               && !w.bulkOk(i)
    {
      if ListsBulk(orders, w, symbol) {
        var i: nat :| i < |orders| && orders[i].symbol == symbol && BulkFails(orders[i], w.bulkOk(i));
        assert orders[i].idem == None && orders[i].symbol == symbol && !w.bulkOk(i);
      }
      if i: nat :| i < |orders| && orders[i].idem == None && orders[i].symbol == symbol && symbol != "" && !w.bulkOk(i) {
        assert orders[i].symbol == symbol && BulkFails(orders[i], w.bulkOk(i));
      }
    }
  }

  // ---------- selling ----------

  /** A line that is not sold and not mentioned: the quote asset, an empty line, an asset outside the universe. */
  predicate PassedOver(h: Holding) {
    h.asset == "USDT" || h.free <= 0.0 || !h.known
  }

  /** An amount that can be sold out of a holding: at least the minimum, and a whole number of steps within the holding,
      or, when the symbol has no step, the holding itself. */
  ghost predicate Sellable(h: Holding, quantity: real)
    requires h.filters.Some?
  {
    var f := h.filters.value;
    && f.minQty <= quantity
    && if f.stepSize > 0.0 then
         WholeSteps(quantity, f.stepSize) && quantity <= h.free + 0.000000001 * f.stepSize
       else quantity == h.free
  }

  ghost predicate Unsellable(h: Holding) {
    h.price.None? || h.filters.None? || forall quantity :: !Sellable(h, quantity)
  }

  /** The amount that is sold: sellable, and less than one step is left over. */
  ghost predicate SoldAmount(h: Holding, quantity: real) {
    && h.filters.Some? && Sellable(h, quantity)
    && (h.filters.value.stepSize > 0.0 ==> h.free < quantity + h.filters.value.stepSize)
    && forall other | Sellable(h, other) :: other <= quantity
  }

  /** No whole number of steps within the holding lies above the rounded one. */
  lemma RoundedIsLargest(h: Holding, quantity: real)
    requires h.filters.Some? && Sellable(h, quantity)
    ensures quantity <= RoundDownToStep(h.free, h.filters.value.stepSize)
  {
    var step := h.filters.value.stepSize;
    if step > 0.0 {
      var n := FloorBrackets(h.free, step);
      var m :| quantity == Steps(m, step);
      if m > n {
        FewerSteps(n + 1, m, step);
        OneStepUp(n, step);
      } else {
        FewerSteps(m, n, step);
      }
    }
  }

  lemma RoundedFits(h: Holding)
    requires h.filters.Some?
    ensures var f := h.filters.value; var quantity := RoundDownToStep(h.free, f.stepSize);
            && (Sellable(h, quantity) <==> f.minQty <= quantity)
            && (f.stepSize > 0.0 ==> h.free < quantity + f.stepSize)
  {
    var step := h.filters.value.stepSize;
    if step > 0.0 {
      RoundedWithinStep(h.free, step);
    }
  }

  /** What becomes of a balance line, from the line alone. */
  lemma PlanExactly(h: Holding)
    ensures PlanOf(h).Ignore? <==> h.asset == "USDT" || h.free <= 0.0 || (h.trouble.None? && !h.known)
    ensures PlanOf(h).Trouble? ==> h.asset != "USDT" && h.free > 0.0 && h.trouble == Some(PlanOf(h).code)
    ensures PlanOf(h).Skip? || PlanOf(h).Offer? ==> !PassedOver(h) && h.trouble.None?
    ensures PlanOf(h).Skip? ==> Unsellable(h)
    ensures PlanOf(h).Offer? ==> !Unsellable(h) && h.price.Some? && SoldAmount(h, PlanOf(h).quantity)
  {
    if (PlanOf(h).Skip? || PlanOf(h).Offer?) && h.price.Some? && h.filters.Some? {
      RoundedFits(h);
      forall other | Sellable(h, other) ensures other <= RoundDownToStep(h.free, h.filters.value.stepSize) {
        RoundedIsLargest(h, other);
      }
    }
  }

  /** A new sale in full: refused as invalid, refused by the unique key, or placed as a market sale. */
  ghost predicate FreshSaleInFull(rows: map<Key, Row>, account: string, h: Holding, quantity: real,
                                  rows': map<Key, Row>, sale: Result<Sale>)
    requires h.price.Some?
  {
    var key, symbol := Key(account, "close-" + h.tag), h.asset + "USDT";
    var d := Draft(key, symbol, Side.Sell, false, quantity, quantity * h.price.value, true);
    if quantity <= 0.0 || h.price.value <= 0.0 then rows' == rows && sale == Err(InvalidRequest)
    else if key in rows then rows' == rows && sale == Err(InternalError)
    else
      exists reply :: PlacedInFull(rows, d, KillSwitch, h.placement, rows', reply) && AnswersSale(key, symbol, reply, sale)
  }

  /** What the close makes of the reply about its sale. */
  predicate AnswersSale(key: Key, symbol: string, reply: Reply, sale: Result<Sale>) {
    match reply
    case RowReply(_, report) => sale == Ok(Sold(symbol, key, report.status))
    case Refusal(code) => sale == Err(code)
    case Failure => sale == Err(InternalError)
  }

  lemma FreshSaleExactly(rows: map<Key, Row>, account: string, h: Holding, quantity: real,
                         rows': map<Key, Row>, sale: Result<Sale>)
    requires h.price.Some? && FreshSale(rows, account, h, quantity, rows', sale)
    ensures FreshSaleInFull(rows, account, h, quantity, rows', sale)
  {
    var d := SaleDraft(account, h, quantity);
    if SaleIsValid(h, quantity) && d.key !in rows {
      PlacedExactly(rows, d, KillSwitch, h.placement);
      assert AnswersSale(d.key, d.symbol, PlacedReply(d, h.placement), sale);
    }
  }

  /** An earlier sale of the symbol, made by a close of this account, that is not settled. */
  predicate Earlier(rows: map<Key, Row>, account: string, h: Holding, k: Key) {
    && k in rows && k.account == account && "close-" <= k.idem
    && rows[k].symbol == h.asset + "USDT" && rows[k].side == Side.Sell
    && rows[k].report.status in {New, PartiallyFilled, Unknown}
  }

  /** Over an earlier sale: an error of the query ends the call; a sale that is open, unclear or filled takes over the
      query's answer and stands; a sale that failed takes it over too, and a new one follows; without an answer a new one
      follows at once. */
  ghost predicate ResumedInFull(rows: map<Key, Row>, account: string, h: Holding, quantity: real, k: Key,
                                rows': map<Key, Row>, sale: Result<Sale>)
    requires h.price.Some? && k in rows
  {
    match h.lookup
    case LookupRaises(code) => rows' == rows && sale == Err(code)
    case LookupFails => FreshSaleInFull(rows, account, h, quantity, rows', sale)
    case LookupSays(None) => FreshSaleInFull(rows, account, h, quantity, rows', sale)
    case LookupSays(Some(found)) =>
      var synced := rows[k := rows[k].(report := found)];
      if found.status in {New, PartiallyFilled, Unknown, Filled} then
        rows' == synced && sale == Ok(Sold(h.asset + "USDT", k, found.status))
      else FreshSaleInFull(synced, account, h, quantity, rows', sale)
  }

  /** Selling one holding, in full. */
  ghost predicate SaleInFull(rows: map<Key, Row>, account: string, h: Holding, quantity: real,
                             rows': map<Key, Row>, sale: Result<Sale>) {
    && h.price.Some? && SoldAmount(h, quantity)
    && if exists k :: Earlier(rows, account, h, k) then
         exists k :: Earlier(rows, account, h, k) && ResumedInFull(rows, account, h, quantity, k, rows', sale)
       else FreshSaleInFull(rows, account, h, quantity, rows', sale)
  }

  lemma ResumedExactly(rows: map<Key, Row>, account: string, h: Holding, quantity: real, k: Key,
                       rows': map<Key, Row>, sale: Result<Sale>)
    requires h.price.Some? && k in rows && ResumedSale(rows, account, h, quantity, k, rows', sale)
    ensures ResumedInFull(rows, account, h, quantity, k, rows', sale)
  {
    match h.lookup
    case LookupRaises(code) =>
    case LookupFails => FreshSaleExactly(rows, account, h, quantity, rows', sale);
    case LookupSays(None) => FreshSaleExactly(rows, account, h, quantity, rows', sale);
    case LookupSays(Some(found)) =>
      if found.status !in {New, PartiallyFilled, Unknown, Filled} {
        FreshSaleExactly(rows[k := rows[k].(report := found)], account, h, quantity, rows', sale);
      }
  }

  lemma SoldExactly(rows: map<Key, Row>, account: string, h: Holding, rows': map<Key, Row>, sale: Result<Sale>)
    requires PlanOf(h).Offer? && SellOutcome(rows, account, h, rows', sale)
    ensures SaleInFull(rows, account, h, PlanOf(h).quantity, rows', sale)
  {
    var quantity := PlanOf(h).quantity;
    PlanExactly(h);
    assert forall k :: OpenClose(rows, account, SymbolOf(h), k) <==> Earlier(rows, account, h, k);
    if AnyOpenClose(rows, account, SymbolOf(h)) {
      var k :| OpenClose(rows, account, SymbolOf(h), k) && ResumedSale(rows, account, h, quantity, k, rows', sale);
      ResumedExactly(rows, account, h, quantity, k, rows', sale);
    } else {
      FreshSaleExactly(rows, account, h, quantity, rows', sale);
    }
  }

  // ---------- all lines ----------

  /** A row that a close wrote for a balance line. */
  ghost predicate SaleOfLine(account: string, h: Holding, k: Key, row: Row) {
    && !PassedOver(h) && h.price.Some? && SoldAmount(h, row.quantity) && row.quantity > 0.0
    && k == Key(account, "close-" + h.tag)
    && row.symbol == h.asset + "USDT" && row.side == Side.Sell && !row.oco && row.origin == KillSwitch
    && row.notional == row.quantity * h.price.value
  }

  ghost predicate BelongsToLine(account: string, hs: seq<Holding>, k: Key, row: Row) {
    exists i :: 0 <= i < |hs| && SaleOfLine(account, hs[i], k, row)
  }

  /** A row that changed is an earlier sale of some line's symbol and took over what the exchange said about it. */
  predicate SyncedByLine(account: string, h: Holding, k: Key, row: Row, row': Row) {
    && k.account == account && "close-" <= k.idem && row.symbol == h.asset + "USDT" && row.side == Side.Sell
    && h.lookup.LookupSays? && h.lookup.found.Some? && row' == row.(report := h.lookup.found.value)
  }

  ghost predicate Synced(account: string, hs: seq<Holding>, k: Key, row: Row, row': Row) {
    exists i :: 0 <= i < |hs| && SyncedByLine(account, hs[i], k, row, row')
  }

  /** Every new row belongs to one of the lines, and every other row stays or was synced for one of them. */
  ghost predicate OnlySales(rows: map<Key, Row>, account: string, hs: seq<Holding>, rows': map<Key, Row>) {
    && (forall k | k in rows' && k !in rows :: BelongsToLine(account, hs, k, rows'[k]))
    && (forall k | k in rows :: k in rows' && (rows'[k] == rows[k] || Synced(account, hs, k, rows[k], rows'[k])))
  }

  /** One entry for each line that is not passed over, in balance order; it is listed as skipped exactly when nothing of it
      can be sold. `at` holds the lines' positions. */
  ghost predicate ListedAt(hs: seq<Holding>, sold: seq<Sale>, at: seq<nat>) {
    && |at| == |sold|
    && (forall i, j | 0 <= i < j < |at| :: at[i] < at[j])
    && (forall n: nat | n < |hs| :: n in at <==> !PassedOver(hs[n]))
    && (forall i | 0 <= i < |at| ::
          at[i] < |hs| && ListedAs(hs[at[i]], sold[i]))
  }

  ghost predicate ListedAs(h: Holding, sale: Sale) {
    sale.symbol == h.asset + "USDT" && (sale.Skipped? <==> Unsellable(h))
  }

  lemma FreshRowIsSale(rows: map<Key, Row>, account: string, h: Holding, quantity: real,
                       rows': map<Key, Row>, sale: Result<Sale>)
    requires h.price.Some? && !PassedOver(h) && SoldAmount(h, quantity)
    requires FreshSaleInFull(rows, account, h, quantity, rows', sale)
    ensures forall k | k in rows' && k !in rows :: SaleOfLine(account, h, k, rows'[k])
    ensures forall k | k in rows :: k in rows' && rows'[k] == rows[k]
  {
  }

  /** What one line may do to the table. */
  ghost predicate LineSells(rows: map<Key, Row>, account: string, h: Holding, rows': map<Key, Row>) {
    && (forall k | k in rows' && k !in rows :: SaleOfLine(account, h, k, rows'[k]))
    && (forall k | k in rows :: k in rows' && (rows'[k] == rows[k] || SyncedByLine(account, h, k, rows[k], rows'[k])))
  }

  lemma FreshAfterSync(rows: map<Key, Row>, account: string, h: Holding, k: Key, found: Report, rows': map<Key, Row>)
    requires Earlier(rows, account, h, k) && h.lookup == LookupSays(Some(found))
    requires var synced := rows[k := rows[k].(report := found)];
             && (forall j | j in rows' && j !in synced :: SaleOfLine(account, h, j, rows'[j]))
             && (forall j | j in synced :: j in rows' && rows'[j] == synced[j])
    ensures LineSells(rows, account, h, rows')
  {
  }

  lemma ResumedRowIsSale(rows: map<Key, Row>, account: string, h: Holding, quantity: real, k: Key,
                         rows': map<Key, Row>, sale: Result<Sale>)
    requires !PassedOver(h) && h.price.Some? && SoldAmount(h, quantity) && Earlier(rows, account, h, k)
    requires ResumedInFull(rows, account, h, quantity, k, rows', sale)
    ensures LineSells(rows, account, h, rows')
  {
    match h.lookup
    case LookupRaises(_) =>
    case LookupFails => FreshRowIsSale(rows, account, h, quantity, rows', sale);
    case LookupSays(None) => FreshRowIsSale(rows, account, h, quantity, rows', sale);
    case LookupSays(Some(found)) =>
      if found.status !in {New, PartiallyFilled, Unknown, Filled} {
        FreshRowIsSale(rows[k := rows[k].(report := found)], account, h, quantity, rows', sale);
        FreshAfterSync(rows, account, h, k, found, rows');
      }
  }

  lemma SaleRowIsSale(rows: map<Key, Row>, account: string, h: Holding, quantity: real,
                      rows': map<Key, Row>, sale: Result<Sale>)
    requires !PassedOver(h) && SaleInFull(rows, account, h, quantity, rows', sale)
    ensures LineSells(rows, account, h, rows')
  {
    if exists k :: Earlier(rows, account, h, k) {
      var k :| Earlier(rows, account, h, k) && ResumedInFull(rows, account, h, quantity, k, rows', sale);
      ResumedRowIsSale(rows, account, h, quantity, k, rows', sale);
    } else {
      FreshRowIsSale(rows, account, h, quantity, rows', sale);
    }
  }

  /** However a line ends, its new row, if any, is its own sale. */
  lemma LineRowIsSale(rows: map<Key, Row>, account: string, h: Holding, rows': map<Key, Row>, sales: Result<seq<Sale>>)
    requires LineOutcome(rows, account, h, rows', sales)
    ensures LineSells(rows, account, h, rows')
  {
    PlanExactly(h);
    if PlanOf(h).Offer? {
      var sale := if sales.Ok? then Ok(sales.value[0]) else Err(sales.error);
      SoldExactly(rows, account, h, rows', sale);
      SaleRowIsSale(rows, account, h, PlanOf(h).quantity, rows', sale);
    }
  }

  /** A sale of an offered line is listed as sold, under the line's symbol. */
  lemma OfferIsSold(rows: map<Key, Row>, account: string, h: Holding, rows': map<Key, Row>, sale: Sale)
    requires PlanOf(h).Offer? && SellOutcome(rows, account, h, rows', Ok(sale))
    ensures sale.Sold? && sale.symbol == h.asset + "USDT"
  {
    SoldExactly(rows, account, h, rows', Ok(sale));
  }

  lemma LineIsListed(rows: map<Key, Row>, account: string, h: Holding, rows': map<Key, Row>, sales: seq<Sale>)
    requires LineOutcome(rows, account, h, rows', Ok(sales))
    ensures PassedOver(h) ==> sales == []
    ensures !PassedOver(h) ==> |sales| == 1 && ListedAs(h, sales[0])
  {
    PlanExactly(h);
    if PlanOf(h).Offer? {
      OfferIsSold(rows, account, h, rows', sales[0]);
    }
  }

  lemma ListedSame(less: seq<Holding>, h: Holding, sold: seq<Sale>, at: seq<nat>)
    requires ListedAt(less, sold, at) && PassedOver(h)
    ensures ListedAt(less + [h], sold, at)
  {
    var hs := less + [h];
    assert forall i | 0 <= i < |at| :: at[i] < |less|;
    assert |less| !in at;
    assert forall n: nat | n < |hs| :: hs[n] == if n < |less| then less[n] else h;
  }

  lemma ListedOneMore(less: seq<Holding>, h: Holding, sold: seq<Sale>, at: seq<nat>, sale: Sale)
    requires ListedAt(less, sold, at) && !PassedOver(h) && ListedAs(h, sale)
    ensures ListedAt(less + [h], sold + [sale], at + [|less|])
  {
    var hs, at' := less + [h], at + [|less|];
    assert forall n: nat | n < |hs| :: hs[n] == if n < |less| then less[n] else h;
    assert forall i | 0 <= i < |at| :: at[i] < |less| && at'[i] == at[i];
    assert at'[|at|] == |less|;
    forall n: nat | n < |hs| ensures n in at' <==> !PassedOver(hs[n]) {
      assert n < |less| ==> (n in at <==> !PassedOver(less[n]));
    }
  }

  /** The whole list of balances, when no line ends the call. */
  lemma {:induction false} SellRunExactly(rows: map<Key, Row>, account: string, hs: seq<Holding>, rows': map<Key, Row>,
                                          sold: seq<Sale>) returns (at: seq<nat>)
    requires SellRun(rows, account, hs, rows', sold)
    ensures ListedAt(hs, sold, at)
    ensures OnlySales(rows, account, hs, rows')
    decreases |hs|
  {
    at := [];
    if hs != [] {
      var n := |hs| - 1;
      var mid, before, sales :| SellStage(rows, account, hs, mid, before, sales, rows') && sold == before + sales;
      at := SellRunExactly(rows, account, hs[..n], mid, before);
      LineIsListed(mid, account, hs[n], rows', sales);
      assert hs[..n] + [hs[n]] == hs;
      if PassedOver(hs[n]) {
        ListedSame(hs[..n], hs[n], before, at);
        assert before + sales == before;
      } else {
        ListedOneMore(hs[..n], hs[n], before, at, sales[0]);
        assert sales == [sales[0]];
        at := at + [n];
      }
      OneLineMoreSells(rows, account, hs, n, mid, rows', Ok(sales));
    }
  }

  lemma OneLineMoreSells(rows: map<Key, Row>, account: string, hs: seq<Holding>, n: nat, mid: map<Key, Row>,
                         rows': map<Key, Row>, sales: Result<seq<Sale>>)
    requires n < |hs| && OnlySales(rows, account, hs[..n], mid) && LineOutcome(mid, account, hs[n], rows', sales)
    ensures OnlySales(rows, account, hs, rows')
  {
    LineRowIsSale(mid, account, hs[n], rows', sales);
    forall k | k in rows' && k !in rows ensures BelongsToLine(account, hs, k, rows'[k]) {
      if k in mid {
        BelongsStill(account, hs, n, k, mid[k], rows'[k]);
      }
    }
    forall k | k in rows ensures k in rows' && (rows'[k] == rows[k] || Synced(account, hs, k, rows[k], rows'[k])) {
      SyncedStill(account, hs, n, k, rows[k], mid[k], rows'[k]);
    }
  }

  lemma BelongsStill(account: string, hs: seq<Holding>, n: nat, k: Key, row: Row, row': Row)
    requires n < |hs| && BelongsToLine(account, hs[..n], k, row)
    requires row' == row || SyncedByLine(account, hs[n], k, row, row')
    ensures BelongsToLine(account, hs, k, row')
  {
    var i :| 0 <= i < n && SaleOfLine(account, hs[..n][i], k, row);
    assert SaleOfLine(account, hs[i], k, row');
  }

  lemma SyncedStill(account: string, hs: seq<Holding>, n: nat, k: Key, row: Row, mid: Row, row': Row)
    requires n < |hs| && (mid == row || Synced(account, hs[..n], k, row, mid))
    requires row' == mid || SyncedByLine(account, hs[n], k, mid, row')
    ensures row' == row || Synced(account, hs, k, row, row')
  {
    if row' != mid {
      assert SyncedByLine(account, hs[n], k, row, row');
    } else if mid != row {
      var i :| 0 <= i < n && SyncedByLine(account, hs[..n][i], k, row, mid);
      assert SyncedByLine(account, hs[i], k, row, row');
    }
  }

  lemma SellFailureExactly(rows: map<Key, Row>, account: string, hs: seq<Holding>, n: nat, mid: map<Key, Row>,
                           before: seq<Sale>, rows': map<Key, Row>, error: ErrorCode)
    requires SellFailure(rows, account, hs, n, mid, before, rows', error)
    ensures OnlySales(rows, account, hs, rows')
  {
    var at := SellRunExactly(rows, account, hs[..n], mid, before);
    OneLineMoreSells(rows, account, hs, n, mid, rows', Err(error));
  }

  // ---------- the whole close ----------

  /** A close of a real account that got past the cancelling: the rows as cancelled, then as sold. */
  ghost predicate CancelsThenSells(rows: map<Key, Row>, account: string, w: CloseWorld, hs: seq<Holding>,
                                   rows': map<Key, Row>, faults: seq<Fault>) {
    exists mid :: CancelledInFull(rows, account, w, mid, faults) && OnlySales(mid, account, hs, rows')
  }

  /** What a finished close reports: its faults, one entry for every line that is not passed over, and `closed` exactly
      when there is no fault and every entry is a sale that was FILLED. */
  ghost predicate ReportInFull(rows: map<Key, Row>, account: string, w: CloseWorld, rep: CloseReport)
    requires w.openOrders.Ok? && w.balances.Ok?
  {
    && !rep.simulated
    && ForeignInFull(rows, account, w.openOrders.value, w, rep.faults)
    && (exists at :: ListedAt(w.balances.value, rep.sold, at))
    && (rep.closed <==>
          rep.faults == [] && forall i | 0 <= i < |rep.sold| :: rep.sold[i].Sold? && rep.sold[i].status == Filled)
  }

  /** A close in full: how it ends, what it does to every row, and what it reports. Whichever way it ends, every new row
      is the sale of one balance line, with the amount and the value that line gives it. */
  ghost predicate CloseInFull(rows: map<Key, Row>, account: string, isReal: bool, w: CloseWorld,
                              rows': map<Key, Row>, res: Result<CloseReport>) {
    if !isReal then
      && PaperClosedInFull(rows, account, w, rows')
      && res == if w.reached.Some? then Err(InternalError) else Ok(CloseReport(false, true, [], []))
    else if w.credentials.Some? then rows' == rows && res == Err(w.credentials.value)
    else if w.openOrders.Err? then rows' == rows && res == Err(w.openOrders.error)
    else if w.reached.Some? then
      res == Err(InternalError) && exists faults :: CancelledInFull(rows, account, w, rows', faults)
    else if w.balances.Err? then
      res == Err(w.balances.error) && exists faults :: CancelledInFull(rows, account, w, rows', faults)
    else if res.Ok? then
      && CancelsThenSells(rows, account, w, w.balances.value, rows', res.value.faults)
      && ReportInFull(rows, account, w, res.value)
    else exists faults :: CancelsThenSells(rows, account, w, w.balances.value, rows', faults)
  }

  /** Some fault list names exactly the failed cancellations. */
  lemma FaultsExist(targets: set<Key>, cancels: Key -> CancelAnswer) returns (faults: seq<Fault>)
    ensures forall k :: RowFault(k) in faults <==> k in targets && CancelIsError(cancels(k))
    decreases |targets|
  {
    faults := [];
    if targets != {} {
      var k :| k in targets;
      faults := FaultsExist(targets - {k}, cancels);
      if CancelIsError(cancels(k)) {
        faults := faults + [RowFault(k)];
      }
    }
  }

  lemma CancelsSomehow(rows: map<Key, Row>, account: string, w: CloseWorld) returns (faults: seq<Fault>)
    ensures CancelledInFull(rows, account, w, CancelledRows(rows, ReachedTargets(rows, account, w), w.cancels), faults)
  {
    faults := FaultsExist(ReachedTargets(rows, account, w), w.cancels);
    CancelsExactly(rows, account, w, faults);
  }

  lemma ReportExactly(rows: map<Key, Row>, account: string, w: CloseWorld, rows': map<Key, Row>, rep: CloseReport)
    requires w.openOrders.Ok? && w.balances.Ok? && w.credentials.None? && w.reached.None?
    requires CloseOutcome(rows, account, true, w, rows', Ok(rep))
    ensures ReportInFull(rows, account, w, rep)
    ensures CancelsThenSells(rows, account, w, w.balances.value, rows', rep.faults)
  {
    var mid := CancelledRows(rows, ReachedTargets(rows, account, w), w.cancels);
    CancelsExactly(rows, account, w, rep.faults);
    ForeignExactly(rows, account, w.openOrders.value, w, rep.faults);
    var at := SellRunExactly(mid, account, w.balances.value, rows', rep.sold);
  }

  lemma FailureExactly(rows: map<Key, Row>, account: string, w: CloseWorld, rows': map<Key, Row>, error: ErrorCode)
    requires w.openOrders.Ok? && w.balances.Ok? && w.credentials.None? && w.reached.None?
    requires CloseOutcome(rows, account, true, w, rows', Err(error))
    ensures exists faults :: CancelsThenSells(rows, account, w, w.balances.value, rows', faults)
  {
    var mid := CancelledRows(rows, ReachedTargets(rows, account, w), w.cancels);
    var faults := CancelsSomehow(rows, account, w);
    var n, m, before :| SellFailure(mid, account, w.balances.value, n, m, before, rows', error);
    SellFailureExactly(mid, account, w.balances.value, n, m, before, rows', error);
    assert CancelsThenSells(rows, account, w, w.balances.value, rows', faults);
  }

  lemma CloseExactly(rows: map<Key, Row>, account: string, isReal: bool, w: CloseWorld,
                     rows': map<Key, Row>, res: Result<CloseReport>)
    requires CloseOutcome(rows, account, isReal, w, rows', res)
    ensures CloseInFull(rows, account, isReal, w, rows', res)
  {
    if !isReal {
      PaperClosesExactly(rows, account, w);
    } else if w.credentials.None? && w.openOrders.Ok? {
      if w.reached.Some? || w.balances.Err? {
        var faults := CancelsSomehow(rows, account, w);
      } else if res.Ok? {
        ReportExactly(rows, account, w, rows', res.value);
      } else {
        FailureExactly(rows, account, w, rows', res.error);
      }
    }
  }
}
