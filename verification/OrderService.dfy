/** `OrderService`: the calls of `storage/orders.py` as methods over the order table. `OrderRuns` and `KillSwitchRuns`
    prove that an order call, the startup reconcile and a close, however they end, are runs of the order protocol made of
    steps of named kinds, and state which of the run properties each of them keeps. The broker, the market feed and the
    clock enter as the answers they give during the call, and failures as the points at which a call may end. */
module OrderCalls {
  import opened Basics
  import opened RiskRules
  import opened RiskPolicyTables
  import opened OrderRules
  import opened OrderProtocol
  import opened OrderExposure
  import opened OrderPlacing
  import opened KillSwitchRules
  import opened CloseLaws

  // ---------- held value ----------

  /** A balance line, and the fresh market price of its asset when there is one. */
  datatype Balance = Balance(asset: string, free: real, price: Option<real>)

  /** `_current_exposure` skips the quote asset and empty lines. */
  predicate Valued(b: Balance) {
    b.asset != QUOTE_ASSET && b.free > 0.0
  }

  predicate Priced(bs: seq<Balance>) {
    forall i | 0 <= i < |bs| && Valued(bs[i]) :: bs[i].price.Some?
  }

  predicate NonNegative(bs: seq<Balance>) {
    forall i | 0 <= i < |bs| && bs[i].price.Some? :: bs[i].price.value >= 0.0
  }

  function HeldValue(bs: seq<Balance>): real
    requires Priced(bs)
  {
    if bs == [] then 0.0
    else
      var last := bs[|bs| - 1];
      HeldValue(bs[..|bs| - 1]) + (if Valued(last) then last.free * last.price.value else 0.0)
  }

  lemma {:induction false} HeldIsNonNegative(bs: seq<Balance>)
    requires Priced(bs) && NonNegative(bs)
    ensures HeldValue(bs) >= 0.0
  {
    if bs != [] {
      HeldIsNonNegative(bs[..|bs| - 1]);
    }
  }

  /** What the outside world does during one order call. */
  datatype World = World(
    preflight: Option<Halt>,         // what ends the call before the caps have ruled
    balances: seq<Balance>,
    now: int,
    placement: Placement)

  // ---------- what the calls leave behind ----------

  ghost predicate AnyCandidate(r: Risk, account: string, version: nat, now: int) {
    exists i | 0 <= i < |r.overrides| :: Candidate(r.overrides[i], account, version, now)
  }

  /** The caps are met, or the eldest fitting override is spent, or the order is refused and nothing changes. */
  ghost predicate CapsOutcome(rows: map<Key, Row>, r: Risk, d: Draft, w: World, cleared: Result<Origin>, r': Risk) {
    if !Priced(w.balances) then cleared == Err(StaleData) && r' == r
    else
      var policy := PolicyOf(r, d.key.account);
      var after := OpenTotal(rows, d.key.account) + HeldValue(w.balances) + d.notional;
      JudgedTo(r, d, policy, after, w.now, cleared, r')
  }

  ghost predicate JudgedTo(r: Risk, d: Draft, policy: Policy, after: real, now: int, cleared: Result<Origin>, r': Risk) {
    var verdict := EnforceCaps(policy, d.symbol, d.notional, after);
    if verdict == Within then cleared == Ok(Checked(policy, after, None)) && r' == r
    else if Overridable(verdict) && AnyCandidate(r, d.key.account, policy.version, now) then
      && cleared.Ok? && cleared.value.Checked? && cleared.value.override.Some?
      && var i := cleared.value.override.value;
         && Eldest(r.overrides, i, d.key.account, policy.version, now)
         && cleared == Ok(Checked(policy, after, Some(i)))
         && r' == Consume(r, i, d.key.idem, now)
    else cleared == Err(verdict.code) && r' == r
  }

  /** A settled row, or any row of a paper account, is answered as stored; the exchange is asked about the others. */
  predicate Asked(stored: Report, isReal: bool) {
    Uncertain(stored.status) && isReal
  }

  function RetriedReport(stored: Report, isReal: bool, p: Placement): Report {
    if Asked(stored, isReal) && !p.dies && p.found.Some? then p.found.value else stored
  }

  function RetriedReply(key: Key, stored: Report, isReal: bool, p: Placement): Reply {
    if Asked(stored, isReal) && p.dies then Failure else RowReply(key, RetriedReport(stored, isReal, p))
  }

  /** Everything one order call does to the two tables, and what it answers. */
  ghost predicate ExecuteOutcome(rows: map<Key, Row>, r: Risk, d: Draft, w: World,
                                 rows': map<Key, Row>, r': Risk, reply: Reply) {
    if d.key in rows then
      var stored := rows[d.key].report;
      && rows' == rows[d.key := rows[d.key].(report := RetriedReport(stored, d.isReal, w.placement))]
      && r' == r && reply == RetriedReply(d.key, stored, d.isReal, w.placement)
    else if w.preflight.Some? then
      rows' == rows && r' == r && reply == HaltReply(w.preflight.value)
    else
      exists cleared :: CapsOutcome(rows, r, d, w, cleared, r') && ClearedOutcome(rows, d, w, cleared, rows', reply)
  }

  ghost predicate ClearedOutcome(rows: map<Key, Row>, d: Draft, w: World, cleared: Result<Origin>,
                                 rows': map<Key, Row>, reply: Reply) {
    if cleared.Ok? then rows' == PlacedRows(rows, d, cleared.value, w.placement) && reply == PlacedReply(d, w.placement)
    else rows' == rows && reply == Refusal(cleared.error)
  }

  // ---------- one order call in full ----------

  /** A retry in full: the exchange is asked about a NEW, PARTIALLY_FILLED or UNKNOWN row of a real account, and only a
      report that it gives changes the row. */
  ghost predicate RetriedInFull(rows: map<Key, Row>, key: Key, isReal: bool, p: Placement,
                                rows': map<Key, Row>, reply: Reply)
    requires key in rows
  {
    var stored := rows[key].report;
    if !isReal || stored.status !in {New, PartiallyFilled, Unknown} then rows' == rows && reply == RowReply(key, stored)
    else if p.dies then rows' == rows && reply == Failure
    else if p.found == None then rows' == rows && reply == RowReply(key, stored)
    else
      && rows'.Keys == rows.Keys
      && (forall k | k in rows :: rows'[k] == if k == key then rows[k].(report := p.found.value) else rows[k])
      && reply == RowReply(key, p.found.value)
  }

  lemma RetriedExactly(rows: map<Key, Row>, key: Key, isReal: bool, p: Placement)
    requires key in rows
    ensures RetriedInFull(rows, key, isReal, p, rows[key := rows[key].(report := RetriedReport(rows[key].report, isReal, p))],
                          RetriedReply(key, rows[key].report, isReal, p))
  {
    var stored := rows[key].report;
    assert stored == rows[key].report && rows[key].(report := stored) == rows[key];
    assert rows[key := rows[key]] == rows;
  }

  /** The caps in full: an order within every limit that is set is cleared; one over them is cleared by spending the
      eldest override that fits; anything else is refused with the code of the first limit it breaks, and nothing is
      spent. */
  ghost predicate WeighedInFull(r: Risk, d: Draft, after: real, now: int, cleared: Result<Origin>, r': Risk) {
    var a := d.key.account;
    var policy := if a in r.policies then r.policies[a] else Policy(None, None, [], 0);
    var listed := policy.symbols == [] || d.symbol in policy.symbols;
    var within := && listed
                  && (policy.maxNotional != None ==> d.notional <= policy.maxNotional.value)
                  && (policy.maxExposure != None ==> after <= policy.maxExposure.value);
    if d.symbol == "" || d.notional <= 0.0 then cleared == Err(InvalidRequest) && r' == r
    else if within then cleared == Ok(Checked(policy, after, None)) && r' == r
    else if exists o :: o in r.overrides && o.account == a && o.version == policy.version && o.state == Reserved
                        && now < o.expiresAt then
      exists i: nat :: cleared == Ok(Checked(policy, after, Some(i)))
                       && SpendInFull(r, a, policy.version, d.key.idem, now, i, r')
    else cleared == Err(if listed then RiskLimitExceeded else SymbolNotAllowed) && r' == r
  }

  lemma WeighedExactly(r: Risk, d: Draft, after: real, now: int, cleared: Result<Origin>, r': Risk)
    requires JudgedTo(r, d, PolicyOf(r, d.key.account), after, now, cleared, r')
    ensures WeighedInFull(r, d, after, now, cleared, r')
  {
    var a, policy := d.key.account, PolicyOf(r, d.key.account);
    CapsExactly(policy, d.symbol, d.notional, after);
    RefusalsExactly(policy, d.symbol, d.notional, after);
    if o :| o in r.overrides && o.account == a && o.version == policy.version && o.state == Reserved && now < o.expiresAt {
      var i :| 0 <= i < |r.overrides| && r.overrides[i] == o;
      assert Candidate(r.overrides[i], a, policy.version, now);
    }
    if cleared.Ok? && cleared.value.override.Some? {
      var i := cleared.value.override.value;
      SpentExactly(r, a, policy.version, d.key.idem, now, i);
      assert r.overrides[i] in r.overrides;
    }
  }

  /** One order call in full: a retry; what the preflight refuses; a holding without a price, which is STALE_DATA; what the
      caps refuse; and an order that is recorded. */
  ghost predicate ExecutedInFull(rows: map<Key, Row>, r: Risk, d: Draft, w: World,
                                 rows': map<Key, Row>, r': Risk, reply: Reply) {
    if d.key in rows then r' == r && RetriedInFull(rows, d.key, d.isReal, w.placement, rows', reply)
    else if w.preflight.Some? then
      && rows' == rows && r' == r
      && match w.preflight.value
         case Raised(code) => reply == Refusal(code)
         case Died => reply == Failure
    else if !Priced(w.balances) then rows' == rows && r' == r && reply == Refusal(StaleData)
    else
      var after := OpenTotal(rows, d.key.account) + HeldValue(w.balances) + d.notional;
      exists cleared :: WeighedInFull(r, d, after, w.now, cleared, r') && RecordedInFull(rows, d, w, cleared, rows', reply)
  }

  /** What the caps refuse is answered with their code and leaves no row. */
  ghost predicate RecordedInFull(rows: map<Key, Row>, d: Draft, w: World, cleared: Result<Origin>,
                                 rows': map<Key, Row>, reply: Reply) {
    match cleared
    case Ok(origin) => PlacedInFull(rows, d, origin, w.placement, rows', reply)
    case Err(code) => rows' == rows && reply == Refusal(code)
  }

  lemma RecordedExactly(rows: map<Key, Row>, d: Draft, w: World, cleared: Result<Origin>,
                        rows': map<Key, Row>, reply: Reply)
    requires ClearedOutcome(rows, d, w, cleared, rows', reply)
    ensures RecordedInFull(rows, d, w, cleared, rows', reply)
  {
    if cleared.Ok? {
      PlacedExactly(rows, d, cleared.value, w.placement);
    }
  }

  lemma ClearedExactly(rows: map<Key, Row>, r: Risk, d: Draft, w: World, rows': map<Key, Row>, r': Risk, reply: Reply)
    requires d.key !in rows && w.preflight.None?
    requires ExecuteOutcome(rows, r, d, w, rows', r', reply)
    ensures ExecutedInFull(rows, r, d, w, rows', r', reply)
  {
    var cleared :| CapsOutcome(rows, r, d, w, cleared, r') && ClearedOutcome(rows, d, w, cleared, rows', reply);
    RecordedExactly(rows, d, w, cleared, rows', reply);
    if Priced(w.balances) {
      WeighedExactly(r, d, OpenTotal(rows, d.key.account) + HeldValue(w.balances) + d.notional, w.now, cleared, r');
    }
  }

  lemma ExecutedExactly(rows: map<Key, Row>, r: Risk, d: Draft, w: World, rows': map<Key, Row>, r': Risk, reply: Reply)
    requires ExecuteOutcome(rows, r, d, w, rows', r', reply)
    ensures ExecutedInFull(rows, r, d, w, rows', r', reply)
  {
    if d.key in rows {
      RetriedExactly(rows, d.key, d.isReal, w.placement);
    } else if w.preflight.None? {
      ClearedExactly(rows, r, d, w, rows', r', reply);
    }
  }

  /** A holding counts when it is neither the quote asset nor empty; only those need a price. */
  lemma PricedExactly(bs: seq<Balance>)
    ensures !Priced(bs) <==>
            exists i :: 0 <= i < |bs| && bs[i].asset != "USDT" && bs[i].free > 0.0 && bs[i].price == None
  {
    if !Priced(bs) {
      var i :| 0 <= i < |bs| && Valued(bs[i]) && bs[i].price.None?;
    }
    if i :| 0 <= i < |bs| && bs[i].asset != "USDT" && bs[i].free > 0.0 && bs[i].price == None {
      assert Valued(bs[i]);
    }
  }

  /** The held value line by line. */
  lemma HeldExactly(bs: seq<Balance>, b: Balance)
    requires Priced(bs) && (b.asset != "USDT" && b.free > 0.0 ==> b.price.Some?)
    ensures Priced(bs + [b]) && HeldValue([]) == 0.0
    ensures HeldValue(bs + [b])
         == HeldValue(bs) + (if b.asset != "USDT" && b.free > 0.0 then b.free * b.price.value else 0.0)
  {
    var all := bs + [b];
    assert all[..|bs|] == bs && all[|bs|] == b;
  }

  class OrderService {
    var rows: map<Key, Row>
    const risk: RiskPolicyService

    constructor (risk: RiskPolicyService)
      ensures rows == map[] && this.risk == risk
    {
      rows := map[];
      this.risk := risk;
    }

    method OpenOrderNotional(account: string) returns (total: real)
      ensures total == OpenTotal(rows, account)
    {
      total := 0.0;
      var left := rows.Keys;
      while left != {}
        invariant left <= rows.Keys
        invariant total + SumOver(rows, left, account, false) == OpenTotal(rows, account)
        decreases |left|
      {
        var k :| k in left;
        SumSplit(rows, left, account, false, k);
        if k.account == account {
          total := total + Counted(rows[k], false);
        }
        left := left - {k};
      }
    }

    /** The value of the holdings, or STALE_DATA when one of them has no fresh price. */
    method HoldingsValue(balances: seq<Balance>) returns (res: Result<real>)
      ensures res.Ok? <==> Priced(balances)
      ensures res.Ok? ==> res.value == HeldValue(balances)
      ensures res.Err? ==> res.error == StaleData
    {
      var held := 0.0;
      var i := 0;
      while i < |balances|
        invariant 0 <= i <= |balances|
        invariant Priced(balances[..i])
        invariant held == HeldValue(balances[..i])
      {
        assert balances[..i + 1][..i] == balances[..i];
        if Valued(balances[i]) {
          if balances[i].price.None? {
            return Err(StaleData);
          }
          held := held + balances[i].free * balances[i].price.value;
        }
        i := i + 1;
      }
      assert balances[..i] == balances;
      return Ok(held);
    }

    method EnforceCapsOrOverride(d: Draft, w: World) returns (cleared: Result<Origin>)
      modifies risk`overrides
      ensures CapsOutcome(rows, old(risk.Tables()), d, w, cleared, risk.Tables())
      ensures if !Priced(w.balances) then cleared == Err(StaleData) && risk.Tables() == old(risk.Tables())
              else WeighedInFull(old(risk.Tables()), d, OpenTotal(rows, d.key.account) + HeldValue(w.balances) + d.notional,
                                 w.now, cleared, risk.Tables())
    {
      var policy := PolicyOf(risk.Tables(), d.key.account);
      var open := OpenOrderNotional(d.key.account);
      var held := HoldingsValue(w.balances);
      if held.Err? {
        return Err(StaleData);
      }
      var after := open + held.value + d.notional;
      var verdict := EnforceCaps(policy, d.symbol, d.notional, after);
      if verdict == Within {
        return Ok(Checked(policy, after, None));
      }
      if Overridable(verdict) {
        var spent := risk.ConsumeOverride(d.key.account, policy.version, d.key.idem, w.now);
        if spent.Some? {
          return Ok(Checked(policy, after, Some(spent.value)));
        }
      }
      return Err(verdict.code);
    }

    /** The row is written first; only then is the broker called, and at most once. */
    method PlaceAndRecord(d: Draft, origin: Origin, p: Placement) returns (reply: Reply)
      requires d.key !in rows
      modifies `rows
      ensures rows == PlacedRows(old(rows), d, origin, p)
      ensures reply == PlacedReply(d, p)
      ensures PlacedInFull(old(rows), d, origin, p, rows, reply)
    {
      PlacedExactly(rows, d, origin, p);
      if p.stop.Some? {
        return HaltReply(p.stop.value);
      }
      if !d.isReal {
        rows := rows[d.key := RowFor(d, origin, Paper)];
        return RowReply(d.key, rows[d.key].report);
      }
      var inserted := RowFor(d, origin, New);
      rows := rows[d.key := inserted];
      if p.dies {
        return Failure;
      }
      var written := AfterSubmit(inserted.report, p.answer);
      if written.None? {
        written := Some(AfterTimeout(inserted.report, p.found));
      }
      rows := rows[d.key := inserted.(report := written.value)];
      if d.oco && p.answer.Placed? {
        return RowReply(d.key, inserted.report);
      }
      return RowReply(d.key, rows[d.key].report);
    }

    method HandleExisting(key: Key, isReal: bool, p: Placement) returns (reply: Reply)
      requires key in rows
      modifies `rows
      ensures rows == old(rows)[key := old(rows)[key].(report := RetriedReport(old(rows)[key].report, isReal, p))]
      ensures reply == RetriedReply(key, old(rows)[key].report, isReal, p)
      ensures RetriedInFull(old(rows), key, isReal, p, rows, reply)
    {
      RetriedExactly(rows, key, isReal, p);
      if !Uncertain(rows[key].report.status) {
        return RowReply(key, rows[key].report);
      }
      if !isReal {
        return RowReply(key, rows[key].report);
      }
      if p.dies {
        return Failure;
      }
      if p.found.Some? {
        rows := rows[key := rows[key].(report := p.found.value)];
      }
      return RowReply(key, rows[key].report);
    }

    /** `_execute_one_sized`, `_execute_one_direct` and `_execute_oco_direct`: they differ in their preflight, and in
        what they answer after a placement (`RepliedReport`). */
    method ExecuteOne(d: Draft, w: World) returns (reply: Reply)
      modifies `rows, risk`overrides
      ensures ExecuteOutcome(old(rows), old(risk.Tables()), d, w, rows, risk.Tables(), reply)
      ensures ExecutedInFull(old(rows), old(risk.Tables()), d, w, rows, risk.Tables(), reply)
    {
      if d.key in rows {
        reply := HandleExisting(d.key, d.isReal, w.placement);
        return;
      }
      if w.preflight.Some? {
        return HaltReply(w.preflight.value);
      }
      var cleared := EnforceCapsOrOverride(d, w);
      if cleared.Err? {
        return Refusal(cleared.error);
      }
      reply := PlaceAndRecord(d, cleared.value, w.placement);
      assert ClearedOutcome(old(rows), d, w, cleared, rows, reply);
      ExecutedExactly(old(rows), old(risk.Tables()), d, w, rows, risk.Tables(), reply);
    }

    // ---------- startup reconcile ----------

    /** One stuck row; `None` when the query failed, else whether anything was written. */
    method ReconcileRow(k: Key, ans: StartupAnswer) returns (wrote: Option<bool>)
      requires k in rows
      modifies `rows
      ensures rows == old(rows)[k := old(rows)[k].(report := ReconciledReport(old(rows)[k].report, ans))]
      ensures wrote == if ans.QueryError? then None else Some(!SameAsStored(old(rows)[k].report, ans))
    {
      if ans.QueryError? {
        return None;
      }
      if ans.found.None? || ans.found.value.status.Unknown? {
        rows := rows[k := rows[k].(report := rows[k].report.(status := Unknown))];
        return Some(true);
      }
      if ans.found.value == rows[k].report {
        return Some(false);
      }
      rows := rows[k := rows[k].(report := ans.found.value)];
      return Some(true);
    }

    /** `reconcile_open_orders`: one query for every unsettled row of a real account. */
    method ReconcileOpenOrders(reals: set<string>, answers: Key -> StartupAnswer) returns (sum: StartupSummary)
      modifies `rows
      ensures rows == ReconciledRows(old(rows), StuckKeys(old(rows), reals), answers)
      ensures Tallied(old(rows), StuckKeys(old(rows), reals), answers, sum)
      ensures StartupInFull(old(rows), reals, answers, rows, sum)
    {
      var stuck := StuckKeys(rows, reals);
      sum := StartupSummary(0, 0, 0, {});
      var left := stuck;
      ghost var done := {};
      assert ReconciledRows(rows, {}, answers) == rows;
      while left != {}
        invariant left !! done && left + done == stuck
        invariant rows == ReconciledRows(old(rows), done, answers)
        invariant Tallied(old(rows), done, answers, sum)
        decreases |left|
      {
        var k :| k in left;
        TallyGrows(old(rows), done, answers, sum, k);
        ReconciledOneMore(old(rows), done, answers, k);
        var wrote := ReconcileRow(k, answers(k));
        sum := Tally(sum, k, wrote);
        left, done := left - {k}, done + {k};
      }
      assert done == stuck;
      StartupExactly(old(rows), reals, answers, sum);
    }

    // ---------- kill switch ----------

    /** The resting rows, one after the other, as far as the call gets. */
    method CancelTargets(account: string, w: CloseWorld) returns (faults: seq<Fault>)
      modifies `rows
      ensures var targets := ReachedTargets(old(rows), account, w);
              && rows == CancelledRows(old(rows), targets, w.cancels)
              && (forall f | f in faults :: f.RowFault?)
              && (forall k :: RowFault(k) in faults <==> k in targets && CancelIsError(w.cancels(k)))
      ensures CancelledInFull(old(rows), account, w, rows, faults)
    {
      var targets := ReachedTargets(rows, account, w);
      faults := [];
      var left := targets;
      assert CancelledRows(rows, {}, w.cancels) == rows;
      while left != {}
        invariant left <= targets
        invariant rows == CancelledRows(old(rows), targets - left, w.cancels)
        invariant forall f | f in faults :: f.RowFault?
        invariant forall k :: RowFault(k) in faults <==> k in targets - left && CancelIsError(w.cancels(k))
        decreases |left|
      {
        var k :| k in left;
        left := left - {k};
        rows := rows[k := rows[k].(report := AfterCancel(rows[k].report, w.cancels(k)))];
        if CancelIsError(w.cancels(k)) {
          faults := faults + [RowFault(k)];
        }
      }
      assert targets - left == targets;
      CancelsExactly(old(rows), account, w, faults);
    }

    /** A paper account only closes its own rows. */
    method CancelPaper(account: string, w: CloseWorld)
      modifies `rows
      ensures rows == PaperClosedRows(old(rows), ReachedTargets(old(rows), account, w))
    {
      var targets := ReachedTargets(rows, account, w);
      var left := targets;
      assert PaperClosedRows(rows, {}) == rows;
      while left != {}
        invariant left <= targets
        invariant rows == PaperClosedRows(old(rows), targets - left)
        decreases |left|
      {
        var k :| k in left;
        left := left - {k};
        rows := rows[k := rows[k].(report := rows[k].report.(status := Canceled))];
      }
      assert targets - left == targets;
    }

    /** Exchange orders no local row stands for: cancelled one by one, or in bulk when they carry no client id. */
    method CancelForeign(account: string, orders: seq<ExchangeOrder>, w: CloseWorld) returns (faults: seq<Fault>)
      ensures forall f | f in faults :: !f.RowFault?
      ensures forall idem :: OrphanFault(idem) in faults <==> ListsOrphan(rows, account, orders, w, idem)
      ensures forall symbol :: BulkFault(symbol) in faults <==> ListsBulk(orders, w, symbol)
      ensures ForeignInFull(rows, account, orders, w, faults)
    {
      faults := [];
      for i := 0 to |orders|
        invariant forall f | f in faults :: !f.RowFault?
        invariant forall idem :: OrphanFault(idem) in faults <==> ListsOrphan(rows, account, orders[..i], w, idem)
        invariant forall symbol :: BulkFault(symbol) in faults <==> ListsBulk(orders[..i], w, symbol)
      {
        ListsOneMore(rows, account, orders, w, i);
        if OrphanFails(rows, account, orders[i], w.cancels) {
          faults := faults + [OrphanFault(orders[i].idem.value)];
        } else if BulkFails(orders[i], w.bulkOk(i)) {
          faults := faults + [BulkFault(orders[i].symbol)];
        }
      }
      assert orders[..|orders|] == orders;
      ForeignExactly(rows, account, orders, w, faults);
    }

    method SellFresh(account: string, h: Holding, quantity: real) returns (sale: Result<Sale>)
      requires h.price.Some?
      modifies `rows
      ensures FreshSale(old(rows), account, h, quantity, rows, sale)
    {
      var d := SaleDraft(account, h, quantity);
      if !SaleIsValid(h, quantity) {
        return Err(InvalidRequest);
      }
      if d.key in rows {
        return Err(InternalError);
      }
      var reply := PlaceAndRecord(d, KillSwitch, h.placement);
      match reply
      case RowReply(_, report) => return Ok(Sold(d.symbol, d.key, report.status));
      case Refusal(code) => return Err(code);
      case Failure => return Err(InternalError);
    }

    /** An earlier close sale is asked about before a new one is placed. */
    method SellOne(account: string, h: Holding, quantity: real) returns (sale: Result<Sale>)
      requires PlanOf(h) == Offer(quantity)
      modifies `rows
      ensures SellOutcome(old(rows), account, h, rows, sale)
      ensures SaleInFull(old(rows), account, h, quantity, rows, sale)
    {
      if k :| k in rows && OpenClose(rows, account, SymbolOf(h), k) {
        if h.lookup.LookupRaises? {
          assert ResumedSale(old(rows), account, h, quantity, k, rows, Err(h.lookup.code));
          SoldExactly(old(rows), account, h, rows, Err(h.lookup.code));
          return Err(h.lookup.code);
        }
        if Heard(h.lookup).Some? {
          var found := Heard(h.lookup).value;
          rows := rows[k := rows[k].(report := found)];
          if StillStands(found.status) {
            SoldExactly(old(rows), account, h, rows, Ok(Sold(SymbolOf(h), k, found.status)));
            return Ok(Sold(SymbolOf(h), k, found.status));
          }
        }
        sale := SellFresh(account, h, quantity);
        assert ResumedSale(old(rows), account, h, quantity, k, rows, sale);
      } else {
        sale := SellFresh(account, h, quantity);
      }
      SoldExactly(old(rows), account, h, rows, sale);
    }

    /** The balances, line by line, up to the first error. */
    method SellAll(account: string, hs: seq<Holding>) returns (res: Result<seq<Sale>>)
      modifies `rows
      ensures res.Ok? ==> SellRun(old(rows), account, hs, rows, res.value)
      ensures res.Err? ==> exists n, mid, before ::
                SellFailure(old(rows), account, hs, n, mid, before, rows, res.error)
    {
      var sold := [];
      for i := 0 to |hs|
        invariant SellRun(old(rows), account, hs[..i], rows, sold)
      {
        ghost var mid, before := rows, sold;
        var h := hs[i];
        var line := [];
        match PlanOf(h) {
          case Ignore =>
          case Skip => line := [Skipped(SymbolOf(h))];
          case Trouble(code) =>
            assert SellFailure(old(rows), account, hs, i, mid, before, rows, code);
            return Err(code);
          case Offer(quantity) =>
            var sale := SellOne(account, h, quantity);
            if sale.Err? {
              assert SellFailure(old(rows), account, hs, i, mid, before, rows, sale.error);
              return Err(sale.error);
            }
            line := [sale.value];
        }
        sold := sold + line;
        OneMoreLine(old(rows), account, hs, i, mid, before, rows, line);
      }
      assert hs[..|hs|] == hs;
      return Ok(sold);
    }

    /** `_close_one`. */
    method CloseOne(account: string, isReal: bool, w: CloseWorld) returns (res: Result<CloseReport>)
      modifies `rows
      ensures CloseOutcome(old(rows), account, isReal, w, rows, res)
      ensures CloseInFull(old(rows), account, isReal, w, rows, res)
    {
      if !isReal {
        CancelPaper(account, w);
        return if w.reached.Some? then Err(InternalError) else Ok(CloseReport(false, true, [], []));
      }
      if w.credentials.Some? {
        return Err(w.credentials.value);
      }
      if w.openOrders.Err? {
        return Err(w.openOrders.error);
      }
      var foreign := CancelForeign(account, w.openOrders.value, w);
      var local := CancelTargets(account, w);
      if w.reached.Some? {
        return Err(InternalError);
      }
      var faults := foreign + local;
      if w.balances.Err? {
        return Err(w.balances.error);
      }
      ghost var mid := rows;
      var sold := SellAll(account, w.balances.value);
      if sold.Err? {
        CloseExactly(old(rows), account, isReal, w, rows, Err(sold.error));
        return Err(sold.error);
      }
      res := Ok(CloseReport(faults == [] && AllFilled(sold.value), false, faults, sold.value));
      CloseExactly(old(rows), account, isReal, w, rows, res);
    }
  }
}
