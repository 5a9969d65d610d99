/** `position_sizing.py`: risk-based, fee-aware sizing rounded down to the exchange's lot step. */
module Sizing {
  import opened Basics
  import opened RealMath
  import opened OrderRules

  const EPS := 0.000000001

  /** exchangeInfo limits; an absent maximum is infinite. */
  datatype Filters = Filters(
    stepSize: real,
    minQty: real,
    maxQty: Option<real>,
    minNotional: real,
    tickSize: real,
    minPrice: real,
    maxPrice: Option<real>)

  predicate Above(x: real, bound: Option<real>) {
    bound.Some? && x > bound.value
  }

  function RoundDownToStep(value: real, step: real): real {
    if step <= 0.0 then value else (value / step + EPS).Floor as real * step
  }

  function Min(x: real, y: real): real {
    if x <= y then x else y
  }

  datatype Request = Request(
    symbol: string,
    balance: real,
    riskPct: real,
    entry: real,
    stop: real,
    side: Side,
    feeRate: real)

  /** Stop below entry for a buy, above it for a sell. */
  predicate StopDirectionOk(side: Side, entry: real, stop: real) {
    if side.Buy? then stop < entry else stop > entry
  }

  predicate ValidRequest(q: Request) {
    && q.symbol != "" && StopDirectionOk(q.side, q.entry, q.stop)
    && 0.0 < q.riskPct <= 1.0 && q.balance > 0.0 && q.entry > 0.0 && q.stop > 0.0 && q.feeRate >= 0.0
  }

  /** The most the risk budget and the balance allow, before rounding. */
  function Optimum(q: Request): real
    requires ValidRequest(q)
  {
    Min(q.balance * q.riskPct / Abs(q.entry - q.stop), q.balance / (q.entry * (1.0 + q.feeRate)))
  }

  /** The guards on the rounded quantity, first failure first. */
  function CheckSize(q: Request, f: Filters, qty: real): Result<real> {
    var notional := qty * q.entry;
    if qty <= 0.0 || qty < f.minQty then Err(FilterViolation)
    else if Above(qty, f.maxQty) then Err(FilterViolation)
    else if notional < f.minNotional then Err(FilterViolation)
    else if notional + notional * q.feeRate > q.balance then Err(InsufficientBalance)
    else Ok(qty)
  }

  /** `calculate_position_size`. */
  function PositionSize(q: Request, f: Filters): Result<real> {
    if !ValidRequest(q) then Err(InvalidRequest)
    else if q.entry < f.minPrice || Above(q.entry, f.maxPrice) then Err(FilterViolation)
    else CheckSize(q, f, RoundDownToStep(Optimum(q), f.stepSize))
  }

  // ---------- rounding ----------

  function Steps(n: int, step: real): real {
    n as real * step
  }

  ghost predicate WholeSteps(qty: real, step: real) {
    exists n :: qty == Steps(n, step)
  }

  lemma OneMore(x: real, y: real, k: real)
    requires y == x + 1.0
    ensures y * k == x * k + k
  {
  }

  lemma Between(low: real, x: real, above: real, step: real)
    requires step > 0.0 && low <= x < above && above == low + 1.0
    ensures low * step <= x * step < low * step + step
  {
    ScaleUp(low, x, step);
    ScaleStrictly(x, above, step);
    OneMore(low, above, step);
  }

  lemma StepsBetween(n: int, low: real, x: real, above: real, step: real)
    requires step > 0.0 && low <= x < above && above == low + 1.0 && low == n as real
    ensures Steps(n, step) <= x * step < Steps(n, step) + step
  {
    Between(low, x, above, step);
    assert Steps(n, step) == low * step;
  }

  lemma FloorTimes(x: real, n: int, step: real)
    requires n == x.Floor && step > 0.0
    ensures Steps(n, step) <= x * step < Steps(n, step) + step
  {
    StepsBetween(n, n as real, x, n as real + 1.0, step);
  }

  /** `n` whole steps lie at most EPS steps above the value, and one more step lies above it. */
  lemma FloorBrackets(value: real, step: real) returns (n: int)
    requires step > 0.0
    ensures n == (value / step + EPS).Floor
    ensures RoundDownToStep(value, step) == Steps(n, step)
    ensures Steps(n, step) <= value + EPS * step
    ensures value + EPS * step < Steps(n, step) + step
  {
    var x := value / step + EPS;
    n := x.Floor;
    FloorTimes(x, n, step);
    Distribute(value / step, EPS, step);
    DivideThenScale(value, step);
  }

  /** The rounded value is a whole number of steps, at most EPS steps above the input and less than one below it. */
  lemma RoundedWithinStep(value: real, step: real)
    requires step > 0.0
    ensures WholeSteps(RoundDownToStep(value, step), step)
    ensures RoundDownToStep(value, step) <= value + EPS * step
    ensures value < RoundDownToStep(value, step) + step
  {
    var n := FloorBrackets(value, step);
  }

  /** A whole number of steps is left alone, so rounding twice is rounding once. */
  lemma RoundingKeepsWholeSteps(n: int, step: real)
    requires step > 0.0
    ensures RoundDownToStep(Steps(n, step), step) == Steps(n, step)
  {
    var v := Steps(n, step);
    ScaleThenDivide(n as real, step);
    assert v / step == n as real;
    var m := (v / step + EPS).Floor;
    assert m == n;
    assert RoundDownToStep(v, step) == m as real * step;
    assert m as real * step == n as real * step;
  }

  lemma RoundingIsIdempotent(value: real, step: real)
    ensures RoundDownToStep(RoundDownToStep(value, step), step) == RoundDownToStep(value, step)
  {
    if step > 0.0 {
      var n := FloorBrackets(value, step);
      RoundingKeepsWholeSteps(n, step);
    }
  }

  lemma FewerSteps(m: int, n: int, step: real)
    requires m <= n && step > 0.0
    ensures Steps(m, step) <= Steps(n, step)
  {
    ScaleUp(m as real, n as real, step);
  }

  // ---------- what a returned size promises ----------

  /** A returned size is positive and inside the lot limits, is affordable with its fee, is a whole number of steps,
      and lies within one step of the unrounded optimum. */
  lemma SizeIsSafe(q: Request, f: Filters)
    requires PositionSize(q, f).Ok?
    ensures var qty := PositionSize(q, f).value;
            && qty > 0.0 && f.minQty <= qty && !Above(qty, f.maxQty)
            && qty * q.entry >= f.minNotional
            && qty * q.entry * (1.0 + q.feeRate) <= q.balance
            && (f.stepSize <= 0.0 ==> qty == Optimum(q))
            && (f.stepSize > 0.0 ==> WholeSteps(qty, f.stepSize)
                                     && -EPS * f.stepSize <= Optimum(q) - qty < f.stepSize)
  {
    var notional := PositionSize(q, f).value * q.entry;
    Distribute(1.0, q.feeRate, notional);
    if f.stepSize > 0.0 {
      RoundedWithinStep(Optimum(q), f.stepSize);
    }
  }

  // ---------- sizing in full ----------

  lemma OptimumParts(q: Request, x: real, unit: real, cost: real)
    requires ValidRequest(q) && unit == Abs(q.entry - q.stop) && unit > 0.0
    requires cost == q.entry * (1.0 + q.feeRate) && cost > 0.0
    ensures x <= Optimum(q) <==> x <= q.balance * q.riskPct / unit && x <= q.balance / cost
  {
  }

  /** A quantity is within the optimum exactly when its loss at the stop is within the risk budget and its cost with the fee
      is within the balance. */
  lemma OptimumExactly(q: Request, x: real)
    requires ValidRequest(q)
    ensures var unit := if q.entry >= q.stop then q.entry - q.stop else q.stop - q.entry;
            x <= Optimum(q) <==> x * unit <= q.balance * q.riskPct && x * (q.entry * (1.0 + q.feeRate)) <= q.balance
  {
    var unit := if q.entry >= q.stop then q.entry - q.stop else q.stop - q.entry;
    var cost, budget := q.entry * (1.0 + q.feeRate), q.balance * q.riskPct;
    UnitCost(q);
    OptimumParts(q, x, unit, cost);
    QuotientBounds(x, budget, unit);
    QuotientBounds(x, q.balance, cost);
  }

  lemma QuotientBounds(x: real, total: real, unit: real)
    requires unit > 0.0
    ensures x <= total / unit <==> x * unit <= total
  {
    DivideThenScale(total, unit);
    if x <= total / unit {
      ScaleUp(x, total / unit, unit);
    } else {
      ScaleStrictly(total / unit, x, unit);
    }
  }

  /** The lot rounding: the largest whole number of steps that is at most 1e-9 of a step above the value. */
  ghost predicate RoundedInFull(value: real, step: real, qty: real) {
    if step <= 0.0 then qty == value
    else WholeSteps(qty, step) && qty <= value + 0.000000001 * step < qty + step
  }

  lemma RoundedExactly(value: real, step: real)
    ensures RoundedInFull(value, step, RoundDownToStep(value, step))
  {
    if step > 0.0 {
      var n := FloorBrackets(value, step);
    }
  }

  /** A request makes sense: a symbol, a stop on the losing side of the entry, a risk of at most the whole balance. */
  predicate SoundRequest(q: Request) {
    && q.symbol != "" && q.balance > 0.0 && q.entry > 0.0 && q.stop > 0.0 && q.feeRate >= 0.0
    && q.riskPct > 0.0 && q.riskPct <= 1.0
    && (q.side == Buy ==> q.stop < q.entry) && (q.side == Sell ==> q.stop > q.entry)
  }

  /** The guards in full: every limit of the symbol, then the balance, fee included. */
  lemma CheckedExactly(q: Request, f: Filters, qty: real)
    ensures CheckSize(q, f, qty) ==
            if qty <= 0.0 || qty < f.minQty || (f.maxQty != None && qty > f.maxQty.value)
               || qty * q.entry < f.minNotional then Err(FilterViolation)
            else if qty * q.entry + qty * q.entry * q.feeRate > q.balance then Err(InsufficientBalance)
            else Ok(qty)
  {
  }

  /** Sizing in full: what is refused before the quantity is known, and that it is the lot-rounded optimum that then has to
      pass the guards. */
  lemma SizedExactly(q: Request, f: Filters) returns (qty: real)
    ensures !SoundRequest(q) ==> PositionSize(q, f) == Err(InvalidRequest)
    ensures SoundRequest(q) && (q.entry < f.minPrice || (f.maxPrice != None && q.entry > f.maxPrice.value)) ==>
              PositionSize(q, f) == Err(FilterViolation)
    ensures SoundRequest(q) && f.minPrice <= q.entry && (f.maxPrice == None || q.entry <= f.maxPrice.value) ==>
              ValidRequest(q) && RoundedInFull(Optimum(q), f.stepSize, qty) && PositionSize(q, f) == CheckSize(q, f, qty)
  {
    qty := 0.0;
    if ValidRequest(q) {
      qty := RoundDownToStep(Optimum(q), f.stepSize);
      RoundedExactly(Optimum(q), f.stepSize);
    }
  }

  /** What the EPS of the rounding can add. */
  function Slack(f: Filters): real {
    if f.stepSize > 0.0 then EPS * f.stepSize else 0.0
  }

  /** The loss at the stop is at most the budget, plus EPS of one step's loss. */
  lemma SizeRespectsRisk(q: Request, f: Filters)
    requires PositionSize(q, f).Ok?
    ensures var unit := Abs(q.entry - q.stop);
            PositionSize(q, f).value * unit <= q.balance * q.riskPct + Slack(f) * unit
  {
    SizeIsRounded(q, f);
    RoundingWithinSlack(Optimum(q), f);
    OptimumWithinRisk(q);
    LossWithin(PositionSize(q, f).value, q.balance * q.riskPct, Abs(q.entry - q.stop), Slack(f));
  }

  lemma OptimumWithinRisk(q: Request)
    requires ValidRequest(q)
    ensures Abs(q.entry - q.stop) > 0.0
    ensures Optimum(q) <= q.balance * q.riskPct / Abs(q.entry - q.stop)
  {
  }

  lemma RoundingWithinSlack(value: real, f: Filters)
    ensures RoundDownToStep(value, f.stepSize) <= value + Slack(f)
  {
    if f.stepSize > 0.0 {
      RoundedWithinStep(value, f.stepSize);
    }
  }

  lemma SizeIsRounded(q: Request, f: Filters)
    requires PositionSize(q, f).Ok?
    ensures ValidRequest(q) && PositionSize(q, f).value == RoundDownToStep(Optimum(q), f.stepSize)
  {
  }

  lemma LossWithin(qty: real, budget: real, unit: real, slack: real)
    requires unit > 0.0 && qty <= budget / unit + slack
    ensures qty * unit <= budget + slack * unit
  {
    ScaleUp(qty, budget / unit + slack, unit);
    Distribute(budget / unit, slack, unit);
    DivideThenScale(budget, unit);
  }

  lemma OneStepUp(n: int, step: real)
    ensures Steps(n + 1, step) == Steps(n, step) + step
  {
    OneMore(n as real, (n + 1) as real, step);
  }

  /** No larger whole number of steps stays within the optimum. */
  lemma SizeIsMaximal(q: Request, f: Filters, m: int)
    requires PositionSize(q, f).Ok? && f.stepSize > 0.0
    requires Steps(m, f.stepSize) > PositionSize(q, f).value
    ensures Steps(m, f.stepSize) > Optimum(q)
  {
    var n := FloorBrackets(Optimum(q), f.stepSize);
    if m <= n {
      FewerSteps(m, n, f.stepSize);
    } else {
      FewerSteps(n + 1, m, f.stepSize);
      OneStepUp(n, f.stepSize);
    }
  }

  /** The final balance check fires only when the EPS of the rounding carried the size above the optimum. */
  lemma BalanceCheckCatchesRounding(q: Request, f: Filters)
    requires PositionSize(q, f) == Err(InsufficientBalance)
    ensures f.stepSize > 0.0
    ensures Optimum(q) < RoundDownToStep(Optimum(q), f.stepSize) <= Optimum(q) + EPS * f.stepSize
  {
    var qty := RoundDownToStep(Optimum(q), f.stepSize);
    var unit := q.entry * (1.0 + q.feeRate);
    UnitCost(q);
    CostWithFee(qty, q.entry, q.feeRate);
    if qty <= Optimum(q) {
      Affordable(qty, q.balance, unit);
    }
    if f.stepSize > 0.0 {
      RoundedWithinStep(Optimum(q), f.stepSize);
    }
  }

  lemma CostWithFee(qty: real, entry: real, fee: real)
    ensures qty * (entry * (1.0 + fee)) == qty * entry + qty * entry * fee
  {
    Regroup(qty, entry, 1.0 + fee);
    Distribute(1.0, fee, qty * entry);
  }

  lemma Affordable(qty: real, balance: real, unit: real)
    requires unit > 0.0 && qty <= balance / unit
    ensures qty * unit <= balance
  {
    ScaleUp(qty, balance / unit, unit);
    DivideThenScale(balance, unit);
  }

  lemma UnitCost(q: Request)
    requires ValidRequest(q)
    ensures q.entry * (1.0 + q.feeRate) > 0.0
  {
    ScaleStrictly(0.0, q.entry, 1.0 + q.feeRate);
  }

  lemma Regroup(x: real, y: real, z: real)
    ensures x * y * z == x * (y * z)
  {
  }
}
