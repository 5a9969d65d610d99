/** `storage/order_validation.py`: the checks every order passes before the broker is called. */
module OrderValidation {
  import opened Basics
  import opened RealMath
  import opened OrderRules
  import opened Sizing

  datatype OrderType = Market | Limit | StopLossLimit | Oco

  datatype Order = Order(
    side: Side,
    kind: OrderType,
    quantity: real,
    price: Option<real>,
    stop: Option<real>,
    stopLimit: Option<real>)

  const ALIGN_EPS := 0.000001

  /** Nearest whole number, ties to the even one. */
  function Round(x: real): int {
    var n := x.Floor;
    var rest := x - n as real;
    if rest < 0.5 then n
    else if rest > 0.5 then n + 1
    else if n % 2 == 0 then n
    else n + 1
  }

  /** `value` counts as a multiple of `unit`; a non-positive unit switches the check off. */
  predicate Aligned(value: real, unit: real) {
    unit > 0.0 ==> !(Abs(value / unit - Round(value / unit) as real) > ALIGN_EPS)
  }

  predicate PositiveIfGiven(x: Option<real>) {
    x.Some? ==> x.value > 0.0
  }

  predicate StopBeyondMarket(side: Side, stop: real, market: Option<real>) {
    market.Some? ==> if side.Sell? then !(stop >= market.value) else !(stop <= market.value)
  }

  /** The conditional fields, in the order they are looked at; every failure is INVALID_REQUEST. */
  predicate FieldsOk(o: Order, market: Option<real>) {
    match o.kind
    case Market => true
    case Limit => o.price.Some?
    case StopLossLimit => o.price.Some? && o.stop.Some? && StopBeyondMarket(o.side, o.stop.value, market)
    case Oco =>
      && o.price.Some? && o.stop.Some? && o.stopLimit.Some?
      && (if o.side.Sell? then !(o.stopLimit.value >= o.stop.value) && !(o.price.value <= o.stop.value)
          else !(o.stopLimit.value <= o.stop.value) && !(o.price.value >= o.stop.value))
      && StopBeyondMarket(o.side, o.stop.value, market)
  }

  predicate NumbersOk(o: Order, market: Option<real>) {
    && o.quantity > 0.0 && PositiveIfGiven(o.price) && PositiveIfGiven(o.stop) && PositiveIfGiven(o.stopLimit)
    && PositiveIfGiven(market)
  }

  function Notional(o: Order, market: Option<real>): Option<real> {
    if o.price.Some? then Some(o.quantity * o.price.value)
    else if market.Some? then Some(o.quantity * market.value)
    else None
  }

  /** A limit that exchangeInfo leaves open is infinite, which this layer refuses. */
  predicate FiltersFinite(f: Filters) {
    f.maxQty.Some? && f.maxPrice.Some?
  }

  predicate PriceOk(p: Option<real>, f: Filters) {
    p.Some? ==> !(p.value < f.minPrice || Above(p.value, f.maxPrice)) && Aligned(p.value - f.minPrice, f.tickSize)
  }

  /** The exchangeInfo guards, first failure first. */
  function CheckFilters(o: Order, f: Filters, notional: Option<real>): Option<ErrorCode> {
    if !FiltersFinite(f) then Some(FilterViolation)
    else if o.quantity < f.minQty then Some(FilterViolation)
    else if Above(o.quantity, f.maxQty) then Some(FilterViolation)
    else if !Aligned(o.quantity, f.stepSize) then Some(FilterViolation)
    else if !PriceOk(o.price, f) || !PriceOk(o.stop, f) || !PriceOk(o.stopLimit, f) then Some(FilterViolation)
    else if notional.None? then Some(InvalidRequest)
    else if notional.value < f.minNotional then Some(FilterViolation)
    else None
  }

  /** `validate_execution_order`: the notional it returns, or the canonical error. */
  function ValidateOrder(o: Order, filters: Option<Filters>, market: Option<real>): Result<Option<real>> {
    if !NumbersOk(o, market) || !FieldsOk(o, market) then Err(InvalidRequest)
    else
      var notional := Notional(o, market);
      var broken := if filters.Some? then CheckFilters(o, filters.value, notional) else None;
      if broken.Some? then Err(broken.value) else Ok(notional)
  }

  // ---------- what alignment means ----------

  /** No whole number is nearer than the rounded one. */
  lemma RoundIsNearest(x: real, n: int)
    ensures Abs(x - Round(x) as real) <= Abs(x - n as real)
  {
    var f := x.Floor;
    assert f as real <= x < f as real + 1.0;
    if n <= f {
      assert n as real <= f as real;
    } else {
      assert n as real >= f as real + 1.0;
    }
  }

  /** Some whole number of units lies within 1e-6 units of the value. */
  ghost predicate NearMultiple(value: real, unit: real) {
    exists n :: Abs(value - Steps(n, unit)) <= 0.000001 * unit
  }

  /** The distance to `n` units, measured in units. */
  lemma DistanceInUnits(value: real, unit: real, n: int)
    requires unit > 0.0
    ensures Abs(value - Steps(n, unit)) == Abs(value / unit - n as real) * unit
  {
    var d := value / unit - n as real;
    Distribute(d, n as real, unit);
    DivideThenScale(value, unit);
    assert d * unit == value - Steps(n, unit);
    AbsTimes(d, unit);
  }

  lemma AbsTimes(d: real, k: real)
    requires k > 0.0
    ensures Abs(d * k) == Abs(d) * k
  {
    if d < 0.0 {
      ScaleStrictly(d, 0.0, k);
    } else {
      ScaleUp(0.0, d, k);
    }
  }

  /** Comparing with the rounded quotient decides exactly whether the value is near a multiple. */
  lemma AlignedExactly(value: real, unit: real)
    requires unit > 0.0
    ensures Aligned(value, unit) <==> NearMultiple(value, unit)
  {
    if Aligned(value, unit) {
      var n := Round(value / unit);
      DistanceWithin(value, unit, n);
      assert NearMultiple(value, unit);
    }
    if NearMultiple(value, unit) {
      var n :| Abs(value - Steps(n, unit)) <= ALIGN_EPS * unit;
      DistanceWithin(value, unit, n);
      RoundIsNearest(value / unit, n);
    }
  }

  /** Within ALIGN_EPS of a unit, measured either way. */
  lemma DistanceWithin(value: real, unit: real, n: int)
    requires unit > 0.0
    ensures Abs(value - Steps(n, unit)) <= ALIGN_EPS * unit <==> Abs(value / unit - n as real) <= ALIGN_EPS
  {
    var d := Abs(value / unit - n as real);
    DistanceInUnits(value, unit, n);
    if d <= ALIGN_EPS {
      ScaleUp(d, ALIGN_EPS, unit);
    } else {
      ScaleStrictly(ALIGN_EPS, d, unit);
    }
  }

  // ---------- what is accepted ----------

  ghost predicate OnGrid(value: real, unit: real) {
    unit > 0.0 ==> NearMultiple(value, unit)
  }

  /** The prices an order carries. */
  function Prices(o: Order): set<real> {
    (if o.price.Some? then {o.price.value} else {})
    + (if o.stop.Some? then {o.stop.value} else {})
    + (if o.stopLimit.Some? then {o.stopLimit.value} else {})
  }

  /** The order makes sense on its own: the fields its type needs, and prices in the order its side dictates. */
  ghost predicate WellFormed(o: Order, market: Option<real>) {
    && o.quantity > 0.0
    && (forall p | p in Prices(o) :: p > 0.0)
    && (market.Some? ==> market.value > 0.0)
    && (!o.kind.Market? ==> o.price.Some?)
    && (o.kind.StopLossLimit? || o.kind.Oco? ==>
          && o.stop.Some?
          && (market.Some? ==> if o.side.Sell? then o.stop.value < market.value else market.value < o.stop.value))
    && (o.kind.Oco? ==>
          && o.stopLimit.Some?
          && if o.side.Sell? then o.stopLimit.value < o.stop.value < o.price.value
             else o.price.value < o.stop.value < o.stopLimit.value)
  }

  /** The order fits the symbol's lot and price grids. */
  ghost predicate FitsGrids(o: Order, f: Filters) {
    && f.maxQty.Some? && f.maxPrice.Some?
    && f.minQty <= o.quantity <= f.maxQty.value
    && OnGrid(o.quantity, f.stepSize)
    && forall p | p in Prices(o) :: f.minPrice <= p <= f.maxPrice.value && OnGrid(p - f.minPrice, f.tickSize)
  }

  ghost predicate Worth(o: Order, f: Filters, market: Option<real>) {
    if o.price.Some? then o.quantity * o.price.value >= f.minNotional
    else market.Some? && o.quantity * market.value >= f.minNotional
  }

  lemma AlignedIsOnGrid(value: real, unit: real)
    ensures Aligned(value, unit) <==> OnGrid(value, unit)
  {
    if unit > 0.0 {
      AlignedExactly(value, unit);
    }
  }

  lemma PriceOkMeans(p: Option<real>, f: Filters)
    requires FiltersFinite(f)
    ensures PriceOk(p, f) <==>
            (p.Some? ==> f.minPrice <= p.value <= f.maxPrice.value && OnGrid(p.value - f.minPrice, f.tickSize))
  {
    if p.Some? {
      AlignedIsOnGrid(p.value - f.minPrice, f.tickSize);
    }
  }

  lemma FieldsMean(o: Order, market: Option<real>)
    ensures NumbersOk(o, market) && FieldsOk(o, market) <==> WellFormed(o, market)
  {
    assert o.price.Some? ==> o.price.value in Prices(o);
    assert o.stop.Some? ==> o.stop.value in Prices(o);
    assert o.stopLimit.Some? ==> o.stopLimit.value in Prices(o);
  }

  lemma GridsMean(o: Order, f: Filters)
    requires FiltersFinite(f)
    ensures FitsGrids(o, f) <==>
            && f.minQty <= o.quantity && !Above(o.quantity, f.maxQty) && Aligned(o.quantity, f.stepSize)
            && PriceOk(o.price, f) && PriceOk(o.stop, f) && PriceOk(o.stopLimit, f)
  {
    AlignedIsOnGrid(o.quantity, f.stepSize);
    PriceOkMeans(o.price, f);
    PriceOkMeans(o.stop, f);
    PriceOkMeans(o.stopLimit, f);
    assert o.price.Some? ==> o.price.value in Prices(o);
    assert o.stop.Some? ==> o.stop.value in Prices(o);
    assert o.stopLimit.Some? ==> o.stopLimit.value in Prices(o);
  }

  /** What is accepted, and which of the two errors a refusal carries. */
  lemma AcceptedExactly(o: Order, f: Filters, market: Option<real>)
    ensures var r := ValidateOrder(o, Some(f), market);
            && (r.Ok? <==> WellFormed(o, market) && FitsGrids(o, f) && Worth(o, f, market))
            && (r == Err(InvalidRequest) <==>
                  !WellFormed(o, market) || (FitsGrids(o, f) && o.price.None? && market.None?))
            && (r.Err? && r.error != InvalidRequest ==> r.error == FilterViolation)
  {
    FieldsMean(o, market);
    if FiltersFinite(f) {
      GridsMean(o, f);
    }
  }

  /** The notional that is returned: at the order's own price when it carries one, else at the market's, if known. */
  lemma NotionalExactly(o: Order, filters: Option<Filters>, market: Option<real>)
    requires ValidateOrder(o, filters, market).Ok?
    ensures var notional := ValidateOrder(o, filters, market).value;
            if o.price.Some? then notional.Some? && notional.value == o.quantity * o.price.value
            else if market.Some? then notional.Some? && notional.value == o.quantity * market.value
            else notional.None?
  {
    assert ValidateOrder(o, filters, market).value == Notional(o, market);
  }

  /** The call without filters: accepted exactly when the order is well formed, and refused as INVALID_REQUEST. */
  lemma PreValidationExactly(o: Order, market: Option<real>)
    ensures ValidateOrder(o, None, market).Ok? <==> WellFormed(o, market)
    ensures ValidateOrder(o, None, market).Err? ==> ValidateOrder(o, None, market).error == InvalidRequest
  {
    FieldsMean(o, market);
  }

  /** The call without filters and market, made before the network is touched, refuses nothing the full call accepts. */
  lemma PreValidationIsWeaker(o: Order, filters: Option<Filters>, market: Option<real>)
    requires ValidateOrder(o, filters, market).Ok?
    ensures ValidateOrder(o, None, None).Ok?
    ensures o.price.Some? ==> ValidateOrder(o, None, None) == ValidateOrder(o, filters, market)
  {
  }

  // ---------- the sizer and the validator agree ----------

  lemma WholeStepsAreAligned(qty: real, step: real)
    requires step > 0.0 && WholeSteps(qty, step)
    ensures Aligned(qty, step)
  {
    var n :| qty == Steps(n, step);
    assert Abs(qty - Steps(n, step)) == 0.0;
    ScaleUp(0.0, ALIGN_EPS, step);
    AlignedExactly(qty, step);
  }

  lemma SizeIsAligned(q: Request, f: Filters)
    requires PositionSize(q, f).Ok?
    ensures Aligned(PositionSize(q, f).value, f.stepSize)
  {
    if f.stepSize > 0.0 {
      SizeIsSafe(q, f);
      WholeStepsAreAligned(PositionSize(q, f).value, f.stepSize);
    }
  }

  /** A size the sizer returns is accepted as a market order at its entry price exactly when the symbol's maxima are
      finite, and as a limit order when moreover the entry price is on the tick grid. */
  lemma SizedOrderIsAccepted(q: Request, f: Filters)
    requires PositionSize(q, f).Ok?
    ensures var qty := PositionSize(q, f).value;
            && (ValidateOrder(Order(q.side, Market, qty, None, None, None), Some(f), Some(q.entry)).Ok?
                <==> FiltersFinite(f))
            && (ValidateOrder(Order(q.side, Limit, qty, Some(q.entry), None, None), Some(f), None).Ok?
                <==> FiltersFinite(f) && OnGrid(q.entry - f.minPrice, f.tickSize))
  {
    SizeIsAligned(q, f);
    AlignedIsOnGrid(q.entry - f.minPrice, f.tickSize);
    SizePassesGuards(q, f);
  }

  lemma SizePassesGuards(q: Request, f: Filters)
    requires PositionSize(q, f).Ok?
    ensures var qty := PositionSize(q, f).value;
            && qty > 0.0 && q.entry > 0.0 && f.minQty <= qty && !Above(qty, f.maxQty)
            && f.minPrice <= q.entry && !Above(q.entry, f.maxPrice)
            && qty * q.entry >= f.minNotional
  {
  }
}
