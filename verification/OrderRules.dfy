/** The order row and the status decisions of `storage/orders.py`, shared by the protocol and by the service. */
module OrderRules {
  import opened Basics
  import opened RiskRules

  datatype Status = New | PartiallyFilled | Filled | Canceled | Rejected | Expired | Unknown | Paper

  /** Counted in exposure and asked about again: NEW, PARTIALLY_FILLED, UNKNOWN. */
  predicate Uncertain(s: Status) {
    s.New? || s.PartiallyFilled? || s.Unknown?
  }

  predicate Terminal(s: Status) {
    !Uncertain(s)
  }

  /** What the kill switch selects: NEW, PARTIALLY_FILLED. */
  predicate Resting(s: Status) {
    s.New? || s.PartiallyFilled?
  }

  /** The broker's canonical answer about one order, and the four columns it fills. */
  datatype Report = Report(status: Status, exchangeId: Option<string>, executedQty: real, avgPrice: real)

  const FRESH := Report(New, None, 0.0, 0.0)

  datatype Side = Buy | Sell

  /** How a row came to be written: through the caps, or by the kill switch, which has none. */
  datatype Origin =
    | Checked(policy: Policy, exposureAfter: real, override: Option<nat>)
    | KillSwitch

  /** UNIQUE (account_id, idempotency_key); it also fixes the client order id. */
  datatype Key = Key(account: string, idem: string)

  datatype Row = Row(
    symbol: string,
    side: Side,
    oco: bool,
    quantity: real,
    notional: real,
    report: Report,
    origin: Origin)

  predicate OverCap(row: Row) {
    row.origin.Checked? && EnforceCaps(row.origin.policy, row.symbol, row.notional, row.origin.exposureAfter) != Within
  }

  // ---------- decisions ----------

  /** How a submission can end: an answer, ORDER_REJECTED, another canonical error, or a timeout. */
  datatype SubmitAnswer =
    | Placed(report: Report)
    | RefusedByExchange
    | FailedOtherwise
    | NoAnswer

  /** What is written after a submission; `None` means the exchange is asked first. */
  function AfterSubmit(stored: Report, ans: SubmitAnswer): Option<Report> {
    match ans
    case Placed(report) => Some(report)
    case RefusedByExchange => Some(stored.(status := Rejected))
    case FailedOtherwise => Some(stored.(status := Unknown))
    case NoAnswer => None
  }

  /** `_reconcile_after_timeout`: not found, or the query failed, is UNKNOWN, never a second submission. */
  function AfterTimeout(stored: Report, found: Option<Report>): Report {
    if found.Some? then found.value else stored.(status := Unknown)
  }

  /** The columns a submission ends with. */
  function SubmittedReport(answer: SubmitAnswer, found: Option<Report>): Report {
    var written := AfterSubmit(FRESH, answer);
    if written.Some? then written.value else AfterTimeout(FRESH, found)
  }

  /** `reconcile_open_orders`: not found and UNKNOWN both keep the stored fill columns. */
  function AfterStartup(stored: Report, found: Option<Report>): Report {
    if found.None? || found.value.status.Unknown? then stored.(status := Unknown) else found.value
  }

  /** The kill switch's follow-up query: a raw timeout, a canonical error, "no such order", or a report. The code takes a
      canonical error for "no such order", and the broker turns every network timeout into one. */
  datatype QueryAnswer = QueryTimedOut | QueryFailed | QueryEmpty | QueryFound(report: Report)

  /** How a cancel request can end; `NotThere` is the exchange's -2011. */
  datatype CancelAnswer =
    | CancelFailed
    | NotThere(query: QueryAnswer)
    | CancelReport(report: Report)

  function AfterCancelReport(stored: Report, report: Report): Report {
    if report.status.Canceled? then stored.(status := Canceled)
    else if Uncertain(report.status) then stored.(status := Unknown)
    else report
  }

  /** `_cancel_one`: the columns after one cancellation. */
  function AfterCancel(stored: Report, ans: CancelAnswer): Report {
    match ans
    case CancelFailed => stored.(status := Unknown)
    case NotThere(QueryTimedOut) => stored.(status := Unknown)
    case NotThere(QueryFailed) => stored.(status := Canceled)
    case NotThere(QueryEmpty) => stored.(status := Canceled)
    case NotThere(QueryFound(report)) => if Uncertain(report.status) then stored.(status := Unknown) else report
    case CancelReport(report) => AfterCancelReport(stored, report)
  }

  /** `_cancel_one` appends to `cancel_errors` exactly here. */
  predicate CancelIsError(ans: CancelAnswer) {
    match ans
    case CancelFailed => true
    case NotThere(QueryTimedOut) => true
    case NotThere(QueryFailed) => false
    case NotThere(QueryEmpty) => false
    case NotThere(QueryFound(report)) => Uncertain(report.status)
    case CancelReport(report) => Uncertain(report.status)
  }

  /** The columns after one cancellation, and whether it is reported as an error, answer by answer: an unanswered or
      unfinished cancellation is UNKNOWN, an order that is not there is CANCELED, and either keeps the fill columns; any
      other final report is taken over whole. */
  predicate CancelInFull(stored: Report, ans: CancelAnswer, after: Report, faulty: bool) {
    var unknown := Report(Unknown, stored.exchangeId, stored.executedQty, stored.avgPrice);
    var canceled := Report(Canceled, stored.exchangeId, stored.executedQty, stored.avgPrice);
    match ans
    case CancelFailed => after == unknown && faulty
    case NotThere(QueryTimedOut) => after == unknown && faulty
    case NotThere(QueryFailed) => after == canceled && !faulty
    case NotThere(QueryEmpty) => after == canceled && !faulty
    case NotThere(QueryFound(report)) =>
      if report.status in {New, PartiallyFilled, Unknown} then after == unknown && faulty
      else after == report && !faulty
    case CancelReport(report) =>
      if report.status in {New, PartiallyFilled, Unknown} then after == unknown && faulty
      else if report.status == Canceled then after == canceled && !faulty
      else after == report && !faulty
  }

  lemma CancelledExactly(stored: Report, ans: CancelAnswer)
    ensures CancelInFull(stored, ans, AfterCancel(stored, ans), CancelIsError(ans))
  {
    match ans
    case NotThere(query) => {
      match query
      case QueryFound(report) =>
      case _ =>
    }
    case _ =>
  }

  /** A cancellation never leaves the row resting, and leaves it UNKNOWN exactly when it reports an error. */
  lemma CancelSettlesOrReports(stored: Report, ans: CancelAnswer)
    ensures !Resting(AfterCancel(stored, ans).status)
    ensures AfterCancel(stored, ans).status.Unknown? <==> CancelIsError(ans)
  {
    match ans
    case NotThere(q) => {
      match q
      case QueryFound(report) =>
      case _ =>
    }
    case _ =>
  }

  /** The cancellation was not verified: the order was not there, and asking about it failed. */
  predicate Unverified(ans: CancelAnswer) {
    ans.NotThere? && ans.query.QueryFailed?
  }

  /** The answer leaves open what became of the order: the request or the query failed, or reported no final status. */
  predicate LeavesDoubt(ans: CancelAnswer) {
    match ans
    case CancelFailed => true
    case NotThere(QueryTimedOut) => true
    case NotThere(QueryFailed) => true
    case NotThere(QueryEmpty) => false
    case NotThere(QueryFound(report)) => Uncertain(report.status)
    case CancelReport(report) => Uncertain(report.status)
  }

  /** A doubtful cancellation is meant to be recorded as UNKNOWN and to be reported. That is so for every doubtful answer
      but one: the failed query, which is recorded as CANCELED and not reported. */
  lemma DoubtIsReportedExactly(stored: Report, ans: CancelAnswer)
    requires LeavesDoubt(ans)
    ensures AfterCancel(stored, ans).status.Unknown? && CancelIsError(ans) <==> !Unverified(ans)
    ensures Unverified(ans) ==> AfterCancel(stored, ans).status.Canceled? && !CancelIsError(ans)
  {
    CancelSettlesOrReports(stored, ans);
    match ans
    case NotThere(query) => {
      match query
      case QueryFound(report) =>
      case _ =>
    }
    case _ =>
  }

  // ---------- what the exchange knows ----------

  /** What has become of an order the exchange took: it may still fill, it was filled, or it ended without being filled. */
  datatype Fate = Alive | Done | Gone

  /** The status is what happened; `None` stands for an order the exchange never took. */
  predicate StatusTrue(status: Status, fate: Option<Fate>) {
    match status
    case Filled => fate == Some(Done)
    case Paper => fate.None?
    case _ => Terminal(status) ==> fate != Some(Alive) && fate != Some(Done)
  }

  /** The list query reports a finished OCO as FILLED, even when neither leg was. */
  predicate Misread(oco: bool, status: Status, fate: Option<Fate>) {
    oco && status.Filled? && fate == Some(Gone)
  }

  /** A truthful broker reports a terminal status only when it is so, apart from the misread lists. */
  predicate TruthfulAbout(fate: Option<Fate>, oco: bool, report: Report) {
    !report.status.Paper? && (StatusTrue(report.status, fate) || Misread(oco, report.status, fate))
  }

  /** An order that is not there to be cancelled is not alive, and one that a query does not find was not filled either;
      a query that fails says nothing. */
  predicate TruthfulCancelAbout(fate: Option<Fate>, oco: bool, ans: CancelAnswer) {
    match ans
    case CancelFailed => true
    case NotThere(query) =>
      && fate != Some(Alive)
      && (query.QueryEmpty? ==> fate != Some(Done))
      && (query.QueryFound? ==> TruthfulAbout(fate, oco, query.report))
    case CancelReport(report) => TruthfulAbout(fate, false, report)
  }

  lemma FatesAreThree(fate: Option<Fate>)
    ensures fate == None || fate == Some(Alive) || fate == Some(Done) || fate == Some(Gone)
  {
    if fate.Some? {
      assert fate.value.Alive? || fate.value.Done? || fate.value.Gone?;
    }
  }

  /** True statuses, one by one: FILLED stands for a filled order, CANCELED, REJECTED and EXPIRED for one that was not filled
      and cannot be any more, PAPER for one that the exchange never took; the unsettled ones claim nothing. */
  lemma StatusTrueExactly(status: Status, fate: Option<Fate>)
    ensures StatusTrue(status, fate) <==>
              match status
              case New => true
              case PartiallyFilled => true
              case Unknown => true
              case Filled => fate == Some(Done)
              case Paper => fate == None
              case Canceled => fate == None || fate == Some(Gone)
              case Rejected => fate == None || fate == Some(Gone)
              case Expired => fate == None || fate == Some(Gone)
  {
    FatesAreThree(fate);
  }

  /** What is assumed of the exchange, answer by answer: an unsettled report and a failed request say nothing; FILLED is
      reported of filled orders and of ended OCO lists, the other final statuses of orders that ended without being filled
      or were never taken; an order that is not there is not open, and one that is not found was not filled. */
  lemma TruthfulExactly(fate: Option<Fate>, oco: bool, report: Report)
    ensures TruthfulAbout(fate, oco, report) <==>
              || report.status in {New, PartiallyFilled, Unknown}
              || (report.status == Filled && (fate == Some(Done) || (oco && fate == Some(Gone))))
              || (report.status in {Canceled, Rejected, Status.Expired} && (fate == None || fate == Some(Gone)))
    ensures TruthfulCancelAbout(fate, oco, CancelFailed)
    ensures TruthfulCancelAbout(fate, oco, CancelReport(report)) <==> TruthfulAbout(fate, false, report)
    ensures TruthfulCancelAbout(fate, oco, NotThere(QueryTimedOut)) <==> fate != Some(Alive)
    ensures TruthfulCancelAbout(fate, oco, NotThere(QueryFailed)) <==> fate != Some(Alive)
    ensures TruthfulCancelAbout(fate, oco, NotThere(QueryEmpty)) <==> fate == None || fate == Some(Gone)
    ensures TruthfulCancelAbout(fate, oco, NotThere(QueryFound(report))) <==>
              fate != Some(Alive) && TruthfulAbout(fate, oco, report)
  {
    FatesAreThree(fate);
  }

  /** The two ways to write an untrue status: the cancellation was not verified and the order had been filled, or the list
      of a cancelled OCO is read as FILLED. */
  predicate CancelLies(fate: Option<Fate>, oco: bool, ans: CancelAnswer) {
    || (Unverified(ans) && fate == Some(Done))
    || (ans.NotThere? && ans.query.QueryFound? && Misread(oco, ans.query.report.status, fate))
  }

  /** What a cancellation writes is what happened to the order, except exactly in these two cases. */
  lemma CancelTellsTruthExactly(stored: Report, fate: Option<Fate>, oco: bool, ans: CancelAnswer)
    requires TruthfulCancelAbout(fate, oco, ans)
    ensures StatusTrue(AfterCancel(stored, ans).status, fate)
       <==> !CancelLies(fate, oco, ans)
  {
    CancelSettlesOrReports(stored, ans);
    match ans
    case NotThere(query) => {
      match query
      case QueryFound(report) =>
      case _ =>
    }
    case _ =>
  }

  /** A cancellation that reports no error has ended the order, or found it ended. */
  lemma NoErrorNotAlive(fate: Option<Fate>, oco: bool, ans: CancelAnswer)
    requires TruthfulCancelAbout(fate, oco, ans) && !CancelIsError(ans)
    ensures fate != Some(Alive)
  {
    match ans
    case NotThere(query) =>
    case _ =>
  }
}
