/** `_place_and_record` of `storage/orders.py` as functions: what becomes of one order that the caps have cleared. */
module OrderPlacing {
  import opened Basics
  import opened OrderRules
  import opened OrderProtocol

  /** How a call ends early: with a canonical error, or with any other. */
  datatype Halt = Raised(code: ErrorCode) | Died

  function HaltReply(h: Halt): Reply {
    if h.Raised? then Refusal(h.code) else Failure
  }

  /** What the outside world does with a cleared order, or answers about a known one. */
  datatype Placement = Placement(
    stop: Option<Halt>,              // why it is not recorded: the last validation, or a failing insert
    fate: Option<Fate>,              // what the exchange had made of the order when it answered; `None`: not taken
    answer: SubmitAnswer,
    found: Option<Report>,           // the query after a timeout, or about an existing order
    dies: bool)                      // an error that the code does not catch ends the call after the row is durable

  /** The columns a recorded order ends with: paper at once, or what the broker's answers decide. */
  function PlacedReport(isReal: bool, p: Placement): Report {
    if isReal then SubmittedReport(p.answer, p.found) else FRESH.(status := Paper)
  }

  /** The columns that are answered: an OCO placement answers with the row as it was inserted. */
  function RepliedReport(d: Draft, p: Placement): Report {
    if d.isReal && d.oco && p.answer.Placed? then FRESH else PlacedReport(d.isReal, p)
  }

  function PlacedReply(d: Draft, p: Placement): Reply {
    if p.stop.Some? then HaltReply(p.stop.value)
    else if d.isReal && p.dies then Failure
    else RowReply(d.key, RepliedReport(d, p))
  }

  function PlacedRows(rows: map<Key, Row>, d: Draft, origin: Origin, p: Placement): map<Key, Row> {
    if p.stop.Some? then rows
    else if d.isReal && p.dies then rows[d.key := RowFor(d, origin, New)]
    else rows[d.key := RowFor(d, origin, New).(report := PlacedReport(d.isReal, p))]
  }

  /** What the exchange's word on a submitted order leaves in its row: an accepted order carries the broker's whole
      report, a refused one REJECTED, a failed call UNKNOWN, and after a timeout the row carries what the query found,
      or UNKNOWN when it found nothing. */
  predicate AnswerInFull(answer: SubmitAnswer, found: Option<Report>, after: Report) {
    match answer
    case Placed(report) => after == report
    case RefusedByExchange => after == Report(Rejected, None, 0.0, 0.0)
    case FailedOtherwise => after == Report(Unknown, None, 0.0, 0.0)
    case NoAnswer => after == if found.Some? then found.value else Report(Unknown, None, 0.0, 0.0)
  }

  /** One new row under the draft's key, made of the draft's columns; every other row stays. */
  ghost predicate OneNewRow(rows: map<Key, Row>, d: Draft, origin: Origin, rows': map<Key, Row>) {
    && rows'.Keys == rows.Keys + {d.key}
    && (forall k | k in rows && k != d.key :: rows'[k] == rows[k])
    && rows'[d.key].symbol == d.symbol && rows'[d.key].side == d.side && rows'[d.key].oco == d.oco
    && rows'[d.key].quantity == d.quantity && rows'[d.key].notional == d.notional && rows'[d.key].origin == origin
  }

  /** Recording one cleared order, in full: what ends the call before the insert leaves no row; a paper order is PAPER at
      once; a real one is NEW until the broker has answered, and only an accepted OCO is answered as it was inserted. */
  ghost predicate PlacedInFull(rows: map<Key, Row>, d: Draft, origin: Origin, p: Placement,
                               rows': map<Key, Row>, reply: Reply) {
    match p.stop
    case Some(Raised(code)) => rows' == rows && reply == Refusal(code)
    case Some(Died) => rows' == rows && reply == Failure
    case None =>
      && OneNewRow(rows, d, origin, rows')
      && var after := rows'[d.key].report;
         if !d.isReal then after == Report(Paper, None, 0.0, 0.0) && reply == RowReply(d.key, after)
         else if p.dies then after == Report(New, None, 0.0, 0.0) && reply == Failure
         else
           && AnswerInFull(p.answer, p.found, after)
           && reply == RowReply(d.key, if d.oco && p.answer.Placed? then Report(New, None, 0.0, 0.0) else after)
  }

  lemma PlacedExactly(rows: map<Key, Row>, d: Draft, origin: Origin, p: Placement)
    ensures PlacedInFull(rows, d, origin, p, PlacedRows(rows, d, origin, p), PlacedReply(d, p))
  {
  }

  /** The exchange's side once the order was submitted. */
  function PlacedFates(fates: map<Key, Fate>, d: Draft, p: Placement): map<Key, Fate> {
    if p.stop.None? && d.isReal && p.fate.Some? then fates[d.key := p.fate.value] else fates
  }

  /** The broker's answers about the new order are truthful when they are given. */
  predicate TruthfulPlacement(oco: bool, p: Placement) {
    !p.dies ==>
      && (p.answer.Placed? ==> TruthfulAbout(p.fate, false, p.answer.report))
      && (p.answer.RefusedByExchange? ==> StatusTrue(Rejected, p.fate))
      && (p.found.Some? ==> TruthfulAbout(p.fate, oco, p.found.value))
  }

  /** The order was recorded and its broker answered. */
  predicate Answered(d: Draft, p: Placement) {
    d.isReal && p.stop.None? && !p.dies
  }

  /** A placed OCO whose list ended unfilled is recorded as FILLED. */
  predicate PlacementMisreads(d: Draft, p: Placement) {
    Answered(d, p) && Misread(d.oco, PlacedReport(true, p).status, p.fate)
  }

  /** What a truthful exchange makes of a new order is what its row says, apart from a misread list. */
  lemma PlacedIsTrueExactly(d: Draft, p: Placement)
    requires Answered(d, p) && TruthfulPlacement(d.oco, p)
    ensures StatusTrue(PlacedReport(true, p).status, p.fate) <==> !PlacementMisreads(d, p)
  {
  }
}
