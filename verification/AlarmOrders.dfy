/** From a matched alert to the exchange: the alert state machine composed with the approval path, whose pending orders it
    raises. */
module AlarmOrders {
  import opened Basics
  import opened OrderProtocol
  import opened Approval
  import opened ApprovalOrders
  import opened AlarmTrigger

  /** `ids[i]` is the pending order that `alarms.raised[i]` stands for. */
  datatype Desk = Desk(alarms: Alarms, sys: Sys, ids: seq<string>)

  const EMPTY_DESK := Desk(NO_ALARMS, START, [])

  datatype Move =
    | Fire(alert: string, key: string, now: int, id: string, account: string)
    | Keep(step: AlarmStep)
    | Handle(act: Act)

  /** A pending order's id is made up when it is raised, and nothing else raises one. */
  predicate MoveOk(d: Desk, m: Move) {
    match m
    case Fire(alert, _, _, id, _) => alert in d.alarms.alerts && id !in d.sys.pending
    case Keep(step) => !step.Match? && StepOk(d.alarms, step)
    case Handle(act) => !act.Raise? && Can(d.sys, act)
  }

  ghost function MoveDesk(d: Desk, m: Move): Desk
    requires Coherent(d.sys.orders) && MoveOk(d, m)
  {
    match m
    case Fire(alert, key, now, id, account) =>
      var alarms := StepAlarms(d.alarms, Match(alert, key, now));
      if Fires(d.alarms, alert, key, now) && d.alarms.alerts[alert].hasSpec then
        Desk(alarms, Do(d.sys, Raise(id, account)), d.ids + [id])
      else d.(alarms := alarms)
    case Keep(step) => d.(alarms := StepAlarms(d.alarms, step))
    case Handle(act) => d.(sys := Do(d.sys, act))
  }

  ghost predicate DeskLegal(d: Desk, moves: seq<Move>)
    decreases |moves|
  {
    Coherent(d.sys.orders) && (moves == [] || (MoveOk(d, moves[0]) && DeskLegal(MoveDesk(d, moves[0]), moves[1..])))
  }

  ghost function DeskRun(d: Desk, moves: seq<Move>): Desk
    requires DeskLegal(d, moves)
    decreases |moves|
  {
    if moves == [] then d else DeskRun(MoveDesk(d, moves[0]), moves[1..])
  }

  /** The pending table holds exactly the raised orders, each under its own id. */
  ghost predicate DeskInv(d: Desk) {
    && AlarmsInv(d.alarms) && RaisedInv(d.alarms)
    && Attains(START, false, d.sys)
    && |d.ids| == |d.alarms.raised| && Distinct(d.ids)
    && (forall id :: id in d.sys.pending <==> id in d.ids)
  }

  lemma ActKeepsRecords(y: Sys, act: Act)
    requires Coherent(y.orders) && Can(y, act) && !act.Raise?
    ensures Do(y, act).pending.Keys == y.pending.Keys
  {
  }

  lemma DeskInvStep(d: Desk, m: Move)
    requires Coherent(d.sys.orders) && DeskInv(d) && MoveOk(d, m)
    ensures DeskInv(MoveDesk(d, m))
  {
    match m
    case Fire(alert, key, now, id, account) =>
      AlarmsInvStep(d.alarms, Match(alert, key, now));
      RaisedInvStep(d.alarms, Match(alert, key, now));
      Attain(START, false, d.sys, Raise(id, account));
    case Keep(step) =>
      AlarmsInvStep(d.alarms, step);
      RaisedInvStep(d.alarms, step);
    case Handle(act) =>
      ActKeepsRecords(d.sys, act);
      Attain(START, false, d.sys, act);
  }

  lemma {:induction false} DeskInvRun(d: Desk, moves: seq<Move>)
    requires DeskInv(d) && DeskLegal(d, moves)
    ensures DeskInv(DeskRun(d, moves))
    decreases |moves|
  {
    if moves != [] {
      DeskInvStep(d, moves[0]);
      DeskInvRun(MoveDesk(d, moves[0]), moves[1..]);
    }
  }

  /** Over every run, from matched conditions to the exchange: each raised order has its own record and key, each key is
      submitted at most once, an alert raises at most one order per trigger, and the orders of one alert were raised at
      least its cooldown apart. */
  lemma OrdersOfAlertsAreSpaced(moves: seq<Move>)
    requires DeskLegal(EMPTY_DESK, moves)
    ensures var d := DeskRun(EMPTY_DESK, moves);
            && Distinct(d.sys.orders.sent) && |d.ids| == |d.alarms.raised|
            && (forall i | 0 <= i < |d.ids| :: d.ids[i] in d.sys.pending)
            && (forall i, j | 0 <= i < j < |d.ids| :: KeyFor(d.sys, d.ids[i]) != KeyFor(d.sys, d.ids[j]))
            && (forall a | a in d.alarms.alerts ::
                  RaisedCount(d.alarms.raised, a) <= TriggerCount(d.alarms.triggers, a))
            && (forall i: nat, j: nat | i < j < |d.ids| && d.alarms.raised[i].alert == d.alarms.raised[j].alert ::
                  var a := d.alarms.raised[i].alert;
                  a in d.alarms.alerts && d.alarms.alerts[a].cooldown > 0 ==>
                    d.alarms.raised[j].createdAt >= d.alarms.raised[i].createdAt + d.alarms.alerts[a].cooldown)
  {
    AttainsSelf(START, false);
    DeskInvRun(EMPTY_DESK, moves);
    var d := DeskRun(EMPTY_DESK, moves);
    var acts :| Yields(START, acts, false, d.sys);
    OneSubmissionPerRecord(acts);
    forall i: nat, j: nat | i < j < |d.ids| && d.alarms.raised[i].alert == d.alarms.raised[j].alert
      ensures var a := d.alarms.raised[i].alert;
              a in d.alarms.alerts && d.alarms.alerts[a].cooldown > 0 ==>
                d.alarms.raised[j].createdAt >= d.alarms.raised[i].createdAt + d.alarms.alerts[a].cooldown
    {
      assert RaisedApart(d.alarms, i, j);
    }
  }
}
