/** `pa/alarms.py`: the alert state machine from a matched condition to a trigger record and a pending order. */
module AlarmTrigger {
  import opened Basics

  datatype AlertState = Armed | Triggered | Cooldown

  /** `cooldown` and `hasSpec` come from the definition and never change. */
  datatype Alert = Alert(state: AlertState, until: Option<int>, cooldown: nat, hasSpec: bool)

  datatype Trigger = Trigger(alert: string, key: string, at: int)

  /** The pending order a trigger raises. */
  datatype Raised = Raised(alert: string, createdAt: int)

  datatype Alarms = Alarms(alerts: map<string, Alert>, triggers: seq<Trigger>, raised: seq<Raised>)

  const NO_ALARMS := Alarms(map[], [], [])

  /** `_lazy_state`. */
  function LazyState(state: AlertState, until: Option<int>, now: int): AlertState {
    if until.Some? then (if now < until.value then Cooldown else Armed)
    else if state.Triggered? then Armed
    else state
  }

  predicate Recorded(triggers: seq<Trigger>, alert: string, key: string) {
    exists i :: 0 <= i < |triggers| && triggers[i].alert == alert && triggers[i].key == key
  }

  /** The matched condition passes the cooldown and the dedup of its data window. */
  predicate Fires(s: Alarms, alert: string, key: string, now: int)
    requires alert in s.alerts
  {
    LazyState(s.alerts[alert].state, s.alerts[alert].until, now).Armed? && !Recorded(s.triggers, alert, key)
  }

  /** One `_maybe_trigger` transaction. */
  function Fired(s: Alarms, alert: string, key: string, now: int): Alarms
    requires alert in s.alerts
  {
    if !Fires(s, alert, key, now) then s
    else
      var a := s.alerts[alert];
      var next := if a.cooldown > 0 then a.(state := Cooldown, until := Some(now + a.cooldown))
                  else a.(state := Triggered, until := None);
      Alarms(s.alerts[alert := next],
             s.triggers + [Trigger(alert, key, now)],
             if a.hasSpec then s.raised + [Raised(alert, now)] else s.raised)
  }

  /** A match in full. The alert is ready when its cooldown has passed, or when it has none and is not stored as cooling
      down for good; a ready alert whose window is new triggers: one trigger at the end of the list, one pending order if
      it has an order spec, and its next state. Anything else changes nothing. */
  ghost predicate MatchInFull(s: Alarms, alert: string, key: string, now: int, s': Alarms, res: Option<Trigger>)
    requires alert in s.alerts
  {
    var a := s.alerts[alert];
    var ready := if a.until.Some? then now >= a.until.value else a.state != Cooldown;
    if ready && forall t | t in s.triggers :: !(t.alert == alert && t.key == key) then
      && res == Some(Trigger(alert, key, now))
      && s'.triggers == s.triggers + [Trigger(alert, key, now)]
      && s'.raised == (if a.hasSpec then s.raised + [Raised(alert, now)] else s.raised)
      && s'.alerts == s.alerts[alert := if a.cooldown > 0 then Alert(Cooldown, Some(now + a.cooldown), a.cooldown, a.hasSpec)
                                        else Alert(Triggered, None, a.cooldown, a.hasSpec)]
    else s' == s && res == None
  }

  lemma MatchedExactly(s: Alarms, alert: string, key: string, now: int)
    requires alert in s.alerts
    ensures MatchInFull(s, alert, key, now, Fired(s, alert, key, now),
                        if Fires(s, alert, key, now) then Some(Trigger(alert, key, now)) else None)
  {
    if Recorded(s.triggers, alert, key) {
      var i :| 0 <= i < |s.triggers| && s.triggers[i].alert == alert && s.triggers[i].key == key;
      assert s.triggers[i] in s.triggers;
    }
  }

  /** An alert never stays silent: after a trigger, a match with a new window triggers again as soon as the cooldown is
      over, and at once when there is none. */
  lemma Rearms(s: Alarms, alert: string, first: string, at: int, key: string, now: int)
    requires alert in s.alerts && Fires(s, alert, first, at)
    requires now >= at + s.alerts[alert].cooldown
    requires forall t | t in s.triggers :: !(t.alert == alert && t.key == key)
    ensures var s1 := Fired(s, alert, first, at); var s2 := Fired(s1, alert, key, now);
            s2.triggers == s1.triggers + (if key == first then [] else [Trigger(alert, key, now)])
  {
    var s1 := Fired(s, alert, first, at);
    MatchedExactly(s, alert, first, at);
    MatchedExactly(s1, alert, key, now);
    assert s1.triggers[|s.triggers|] in s1.triggers;
  }

  class AlarmEngine {
    var alerts: map<string, Alert>
    var triggers: seq<Trigger>
    var raised: seq<Raised>

    constructor ()
      ensures Tables() == NO_ALARMS
    {
      alerts, triggers, raised := map[], [], [];
    }

    function Tables(): Alarms
      reads this
    {
      Alarms(alerts, triggers, raised)
    }

    method MaybeTrigger(alert: string, key: string, now: int) returns (res: Result<Option<Trigger>>)
      modifies this
      ensures alert !in old(alerts) ==> res == Err(NotFound) && Tables() == old(Tables())
      ensures alert in old(alerts) ==>
                && Tables() == Fired(old(Tables()), alert, key, now)
                && res == Ok(if Fires(old(Tables()), alert, key, now) then Some(Trigger(alert, key, now)) else None)
                && MatchInFull(old(Tables()), alert, key, now, Tables(), res.value)
    {
      if alert !in alerts {
        return Err(NotFound);
      }
      MatchedExactly(Tables(), alert, key, now);
      var row := alerts[alert];
      if LazyState(row.state, row.until, now) != Armed {
        return Ok(None);
      }
      if Recorded(triggers, alert, key) {
        return Ok(None);
      }
      var record := Trigger(alert, key, now);
      triggers := triggers + [record];
      if row.hasSpec {
        raised := raised + [Raised(alert, now)];
      }
      if row.cooldown > 0 {
        alerts := alerts[alert := row.(state := Cooldown, until := Some(now + row.cooldown))];
      } else {
        alerts := alerts[alert := row.(state := Triggered, until := None)];
      }
      return Ok(Some(record));
    }
  }

  // ---------- runs ----------

  /** Alert ids are never used twice; a deleted alert leaves its records behind. */
  datatype AlarmStep =
    | Create(alert: string, cooldown: nat, hasSpec: bool)
    | Delete(alert: string)
    | Match(alert: string, key: string, now: int)

  predicate FreshId(s: Alarms, alert: string) {
    alert !in s.alerts && (forall i | 0 <= i < |s.triggers| :: s.triggers[i].alert != alert)
    && (forall i | 0 <= i < |s.raised| :: s.raised[i].alert != alert)
  }

  predicate StepOk(s: Alarms, step: AlarmStep) {
    match step
    case Create(alert, _, _) => FreshId(s, alert)
    case Delete(alert) => alert in s.alerts
    case Match(alert, _, _) => alert in s.alerts
  }

  function StepAlarms(s: Alarms, step: AlarmStep): Alarms
    requires StepOk(s, step)
  {
    match step
    case Create(alert, cooldown, hasSpec) => s.(alerts := s.alerts[alert := Alert(Armed, None, cooldown, hasSpec)])
    case Delete(alert) => s.(alerts := s.alerts - {alert})
    case Match(alert, key, now) => Fired(s, alert, key, now)
  }

  predicate AlarmsLegal(s: Alarms, steps: seq<AlarmStep>)
    decreases |steps|
  {
    steps == [] || (StepOk(s, steps[0]) && AlarmsLegal(StepAlarms(s, steps[0]), steps[1..]))
  }

  function AlarmsRun(s: Alarms, steps: seq<AlarmStep>): Alarms
    requires AlarmsLegal(s, steps)
    decreases |steps|
  {
    if steps == [] then s else AlarmsRun(StepAlarms(s, steps[0]), steps[1..])
  }

  function TriggerCount(triggers: seq<Trigger>, alert: string): nat {
    if triggers == [] then 0
    else TriggerCount(triggers[..|triggers| - 1], alert) + (if triggers[|triggers| - 1].alert == alert then 1 else 0)
  }

  function RaisedCount(raised: seq<Raised>, alert: string): nat {
    if raised == [] then 0
    else RaisedCount(raised[..|raised| - 1], alert) + (if raised[|raised| - 1].alert == alert then 1 else 0)
  }

  lemma CountsAppend(triggers: seq<Trigger>, t: Trigger, raised: seq<Raised>, r: Raised, alert: string)
    ensures TriggerCount(triggers + [t], alert) == TriggerCount(triggers, alert) + if t.alert == alert then 1 else 0
    ensures RaisedCount(raised + [r], alert) == RaisedCount(raised, alert) + if r.alert == alert then 1 else 0
  {
    assert (triggers + [t])[..|triggers|] == triggers;
    assert (raised + [r])[..|raised|] == raised;
  }

  lemma {:induction false} NothingYet(s: Alarms, alert: string)
    requires forall i | 0 <= i < |s.triggers| :: s.triggers[i].alert != alert
    requires forall i | 0 <= i < |s.raised| :: s.raised[i].alert != alert
    ensures TriggerCount(s.triggers, alert) == 0 && RaisedCount(s.raised, alert) == 0
    decreases |s.triggers| + |s.raised|
  {
    if s.triggers != [] {
      NothingYet(s.(triggers := s.triggers[..|s.triggers| - 1]), alert);
    } else if s.raised != [] {
      NothingYet(s.(raised := s.raised[..|s.raised| - 1]), alert);
    }
  }

  /** Earlier and later trigger of one existing alert. */
  predicate Spaced(s: Alarms, i: nat, j: nat)
    requires i < j < |s.triggers|
  {
    var t, u := s.triggers[i], s.triggers[j];
    t.alert == u.alert ==>
      && t.key != u.key
      && (t.alert in s.alerts && s.alerts[t.alert].cooldown > 0 ==> u.at >= t.at + s.alerts[t.alert].cooldown)
  }

  /** A trigger of a cooling alert lies at least its cooldown before the cooldown's end. */
  predicate Cooling(s: Alarms, i: nat)
    requires i < |s.triggers|
  {
    var t := s.triggers[i];
    t.alert in s.alerts && s.alerts[t.alert].cooldown > 0 ==>
      var a := s.alerts[t.alert];
      a.until.Some? && t.at + a.cooldown <= a.until.value
  }

  ghost predicate AlarmsInv(s: Alarms) {
    && (forall i: nat, j: nat | i < j < |s.triggers| :: Spaced(s, i, j))
    && (forall i: nat | i < |s.triggers| :: Cooling(s, i))
    && (forall a | a in s.alerts ::
          RaisedCount(s.raised, a) == if s.alerts[a].hasSpec then TriggerCount(s.triggers, a) else 0)
  }

  lemma FiredSpaced(s: Alarms, alert: string, key: string, now: int)
    requires AlarmsInv(s) && alert in s.alerts && Fires(s, alert, key, now)
    ensures var s' := Fired(s, alert, key, now);
            && (forall i: nat, j: nat | i < j < |s'.triggers| :: Spaced(s', i, j))
            && (forall i: nat | i < |s'.triggers| :: Cooling(s', i))
  {
    var s' := Fired(s, alert, key, now);
    forall i: nat, j: nat | i < j < |s'.triggers| ensures Spaced(s', i, j) {
      assert Cooling(s, i);
      if j < |s.triggers| {
        assert Spaced(s, i, j);
      }
    }
    forall i: nat | i < |s'.triggers| ensures Cooling(s', i) {
      if i < |s.triggers| {
        assert Cooling(s, i);
      }
    }
  }

  lemma AlarmsInvStep(s: Alarms, step: AlarmStep)
    requires AlarmsInv(s) && StepOk(s, step)
    ensures AlarmsInv(StepAlarms(s, step))
  {
    var s' := StepAlarms(s, step);
    match step
    case Create(alert, _, _) =>
      NothingYet(s, alert);
      forall i: nat, j: nat | i < j < |s'.triggers| ensures Spaced(s', i, j) {
        assert Spaced(s, i, j);
      }
      forall i: nat | i < |s'.triggers| ensures Cooling(s', i) {
        assert Cooling(s, i);
      }
    case Delete(alert) =>
      forall i: nat, j: nat | i < j < |s'.triggers| ensures Spaced(s', i, j) {
        assert Spaced(s, i, j);
      }
      forall i: nat | i < |s'.triggers| ensures Cooling(s', i) {
        assert Cooling(s, i);
      }
    case Match(alert, key, now) =>
      if Fires(s, alert, key, now) {
        FiredSpaced(s, alert, key, now);
        forall a | a in s'.alerts
          ensures RaisedCount(s'.raised, a) == if s'.alerts[a].hasSpec then TriggerCount(s'.triggers, a) else 0
        {
          CountsAppend(s.triggers, Trigger(alert, key, now), s.raised, Raised(alert, now), a);
        }
      }
  }

  lemma {:induction false} AlarmsInvRun(s: Alarms, steps: seq<AlarmStep>)
    requires AlarmsInv(s) && AlarmsLegal(s, steps)
    ensures AlarmsInv(AlarmsRun(s, steps))
    decreases |steps|
  {
    if steps != [] {
      AlarmsInvStep(s, steps[0]);
      AlarmsInvRun(StepAlarms(s, steps[0]), steps[1..]);
    }
  }

  // ---------- raised orders ----------

  /** Earlier and later pending order of one existing alert. */
  predicate RaisedApart(s: Alarms, i: nat, j: nat)
    requires i < j < |s.raised|
  {
    var a := s.raised[i].alert;
    s.raised[j].alert == a && a in s.alerts && s.alerts[a].cooldown > 0 ==>
      s.raised[j].createdAt >= s.raised[i].createdAt + s.alerts[a].cooldown
  }

  /** A pending order of a cooling alert lies at least its cooldown before the cooldown's end. */
  predicate RaisedCooling(s: Alarms, i: nat)
    requires i < |s.raised|
  {
    var r := s.raised[i];
    r.alert in s.alerts && s.alerts[r.alert].cooldown > 0 ==>
      var a := s.alerts[r.alert];
      a.until.Some? && r.createdAt + a.cooldown <= a.until.value
  }

  ghost predicate RaisedInv(s: Alarms) {
    && (forall i: nat, j: nat | i < j < |s.raised| :: RaisedApart(s, i, j))
    && (forall i: nat | i < |s.raised| :: RaisedCooling(s, i))
  }

  lemma RaisedInvStep(s: Alarms, step: AlarmStep)
    requires RaisedInv(s) && StepOk(s, step)
    ensures RaisedInv(StepAlarms(s, step))
  {
    var s' := StepAlarms(s, step);
    forall i: nat, j: nat | i < j < |s'.raised| ensures RaisedApart(s', i, j) {
      assert RaisedCooling(s, i);
      if j < |s.raised| {
        assert RaisedApart(s, i, j);
      }
    }
    forall i: nat | i < |s'.raised| ensures RaisedCooling(s', i) {
      if i < |s.raised| {
        assert RaisedCooling(s, i);
      }
    }
  }

  // ---------- the clock ----------

  /** No match happens before `from`, nor before an earlier match. */
  predicate ClockFrom(steps: seq<AlarmStep>, from: int)
    decreases |steps|
  {
    steps == [] || if steps[0].Match? then from <= steps[0].now && ClockFrom(steps[1..], steps[0].now)
                   else ClockFrom(steps[1..], from)
  }

  predicate InTime(s: Alarms, last: int) {
    && (forall i | 0 <= i < |s.triggers| :: s.triggers[i].at <= last)
    && (forall i, j | 0 <= i < j < |s.triggers| :: s.triggers[i].at <= s.triggers[j].at)
  }

  lemma {:induction false} TriggersInTime(s: Alarms, steps: seq<AlarmStep>, from: int)
    requires AlarmsLegal(s, steps) && ClockFrom(steps, from) && InTime(s, from)
    ensures forall i, j | 0 <= i < j < |AlarmsRun(s, steps).triggers| ::
              AlarmsRun(s, steps).triggers[i].at <= AlarmsRun(s, steps).triggers[j].at
    decreases |steps|
  {
    if steps != [] {
      TriggersInTime(StepAlarms(s, steps[0]), steps[1..], if steps[0].Match? then steps[0].now else from);
    }
  }

  /** Over every run: two triggers of one alert never share a data window, an alert with an order spec raised exactly
      one pending order per trigger and any other none, and with a positive cooldown the triggers of an alert are at
      least that far apart, even if the clock runs backwards. With a clock that never does, this holds for zero too. */
  lemma TriggersAreSpaced(steps: seq<AlarmStep>, from: int)
    requires AlarmsLegal(NO_ALARMS, steps)
    ensures var s := AlarmsRun(NO_ALARMS, steps);
            && (forall a | a in s.alerts ::
                  RaisedCount(s.raised, a) == if s.alerts[a].hasSpec then TriggerCount(s.triggers, a) else 0)
            && (forall i: nat, j: nat | i < j < |s.triggers| && s.triggers[i].alert == s.triggers[j].alert ::
                  && s.triggers[i].key != s.triggers[j].key
                  && (s.triggers[i].alert in s.alerts
                      && (s.alerts[s.triggers[i].alert].cooldown > 0 || ClockFrom(steps, from)) ==>
                        s.triggers[j].at >= s.triggers[i].at + s.alerts[s.triggers[i].alert].cooldown))
  {
    AlarmsInvRun(NO_ALARMS, steps);
    if ClockFrom(steps, from) {
      TriggersInTime(NO_ALARMS, steps, from);
    }
    var s := AlarmsRun(NO_ALARMS, steps);
    forall i: nat, j: nat | i < j < |s.triggers| && s.triggers[i].alert == s.triggers[j].alert
      ensures s.triggers[i].key != s.triggers[j].key
      ensures s.triggers[i].alert in s.alerts
              && (s.alerts[s.triggers[i].alert].cooldown > 0 || ClockFrom(steps, from)) ==>
                s.triggers[j].at >= s.triggers[i].at + s.alerts[s.triggers[i].alert].cooldown
    {
      assert Spaced(s, i, j);
    }
  }
}
