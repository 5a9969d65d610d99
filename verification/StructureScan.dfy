/** `detect_structure` of `pa/swings.py`: the one-pass scan over the bars, with what it remembers on the way. */
module StructureScan {
  import opened Basics
  import opened Swings
  import opened SwingLaws

  // ---------- the scan ----------

  /** The first half of a bar: the close against the levels the bar started with. */
  method JudgeClose(cs: seq<Candle>, ps: seq<Pivot>, b: nat, lastHigh: Option<real>, lastLow: Option<real>,
                    trend: Option<Direction>, ghost ticks: seq<Tick>)
    returns (found: seq<Event>, turned: Option<Direction>)
    requires b < |cs| && |ticks| == b && trend == Trend(ticks)
    requires lastHigh == LevelBefore(ps, b, High) && lastLow == LevelBefore(ps, b, Low)
    requires b > 0 && BothKnown(ps, b) ==> trend.Some?
    ensures found == EventOf(ticks, TickAt(cs, ps, b))
    ensures turned == if TurnAt(cs, ps, b).Some? then TurnAt(cs, ps, b) else trend
  {
    found, turned := [], trend;
    if b > 0 && lastHigh.Some? && lastLow.Some? {
      var prevClose, c := cs[b - 1].close, cs[b].close;
      assert trend.value.Up? || trend.value.Down?;
      if c > lastHigh.value && prevClose <= lastHigh.value {
        if trend == Some(Down) {
          found := [Event(b, cs[b].time, true, lastHigh.value, Up)];
          turned := Some(Up);
        } else {
          found := [Event(b, cs[b].time, false, lastHigh.value, Up)];
        }
      } else if c < lastLow.value && prevClose >= lastLow.value {
        if trend == Some(Up) {
          found := [Event(b, cs[b].time, true, lastLow.value, Down)];
          turned := Some(Down);
        } else {
          found := [Event(b, cs[b].time, false, lastLow.value, Down)];
        }
      }
    }
  }

  /** What the scan remembers of the pivots it has consumed. */
  datatype Memory = Memory(
    lastHigh: Option<real>,
    lastLow: Option<real>,
    prevHigh: Option<real>,
    prevLow: Option<real>,
    firstKind: Option<Kind>)

  predicate Remembers(m: Memory, ps: seq<Pivot>) {
    && m.lastHigh == m.prevHigh == Level(ps, High)
    && m.lastLow == m.prevLow == Level(ps, Low)
    && m.firstKind == if ps == [] then None else Some(ps[0].kind)
  }

  /** The second half of a bar, for one of its pivots: label it, then let it set its level. */
  method TakePivot(cs: seq<Candle>, ps: seq<Pivot>, i: nat, m: Memory) returns (m': Memory, swing: Swing)
    requires i < |ps| && ps[i].index < |cs| && Remembers(m, ps[..i])
    ensures Remembers(m', ps[..i + 1]) && swing == SwingOf(cs, ps, i)
  {
    var p := ps[i];
    assert ps[..i + 1] == ps[..i] + [p];
    LevelAppend(ps[..i], p, High);
    LevelAppend(ps[..i], p, Low);
    m' := m;
    if m'.firstKind.None? {
      m' := m'.(firstKind := Some(p.kind));
    }
    var mark;
    if p.kind.High? {
      mark := if m.prevHigh.Some? && p.price > m.prevHigh.value then Some(HH)
              else if m.prevHigh.Some? then Some(LH) else None;
      m' := m'.(prevHigh := Some(p.price), lastHigh := Some(p.price));
    } else {
      mark := if m.prevLow.Some? && p.price > m.prevLow.value then Some(HL)
              else if m.prevLow.Some? then Some(LL) else None;
      m' := m'.(prevLow := Some(p.price), lastLow := Some(p.price));
    }
    swing := Swing(p.index, cs[p.index].time, p.kind, p.price, mark);
  }

  /** All pivots of one bar. */
  method TakePivots(cs: seq<Candle>, b: nat, ps: seq<Pivot>, from: nat, m: Memory, found: seq<Swing>,
                     ghost end: nat)
    returns (pidx: nat, m': Memory, swings: seq<Swing>)
    requires InRange(cs, ps) && from <= end <= |ps| && Remembers(m, ps[..from])
    requires found == SwingsUpTo(cs, ps, from)
    requires forall i | from <= i < end :: ps[i].index == b
    requires forall i | end <= i < |ps| :: ps[i].index > b
    ensures pidx == end && Remembers(m', ps[..end]) && swings == SwingsUpTo(cs, ps, end)
  {
    pidx, m', swings := from, m, found;
    while pidx < |ps| && ps[pidx].index == b
      invariant from <= pidx <= end
      invariant Remembers(m', ps[..pidx])
      invariant swings == SwingsUpTo(cs, ps, pidx)
    {
      var swing;
      m', swing := TakePivot(cs, ps, pidx, m');
      swings := swings + [swing];
      pidx := pidx + 1;
    }
  }

  lemma BarInTicks(cs: seq<Candle>, ps: seq<Pivot>, b: nat)
    requires b < |cs| && Sorted(ps)
    ensures Steady(Ticks(cs, ps, b) + [TickAt(cs, ps, b)])
    ensures b > 0 && BothKnown(ps, b) ==> Trend(Ticks(cs, ps, b)).Some?
  {
    TicksAreSteady(cs, ps, b);
    TicksAreSteady(cs, ps, b + 1);
    TrendIsKnown(Ticks(cs, ps, b));
    if b > 0 {
      KnownBefore(ps, b - 1);
    }
  }

  /** One bar of the scan. */
  method ScanBar(cs: seq<Candle>, ps: seq<Pivot>, b: nat, pidx: nat, m: Memory, found: seq<Swing>,
                 trend: Option<Direction>, ghost ticks: seq<Tick>)
    returns (pidx': nat, m': Memory, trend': Option<Direction>, swings: seq<Swing>, events: seq<Event>)
    requires b < |cs| && Sorted(ps) && InRange(cs, ps)
    requires pidx == |Before(ps, b)| <= |ps| && Remembers(m, Before(ps, b)) && found == SwingsUpTo(cs, ps, pidx)
    requires ticks == Ticks(cs, ps, b) && trend == Trend(ticks)
    ensures pidx' == |Before(ps, b + 1)| && Remembers(m', Before(ps, b + 1))
    ensures trend' == Trend(ticks + [TickAt(cs, ps, b)])
    ensures events == EventOf(ticks, TickAt(cs, ps, b))
    ensures pidx' <= |ps| && swings == SwingsUpTo(cs, ps, pidx')
  {
    BarInTicks(cs, ps, b);
    events, trend' := JudgeClose(cs, ps, b, m.lastHigh, m.lastLow, trend, ticks);
    NextTrend(ticks, TickAt(cs, ps, b));
    BarPivots(ps, b);
    pidx', m', swings := TakePivots(cs, b, ps, pidx, m, found, |Before(ps, b + 1)|);
    if trend'.None? && m'.firstKind.Some? && m'.lastHigh.Some? && m'.lastLow.Some? {
      trend' := Some(InitialTrend(m'.firstKind.value));
    }
  }

  /** The whole scan, over a sorted pivot list. */
  method ScanBars(cs: seq<Candle>, ps: seq<Pivot>) returns (out: Structure)
    requires Sorted(ps) && InRange(cs, ps)
    ensures out.swings == SwingsOf(cs, ps)
    ensures out.events == Events(Ticks(cs, ps, |cs|))
    ensures out.trend == Trend(Ticks(cs, ps, |cs|))
  {
    var m := Memory(None, None, None, None, None);
    var trend: Option<Direction> := None;
    var swings, events := [], [];
    var pidx := 0;
    ghost var ticks := [];
    BeforeSplit(ps, 0);
    assert Before(ps, 0) != [] ==> ps[0].index < 0;
    for b := 0 to |cs|
      invariant pidx == |Before(ps, b)| <= |ps| && Remembers(m, Before(ps, b))
      invariant swings == SwingsUpTo(cs, ps, pidx)
      invariant ticks == Ticks(cs, ps, b) && trend == Trend(ticks) && events == Events(ticks)
    {
      var more;
      pidx, m, trend, swings, more := ScanBar(cs, ps, b, pidx, m, swings, trend, ticks);
      events := events + more;
      EventsAppend(ticks, TickAt(cs, ps, b));
      ticks := ticks + [TickAt(cs, ps, b)];
    }
    BeforeSplit(ps, |cs|);
    out := Structure(trend, swings, events);
  }

  /** `detect_structure`: all pivots are consumed and labelled, and the events and the trend are those of the bars. */
  method DetectStructure(cs: seq<Candle>, w: nat) returns (out: Structure)
    requires w > 0
    ensures InRange(cs, Pivots(cs, w))
    ensures out.swings == SwingsOf(cs, Pivots(cs, w))
    ensures out.events == Events(AllTicks(cs, w))
    ensures out.trend == Trend(AllTicks(cs, w))
    ensures StructureInFull(cs, w, out)
  {
    var pivots := DetectSwings(cs, w);
    PivotIndices(cs, w, |cs|);
    out := ScanBars(cs, pivots);
    StructureExactly(cs, w);
  }
}
