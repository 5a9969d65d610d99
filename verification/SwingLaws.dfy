/** What the structure scan guarantees: stability under new bars, and what its events mean. */
module SwingLaws {
  import opened Basics
  import opened Swings

  // ---------- pivots ----------

  /** A strict extremum of its window, at its own price. */
  predicate Fractal(cs: seq<Candle>, w: nat, p: Pivot)
    requires p.index < |cs|
  {
    if p.kind.High? then SwingHigh(cs, p.index, w) && p.price == cs[p.index].high
    else SwingLow(cs, p.index, w) && p.price == cs[p.index].low
  }

  lemma PivotsOfBar(cs: seq<Candle>, i: nat, w: nat, p: Pivot)
    requires i < |cs|
    ensures p in PivotsAt(cs, i, w) <==> p.index == i && Fractal(cs, w, p)
  {
    var top, bottom := Pivot(i, High, cs[i].high), Pivot(i, Low, cs[i].low);
    assert p in PivotsAt(cs, i, w) <==> (SwingHigh(cs, i, w) && p == top) || (SwingLow(cs, i, w) && p == bottom);
  }

  /** Exactly the fractal highs and lows are pivots. */
  lemma {:induction false} PivotsExactly(cs: seq<Candle>, w: nat, n: nat, p: Pivot)
    requires n <= |cs|
    ensures p in PivotsBelow(cs, w, n) <==> p.index < n && Fractal(cs, w, p)
  {
    if n > 0 {
      PivotsExactly(cs, w, n - 1, p);
      PivotsOfBar(cs, n - 1, w, p);
    }
  }

  // ---------- when events occur ----------

  /** Events sit at the ticks with a crossing, in order, and carry its direction, level and time. */
  ghost predicate EventsFit(ticks: seq<Tick>, es: seq<Event>) {
    && (forall i | 0 <= i < |es| :: es[i].index < |ticks| && EventOf(ticks[..es[i].index], ticks[es[i].index]) == [es[i]])
    && (forall i, j | 0 <= i < j < |es| :: es[i].index < es[j].index)
  }

  lemma {:induction false} EventsInOrder(ticks: seq<Tick>)
    ensures EventsFit(ticks, Events(ticks))
  {
    if ticks != [] {
      var n := |ticks| - 1;
      var before := ticks[..n];
      EventsInOrder(before);
      EventsFitMore(ticks, Events(before), EventOf(before, ticks[n]));
    }
  }

  lemma EventsFitMore(ticks: seq<Tick>, es: seq<Event>, more: seq<Event>)
    requires ticks != [] && EventsFit(ticks[..|ticks| - 1], es)
    requires more == EventOf(ticks[..|ticks| - 1], ticks[|ticks| - 1])
    ensures EventsFit(ticks, es + more)
  {
    var n, all := |ticks| - 1, es + more;
    forall i | 0 <= i < |all| ensures all[i].index < |ticks| && EventOf(ticks[..all[i].index], ticks[all[i].index]) == [all[i]] {
      if i < |es| {
        assert all[i] == es[i];
        assert ticks[..n][..es[i].index] == ticks[..es[i].index];
      } else {
        assert more == [all[i]] && all[i].index == n;
      }
    }
  }

  /** Every crossing has its event. */
  lemma {:induction false} CrossingIsListed(ticks: seq<Tick>, b: nat) returns (i: nat)
    requires b < |ticks| && ticks[b].turn.Some?
    ensures i < |Events(ticks)| && Events(ticks)[i].index == b
  {
    var n := |ticks| - 1;
    if b == n {
      i := |Events(ticks[..n])|;
    } else {
      i := CrossingIsListed(ticks[..n], b);
    }
  }

  /** There is an event at a bar exactly when its close crosses the level of the latest pivot strictly before it, and
      the event carries that level and the direction of the crossing. */
  lemma EventExactlyAtCrossing(cs: seq<Candle>, ps: seq<Pivot>, b: nat)
    requires b < |cs|
    ensures var es := Events(Ticks(cs, ps, |cs|));
            && ((exists i :: 0 <= i < |es| && es[i].index == b) <==> CrossesUp(cs, ps, b) || CrossesDown(cs, ps, b))
            && (forall i | 0 <= i < |es| && es[i].index == b ::
                  && es[i].time == cs[b].time
                  && if CrossesUp(cs, ps, b)
                     then es[i].direction.Up? && Some(es[i].level) == LevelBefore(ps, b, High)
                     else es[i].direction.Down? && Some(es[i].level) == LevelBefore(ps, b, Low))
  {
    var ticks := Ticks(cs, ps, |cs|);
    TickOfBar(cs, ps, |cs|, b);
    TickMeans(cs, ps, b);
    EventAtTick(ticks, b);
  }

  lemma {:induction false} TickOfBar(cs: seq<Candle>, ps: seq<Pivot>, n: nat, b: nat)
    requires b < n <= |cs|
    ensures Ticks(cs, ps, n)[b] == TickAt(cs, ps, b)
  {
    if b < n - 1 {
      TickOfBar(cs, ps, n - 1, b);
    }
  }

  /** The same, read off the tick. */
  lemma EventAtTick(ticks: seq<Tick>, b: nat)
    requires b < |ticks|
    ensures var es := Events(ticks);
            && ((exists i :: 0 <= i < |es| && es[i].index == b) <==> ticks[b].turn.Some?)
            && (forall i | 0 <= i < |es| && es[i].index == b ::
                  es[i].time == ticks[b].time && Some(es[i].direction) == ticks[b].turn && es[i].level == ticks[b].level)
  {
    EventsInOrder(ticks);
    var es := Events(ticks);
    if ticks[b].turn.Some? {
      var i := CrossingIsListed(ticks, b);
    }
    forall i | 0 <= i < |es| && es[i].index == b
      ensures es[i].time == ticks[b].time && Some(es[i].direction) == ticks[b].turn && es[i].level == ticks[b].level
    {
      assert EventOf(ticks[..b], ticks[b]) == [es[i]];
      assert [es[i]][0] == es[i];
    }
  }

  lemma TickMeans(cs: seq<Candle>, ps: seq<Pivot>, b: nat)
    requires b < |cs|
    ensures var tick := TickAt(cs, ps, b);
            && tick.time == cs[b].time
            && (tick.turn.Some? <==> CrossesUp(cs, ps, b) || CrossesDown(cs, ps, b))
            && (CrossesUp(cs, ps, b) ==>
                  tick.turn == Some(Up) && Some(tick.level) == LevelBefore(ps, b, High))
            && (!CrossesUp(cs, ps, b) && CrossesDown(cs, ps, b) ==>
                  tick.turn == Some(Down) && Some(tick.level) == LevelBefore(ps, b, Low))
  {
  }

  // ---------- what events say about the trend ----------

  function Opposite(d: Direction): Direction {
    if d.Up? then Down else Up
  }

  lemma DirectionsAreTwo(x: Direction, y: Direction)
    ensures x == y || x == Opposite(y)
  {
  }

  /** A BOS continues the known trend, a CHoCH reverses it, and either leaves the trend in its own direction. */
  lemma EventsFollowTrend(ticks: seq<Tick>, i: nat)
    requires Steady(ticks) && i < |Events(ticks)|
    ensures var e := Events(ticks)[i];
            && e.index < |ticks|
            && Trend(ticks[..e.index]) == Some(if e.choch then Opposite(e.direction) else e.direction)
            && Trend(ticks[..e.index + 1]) == Some(e.direction)
  {
    EventsInOrder(ticks);
    var e := Events(ticks)[i];
    var before, tick := ticks[..e.index], ticks[e.index];
    assert EventOf(before, tick) == [e] && [e][0] == e;
    SteadyPrefix(ticks, e.index);
    SteadyPrefix(ticks, e.index + 1);
    TrendIsKnown(before);
    assert KnownAfter(before);
    assert ticks[..e.index + 1] == before + [tick];
    NextTrend(before, tick);
    DirectionsAreTwo(Trend(before).value, e.direction);
  }

  /** Between crossings a known trend stays. */
  lemma {:induction false} TrendHolds(ticks: seq<Tick>, b: nat, n: nat)
    requires Steady(ticks) && b <= n <= |ticks| && Trend(ticks[..b]).Some?
    requires forall k | b <= k < n :: ticks[k].turn.None?
    ensures Trend(ticks[..n]) == Trend(ticks[..b])
  {
    if b < n {
      TrendHolds(ticks, b, n - 1);
      SteadyPrefix(ticks, n);
      assert ticks[..n] == ticks[..n - 1] + [ticks[n - 1]];
      NextTrend(ticks[..n - 1], ticks[n - 1]);
    }
  }

  /** Before the first crossing a known trend is the initial one. */
  lemma {:induction false} TrendBeforeFirst(ticks: seq<Tick>, b: nat)
    requires Steady(ticks) && b <= |ticks| && KnownAfter(ticks[..b])
    requires forall k | 0 <= k < b :: ticks[k].turn.None?
    ensures Trend(ticks[..b]) == ticks[b - 1].initial
  {
    SteadyPrefix(ticks, b);
    assert ticks[..b] == ticks[..b - 1] + [ticks[b - 1]];
    NextTrend(ticks[..b - 1], ticks[b - 1]);
    if KnownAfter(ticks[..b - 1]) {
      TrendBeforeFirst(ticks, b - 1);
    } else {
      SteadyPrefix(ticks, b - 1);
      TrendIsKnown(ticks[..b - 1]);
    }
  }

  /** A bar strictly between two consecutive events has no crossing. */
  lemma QuietBetween(ticks: seq<Tick>, i: nat, k: nat)
    requires i < |Events(ticks)| && k < Events(ticks)[i].index
    requires i > 0 ==> k > Events(ticks)[i - 1].index
    ensures k < |ticks| && ticks[k].turn.None?
  {
    EventsInOrder(ticks);
    if ticks[k].turn.Some? {
      var j := CrossingIsListed(ticks, k);
    }
  }

  /** The first event is judged against the initial trend. */
  lemma FirstEvent(ticks: seq<Tick>)
    requires Steady(ticks) && Events(ticks) != []
    ensures KnownAt(ticks, Events(ticks)[0].index)
    ensures Events(ticks)[0].choch <==>
            Some(Events(ticks)[0].direction) != ticks[Events(ticks)[0].index - 1].initial
  {
    EventsFollowTrend(ticks, 0);
    QuietBeforeFirst(ticks);
    KnownByTrend(ticks, Events(ticks)[0].index);
    TrendBeforeFirst(ticks, Events(ticks)[0].index);
  }

  /** Both levels are known when this bar starts. */
  predicate KnownAt(ticks: seq<Tick>, b: nat) {
    0 < b <= |ticks| && ticks[b - 1].initial.Some?
  }

  lemma KnownByTrend(ticks: seq<Tick>, b: nat)
    requires Steady(ticks) && b <= |ticks| && Trend(ticks[..b]).Some?
    ensures KnownAt(ticks, b)
  {
    SteadyPrefix(ticks, b);
    TrendIsKnown(ticks[..b]);
  }

  lemma QuietBeforeFirst(ticks: seq<Tick>)
    requires Events(ticks) != []
    ensures Events(ticks)[0].index <= |ticks|
    ensures forall k | 0 <= k < Events(ticks)[0].index :: ticks[k].turn.None?
  {
    EventsInOrder(ticks);
    forall k | 0 <= k < Events(ticks)[0].index ensures ticks[k].turn.None? {
      QuietBetween(ticks, 0, k);
    }
  }

  /** A later event is a CHoCH exactly when its direction differs from the previous event's. */
  lemma ChochExactly(ticks: seq<Tick>, i: nat)
    requires Steady(ticks) && 0 < i < |Events(ticks)|
    ensures var es := Events(ticks);
            es[i].choch <==> es[i].direction != es[i - 1].direction
  {
    var es := Events(ticks);
    EventsInOrder(ticks);
    EventsFollowTrend(ticks, i);
    EventsFollowTrend(ticks, i - 1);
    var a, b := es[i - 1].index + 1, es[i].index;
    forall k | a <= k < b ensures ticks[k].turn.None? {
      QuietBetween(ticks, i, k);
    }
    TrendHolds(ticks, a, b);
  }

  /** Without a CHoCH after the first, all events of a stretch point the same way. */
  lemma {:induction false} SameWayWithoutChoch(ticks: seq<Tick>, i: nat, j: nat)
    requires Steady(ticks) && i <= j < |Events(ticks)|
    requires forall k | i < k <= j :: !Events(ticks)[k].choch
    ensures Events(ticks)[j].direction == Events(ticks)[i].direction
    decreases j
  {
    if i < j {
      ChochExactly(ticks, j);
      SameWayWithoutChoch(ticks, i, j - 1);
    }
  }

  /** CHoCH directions strictly alternate. */
  lemma ChochsAlternate(ticks: seq<Tick>, i: nat, j: nat)
    requires Steady(ticks) && i < j < |Events(ticks)|
    requires Events(ticks)[i].choch && Events(ticks)[j].choch
    requires forall k | i < k < j :: !Events(ticks)[k].choch
    ensures Events(ticks)[j].direction == Opposite(Events(ticks)[i].direction)
  {
    SameWayWithoutChoch(ticks, i, j - 1);
    ChochExactly(ticks, j);
    DirectionsAreTwo(Events(ticks)[j].direction, Events(ticks)[i].direction);
  }

  /** The same facts for all events at once. */
  ghost predicate Consistent(ticks: seq<Tick>, es: seq<Event>) {
    && (forall i, j | 0 <= i < j < |es| :: es[i].index < es[j].index)
    && (forall i | 0 <= i < |es| ::
          && es[i].index < |ticks|
          && Trend(ticks[..es[i].index]) == Some(if es[i].choch then Opposite(es[i].direction) else es[i].direction))
    && (forall i | 0 < i < |es| :: es[i].choch <==> es[i].direction != es[i - 1].direction)
    && (forall i, j | 0 <= i < j < |es| && es[i].choch && es[j].choch && (forall k | i < k < j :: !es[k].choch) ::
          es[j].direction == Opposite(es[i].direction))
  }

  lemma SteadyIsConsistent(ticks: seq<Tick>)
    requires Steady(ticks)
    ensures Consistent(ticks, Events(ticks))
  {
    var es := Events(ticks);
    EventsInOrder(ticks);
    forall i | 0 <= i < |es|
      ensures es[i].index < |ticks|
      ensures Trend(ticks[..es[i].index]) == Some(if es[i].choch then Opposite(es[i].direction) else es[i].direction)
    {
      EventsFollowTrend(ticks, i);
    }
    forall i | 0 < i < |es| ensures es[i].choch <==> es[i].direction != es[i - 1].direction {
      ChochExactly(ticks, i);
    }
    forall i, j | 0 <= i < j < |es| && es[i].choch && es[j].choch && (forall k | i < k < j :: !es[k].choch)
      ensures es[j].direction == Opposite(es[i].direction)
    {
      ChochsAlternate(ticks, i, j);
    }
  }

  /** For every candle list: strictly increasing event indices, each a BOS with or a CHoCH against a known trend, CHoCH
      exactly on a change of direction, and hence alternating. */
  lemma StructureIsConsistent(cs: seq<Candle>, w: nat)
    ensures Consistent(AllTicks(cs, w), Events(AllTicks(cs, w)))
  {
    PivotIndices(cs, w, |cs|);
    TicksAreSteady(cs, Pivots(cs, w), |cs|);
    SteadyIsConsistent(AllTicks(cs, w));
  }

  lemma {:induction false} TicksPrefix(cs: seq<Candle>, ps: seq<Pivot>, k: nat, n: nat)
    requires k <= n <= |cs|
    ensures Ticks(cs, ps, n)[..k] == Ticks(cs, ps, k)
  {
    if k < n {
      TicksPrefix(cs, ps, k, n - 1);
      assert Ticks(cs, ps, n)[..k] == Ticks(cs, ps, n - 1)[..k];
    } else {
      assert Ticks(cs, ps, n)[..n] == Ticks(cs, ps, n);
    }
  }

  // ---------- no repaint ----------

  lemma {:induction false} PivotsStable(cs: seq<Candle>, more: seq<Candle>, w: nat, b: nat)
    requires b <= |cs| && b <= |cs| - w
    ensures PivotsBelow(cs + more, w, b) == PivotsBelow(cs, w, b)
  {
    if b > 0 {
      PivotsStable(cs, more, w, b - 1);
      WindowStable(cs, more, w, b - 1);
    }
  }

  lemma WindowStable(cs: seq<Candle>, more: seq<Candle>, w: nat, i: nat)
    requires i < |cs| - w
    ensures PivotsAt(cs + more, i, w) == PivotsAt(cs, i, w)
  {
    var all := cs + more;
    assert forall j | 0 <= j < |cs| :: all[j] == cs[j];
    if SwingHigh(all, i, w) {
      forall j | i - w <= j <= i + w && j != i ensures cs[j].high < cs[i].high {
        assert all[j].high < all[i].high;
      }
    }
    if SwingLow(all, i, w) {
      forall j | i - w <= j <= i + w && j != i ensures cs[j].low > cs[i].low {
        assert all[j].low > all[i].low;
      }
    }
  }

  /** The pivots before a bar do not depend on bars from `b + w` on. */
  lemma BeforeStable(cs: seq<Candle>, more: seq<Candle>, w: nat, b: nat)
    requires b <= |cs| && b <= |cs| - w
    ensures Before(Pivots(cs + more, w), b) == Before(Pivots(cs, w), b)
  {
    BeforeIsBelow(cs, w, b);
    BeforeIsBelow(cs + more, w, b);
    PivotsStable(cs, more, w, b);
  }

  lemma {:induction false} PivotsFrom(cs: seq<Candle>, w: nat, b: nat, n: nat)
    requires b <= n <= |cs|
    ensures PivotsBelow(cs, w, b) <= PivotsBelow(cs, w, n)
    ensures forall i | |PivotsBelow(cs, w, b)| <= i < |PivotsBelow(cs, w, n)| :: PivotsBelow(cs, w, n)[i].index >= b
  {
    if b < n {
      PivotsFrom(cs, w, b, n - 1);
    }
  }

  lemma BeforeIsBelow(cs: seq<Candle>, w: nat, b: nat)
    requires b <= |cs|
    ensures Before(Pivots(cs, w), b) == PivotsBelow(cs, w, b)
  {
    PivotIndices(cs, w, |cs|);
    PivotIndices(cs, w, b);
    PivotsFrom(cs, w, b, |cs|);
    BeforeSplit(Pivots(cs, w), b);
    var ps, n := Pivots(cs, w), |PivotsBelow(cs, w, b)|;
    forall i | 0 <= i < n ensures ps[i].index < b {
      assert ps[i] == PivotsBelow(cs, w, b)[i];
    }
    PrefixAgree(Pivots(cs, w), b, |Before(Pivots(cs, w), b)|, |PivotsBelow(cs, w, b)|);
  }

  lemma PrefixAgree(ps: seq<Pivot>, b: nat, m: nat, n: nat)
    requires m <= |ps| && n <= |ps| && CutsAt(ps, b, m) && CutsAt(ps, b, n)
    ensures m == n
  {
    if m < n {
      CutsAreOrdered(ps, b, m, n);
    } else {
      CutsAreOrdered(ps, b, n, m);
    }
  }

  /** The first `m` pivots are exactly those before the bar. */
  predicate CutsAt(ps: seq<Pivot>, b: nat, m: nat)
    requires m <= |ps|
  {
    forall i | 0 <= i < |ps| :: ps[i].index < b <==> i < m
  }

  lemma CutsAreOrdered(ps: seq<Pivot>, b: nat, m: nat, n: nat)
    requires m <= n <= |ps| && CutsAt(ps, b, m) && CutsAt(ps, b, n)
    ensures n <= m
  {
    if m < |ps| {
      assert ps[m].index < b <==> m < m;
      assert ps[m].index < b <==> m < n;
    }
  }

  /** The tick of a bar but for its initial trend depends on nothing after `b + w`. */
  lemma CrossingStable(cs: seq<Candle>, ps: seq<Pivot>, all: seq<Candle>, qs: seq<Pivot>, b: nat)
    requires b < |cs| <= |all| && cs == all[..|cs|] && Before(ps, b) == Before(qs, b)
    ensures TickAt(all, qs, b).(initial := None) == TickAt(cs, ps, b).(initial := None)
  {
  }

  lemma TickStable(cs: seq<Candle>, ps: seq<Pivot>, all: seq<Candle>, qs: seq<Pivot>, b: nat)
    requires b < |cs| <= |all| && cs == all[..|cs|]
    requires Before(ps, b) == Before(qs, b) && Before(ps, b + 1) == Before(qs, b + 1)
    ensures TickAt(all, qs, b) == TickAt(cs, ps, b)
  {
  }

  lemma {:induction false} TicksStable(cs: seq<Candle>, ps: seq<Pivot>, all: seq<Candle>, qs: seq<Pivot>, b: nat)
    requires b <= |cs| <= |all| && cs == all[..|cs|]
    requires forall k: nat | k <= b :: Before(ps, k) == Before(qs, k)
    ensures Ticks(all, qs, b) == Ticks(cs, ps, b)
  {
    if b > 0 {
      TicksStable(cs, ps, all, qs, b - 1);
      TickStable(cs, ps, all, qs, b - 1);
    }
  }

  /** The events with an index of at most `last`. */
  function Through(es: seq<Event>, last: int): seq<Event> {
    if es == [] then []
    else Through(es[..|es| - 1], last) + (if es[|es| - 1].index <= last then [es[|es| - 1]] else [])
  }

  lemma {:induction false} ThroughKeepsAll(es: seq<Event>, last: int)
    requires forall i | 0 <= i < |es| :: es[i].index <= last
    ensures Through(es, last) == es
  {
    if es != [] {
      ThroughKeepsAll(es[..|es| - 1], last);
    }
  }

  lemma ThroughAppend(es: seq<Event>, more: seq<Event>, last: int)
    requires |more| <= 1
    ensures Through(es + more, last) == Through(es, last) + (if more != [] && more[0].index <= last then more else [])
  {
    if more == [] {
      assert es + more == es;
    } else {
      assert (es + more)[..|es|] == es;
      assert more == [more[0]];
    }
  }

  lemma ThroughWhole(ticks: seq<Tick>)
    ensures Through(Events(ticks), |ticks| - 1) == Events(ticks)
  {
    EventsInOrder(ticks);
    ThroughKeepsAll(Events(ticks), |ticks| - 1);
  }

  lemma ThroughDropsLast(before: seq<Tick>, tick: Tick, last: int)
    requires last < |before|
    ensures Through(Events(before + [tick]), last) == Through(Events(before), last)
  {
    EventsAppend(before, tick);
    ThroughAppend(Events(before), EventOf(before, tick), last);
  }

  /** Cutting the event list at a bar gives the events of the bars up to it. */
  lemma {:induction false} ThroughIsPrefix(ticks: seq<Tick>, k: nat)
    requires k <= |ticks|
    ensures Through(Events(ticks), k - 1) == Events(ticks[..k])
  {
    if k == |ticks| {
      assert ticks[..k] == ticks;
      ThroughWhole(ticks);
    } else {
      var before, tick := ticks[..|ticks| - 1], ticks[|ticks| - 1];
      LastApart(ticks, before, tick, k);
      ThroughIsPrefix(before, k);
      ThroughDropsLast(before, tick, k - 1);
    }
  }

  lemma LastApart(ticks: seq<Tick>, before: seq<Tick>, tick: Tick, k: nat)
    requires ticks != [] && before == ticks[..|ticks| - 1] && tick == ticks[|ticks| - 1] && k <= |before|
    ensures before + [tick] == ticks && ticks[..k] == before[..k]
  {
  }

  lemma ThroughNothing(es: seq<Event>, last: int)
    requires last < 0
    ensures Through(es, last) == []
  {
  }

  lemma SwingsStable(cs: seq<Candle>, more: seq<Candle>, w: nat)
    requires InRange(cs, Pivots(cs, w)) && InRange(cs + more, Pivots(cs + more, w))
    ensures SwingsOf(cs, Pivots(cs, w)) <= SwingsOf(cs + more, Pivots(cs + more, w))
  {
    var all := cs + more;
    var k := if w <= |cs| then |cs| - w else 0;
    var ps, qs := Pivots(cs, w), Pivots(all, w);
    if w <= |cs| {
      NoLatePivots(cs, w, k, |cs|);
      PivotsStable(cs, more, w, k);
    } else {
      NoPivotsInShortList(cs, w);
    }
    PivotsFrom(all, w, k, |all|);
    SwingsAgree(cs, ps, all, qs, |ps|);
    SwingsPrefix(all, qs, |ps|, |qs|);
  }

  lemma {:induction false} SwingsAgree(cs: seq<Candle>, ps: seq<Pivot>, all: seq<Candle>, qs: seq<Pivot>, n: nat)
    requires cs <= all && ps <= qs && n <= |ps| && InRange(cs, ps) && InRange(all, qs)
    ensures SwingsUpTo(all, qs, n) == SwingsUpTo(cs, ps, n)
  {
    if n > 0 {
      SwingsAgree(cs, ps, all, qs, n - 1);
      assert ps[..n - 1] == qs[..n - 1];
    }
  }

  lemma {:induction false} SwingsPrefix(cs: seq<Candle>, ps: seq<Pivot>, k: nat, n: nat)
    requires k <= n <= |ps| && InRange(cs, ps)
    ensures SwingsUpTo(cs, ps, k) <= SwingsUpTo(cs, ps, n)
  {
    if k < n {
      SwingsPrefix(cs, ps, k, n - 1);
    }
  }

  /** The event of a bar depends on its crossing and the ticks before it, not on its initial trend. */
  lemma LastEventStable(before: seq<Tick>, x: Tick, y: Tick)
    requires x.(initial := None) == y.(initial := None)
    ensures Events(before + [x]) == Events(before + [y])
  {
    EventsAppend(before, x);
    EventsAppend(before, y);
    assert x.time == x.(initial := None).time && y.time == y.(initial := None).time;
    assert x.turn == x.(initial := None).turn && y.turn == y.(initial := None).turn;
    assert x.level == x.(initial := None).level && y.level == y.(initial := None).level;
  }

  lemma EventsCut(ticks: seq<Tick>, k: nat, first: seq<Tick>, tick: Tick)
    requires k < |ticks| && ticks[..k + 1] == first + [tick]
    ensures Through(Events(ticks), k) == Events(first + [tick])
  {
    ThroughIsPrefix(ticks, k + 1);
  }

  lemma TicksUpTo(cs: seq<Candle>, ps: seq<Pivot>, k: nat)
    requires k < |cs|
    ensures Ticks(cs, ps, |cs|)[..k + 1] == Ticks(cs, ps, k) + [TickAt(cs, ps, k)]
  {
    TicksPrefix(cs, ps, k + 1, |cs|);
  }

  lemma EventsUpTo(cs: seq<Candle>, ps: seq<Pivot>, k: nat)
    requires k < |cs|
    ensures Through(Events(Ticks(cs, ps, |cs|)), k) == Events(Ticks(cs, ps, k) + [TickAt(cs, ps, k)])
  {
    TicksUpTo(cs, ps, k);
    EventsCut(Ticks(cs, ps, |cs|), k, Ticks(cs, ps, k), TickAt(cs, ps, k));
  }

  /** The events up to bar `k`, when the ticks before it agree and its own tick does but for the initial trend. */
  lemma EventsThrough(cs: seq<Candle>, ps: seq<Pivot>, all: seq<Candle>, qs: seq<Pivot>, k: nat)
    requires k < |cs| <= |all| && cs == all[..|cs|]
    requires forall b: nat | b <= k :: Before(ps, b) == Before(qs, b)
    ensures Through(Events(Ticks(cs, ps, |cs|)), k) == Through(Events(Ticks(all, qs, |all|)), k)
  {
    EventsUpTo(cs, ps, k);
    EventsUpTo(all, qs, k);
    TicksStable(cs, ps, all, qs, k);
    CrossingStable(cs, ps, all, qs, k);
    LastEventStable(Ticks(cs, ps, k), TickAt(cs, ps, k), TickAt(all, qs, k));
  }

  lemma StayFrom(cs: seq<Candle>, ps: seq<Pivot>, all: seq<Candle>, qs: seq<Pivot>, k: int)
    requires k < |cs| <= |all| && cs == all[..|cs|]
    requires forall b: nat | b <= k :: Before(ps, b) == Before(qs, b)
    ensures Through(Events(Ticks(cs, ps, |cs|)), k) == Through(Events(Ticks(all, qs, |all|)), k)
  {
    if k >= 0 {
      EventsThrough(cs, ps, all, qs, k);
    } else {
      ThroughNothing(Events(Ticks(cs, ps, |cs|)), k);
      ThroughNothing(Events(Ticks(all, qs, |all|)), k);
    }
  }

  lemma OldEventsStay(cs: seq<Candle>, more: seq<Candle>, w: nat)
    requires w > 0
    ensures Through(Events(AllTicks(cs, w)), |cs| - w) == Through(Events(AllTicks(cs + more, w)), |cs| - w)
  {
    OldPivotsStay(cs, more, w);
    StayFrom(cs, Pivots(cs, w), cs + more, Pivots(cs + more, w), |cs| - w);
  }

  lemma OldPivotsStay(cs: seq<Candle>, more: seq<Candle>, w: nat)
    ensures forall b: nat | b <= |cs| - w :: Before(Pivots(cs, w), b) == Before(Pivots(cs + more, w), b)
  {
    forall b: nat | b <= |cs| - w ensures Before(Pivots(cs, w), b) == Before(Pivots(cs + more, w), b) {
      BeforeStable(cs, more, w, b);
    }
  }

  /** No repaint: whatever bars follow, the old swings with their labels are a prefix of the new ones, and every event
      with an index of at most the old length minus the lookback is there unchanged, with no other among them. */
  lemma NoRepaint(cs: seq<Candle>, more: seq<Candle>, w: nat)
    requires w > 0
    ensures InRange(cs, Pivots(cs, w)) && InRange(cs + more, Pivots(cs + more, w))
    ensures SwingsOf(cs, Pivots(cs, w)) <= SwingsOf(cs + more, Pivots(cs + more, w))
    ensures Through(Events(AllTicks(cs, w)), |cs| - w) == Through(Events(AllTicks(cs + more, w)), |cs| - w)
  {
    PivotIndices(cs, w, |cs|);
    PivotIndices(cs + more, w, |cs + more|);
    SwingsStable(cs, more, w);
    OldEventsStay(cs, more, w);
  }

  // ---------- the structure in full ----------

  /** Strictly higher, or strictly lower, than every other bar of its full window. */
  predicate Extreme(cs: seq<Candle>, w: nat, p: Pivot) {
    && w <= p.index < |cs| - w
    && match p.kind
       case High =>
         && p.price == cs[p.index].high
         && forall j | p.index - w <= j <= p.index + w && j != p.index :: cs[j].high < cs[p.index].high
       case Low =>
         && p.price == cs[p.index].low
         && forall j | p.index - w <= j <= p.index + w && j != p.index :: cs[j].low > cs[p.index].low
  }

  /** In bar order, a bar's high before its low. */
  predicate Ahead(p: Pivot, q: Pivot) {
    p.index < q.index || (p.index == q.index && p.kind == High && q.kind == Low)
  }

  ghost predicate InOrder(ps: seq<Pivot>) {
    forall i, j | 0 <= i < j < |ps| :: Ahead(ps[i], ps[j])
  }

  /** The pivot list in full: exactly the extreme bars, in order. */
  ghost predicate PivotsInFull(cs: seq<Candle>, w: nat, ps: seq<Pivot>) {
    && (forall p: Pivot :: p in ps <==> Extreme(cs, w, p))
    && InOrder(ps)
  }

  lemma {:induction false} AheadGrows(ps: seq<Pivot>, more: seq<Pivot>, n: nat)
    requires InOrder(ps) && InOrder(more)
    requires forall i | 0 <= i < |ps| :: ps[i].index < n
    requires forall i | 0 <= i < |more| :: more[i].index == n
    ensures InOrder(ps + more)
  {
  }

  lemma {:induction false} PivotsInOrder(cs: seq<Candle>, w: nat, n: nat)
    requires n <= |cs|
    ensures InOrder(PivotsBelow(cs, w, n))
  {
    if n > 0 {
      PivotsInOrder(cs, w, n - 1);
      PivotIndices(cs, w, n - 1);
      AheadGrows(PivotsBelow(cs, w, n - 1), PivotsAt(cs, n - 1, w), n - 1);
    }
  }

  lemma {:induction false} PivotsListed(cs: seq<Candle>, w: nat)
    ensures PivotsInFull(cs, w, Pivots(cs, w))
  {
    PivotsInOrder(cs, w, |cs|);
    forall p: Pivot ensures p in Pivots(cs, w) <==> Extreme(cs, w, p) {
      PivotsExactly(cs, w, |cs|, p);
      FractalIsExtreme(cs, w, p);
    }
  }

  lemma {:induction false} FractalIsExtreme(cs: seq<Candle>, w: nat, p: Pivot)
    ensures Extreme(cs, w, p) <==> p.index < |cs| && Fractal(cs, w, p)
  {
  }

  /** The latest pivot of the kind before a bar. */
  predicate LatestBefore(ps: seq<Pivot>, b: nat, kind: Kind, i: nat) {
    && i < |ps| && ps[i].kind == kind && ps[i].index < b
    && forall j | i < j < |ps| :: ps[j].kind == kind ==> ps[j].index >= b
  }

  /** The level of a list is the price of its last pivot of the kind. */
  lemma {:induction false} LevelIsLatest(ps: seq<Pivot>, kind: Kind) returns (i: nat)
    ensures Level(ps, kind).None? ==> forall j | 0 <= j < |ps| :: ps[j].kind != kind
    ensures Level(ps, kind).Some? ==>
              && i < |ps| && ps[i].kind == kind && Level(ps, kind) == Some(ps[i].price)
              && forall j | i < j < |ps| :: ps[j].kind != kind
  {
    i := 0;
    if ps != [] {
      var n := |ps| - 1;
      if ps[n].kind == kind {
        i := n;
      } else {
        i := LevelIsLatest(ps[..n], kind);
        assert forall j | 0 <= j < n :: ps[..n][j] == ps[j];
      }
    }
  }

  /** A bar is judged against the price of the latest pivot before it, and against nothing when there is none. */
  lemma {:induction false} LevelExactly(ps: seq<Pivot>, b: nat, kind: Kind)
    requires Sorted(ps)
    ensures LevelBefore(ps, b, kind).Some? <==> exists i: nat :: LatestBefore(ps, b, kind, i)
    ensures forall i: nat | LatestBefore(ps, b, kind, i) :: LevelBefore(ps, b, kind) == Some(ps[i].price)
  {
    BeforeSplit(ps, b);
    var before := Before(ps, b);
    var n := |before|;
    assert forall j | 0 <= j < n :: before[j] == ps[j];
    var i := LevelIsLatest(before, kind);
    if LevelBefore(ps, b, kind).Some? {
      assert LatestBefore(ps, b, kind, i);
    }
    forall k: nat | LatestBefore(ps, b, kind, k) ensures LevelBefore(ps, b, kind) == Some(ps[k].price) {
      assert k < n && before[k].kind == kind;
      LatestIsUnique(ps, b, kind, i, k);
    }
  }

  lemma {:induction false} LatestIsUnique(ps: seq<Pivot>, b: nat, kind: Kind, i: nat, k: nat)
    requires LatestBefore(ps, b, kind, i) && LatestBefore(ps, b, kind, k)
    ensures i == k
  {
  }

  /** The close leaves the range between the latest high and the latest low, upwards or downwards, at this very bar. */
  predicate BreaksUp(cs: seq<Candle>, ps: seq<Pivot>, b: nat, hi: nat)
    requires 0 < b < |cs| && hi < |ps|
  {
    cs[b - 1].close <= ps[hi].price < cs[b].close
  }

  predicate BreaksDown(cs: seq<Candle>, ps: seq<Pivot>, b: nat, lo: nat)
    requires 0 < b < |cs| && lo < |ps|
  {
    cs[b - 1].close >= ps[lo].price > cs[b].close
  }

  /** Bar `b` is judged against these two pivots. */
  predicate JudgedBy(ps: seq<Pivot>, b: nat, hi: nat, lo: nat) {
    LatestBefore(ps, b, High, hi) && LatestBefore(ps, b, Low, lo)
  }

  /** An event carries the price it broke and the time of its bar. */
  predicate EventFits(cs: seq<Candle>, ps: seq<Pivot>, e: Event, hi: nat, lo: nat)
    requires 0 < e.index < |cs| && hi < |ps| && lo < |ps|
  {
    && e.time == cs[e.index].time
    && if BreaksUp(cs, ps, e.index, hi) then e.direction == Up && e.level == ps[hi].price
       else e.direction == Down && e.level == ps[lo].price
  }

  /** One event for each bar whose close leaves the range of its two pivots, in bar order. */
  ghost predicate EventsAtBreaks(cs: seq<Candle>, ps: seq<Pivot>, es: seq<Event>) {
    && (forall i, j | 0 <= i < j < |es| :: es[i].index < es[j].index)
    && (forall b: nat, hi: nat, lo: nat | 0 < b < |cs| && JudgedBy(ps, b, hi, lo) ::
          EventAt(es, b) <==> BreaksUp(cs, ps, b, hi) || BreaksDown(cs, ps, b, lo))
    && (forall i | 0 <= i < |es| ::
          0 < es[i].index < |cs| && exists hi: nat, lo: nat :: JudgedBy(ps, es[i].index, hi, lo)
                                                               && EventFits(cs, ps, es[i], hi, lo))
  }

  /** The first event is a CHoCH when it turns away from the first pivot, upwards after a high or downwards after a low;
      every other one when its direction is not that of the event before. */
  ghost predicate ChochsInFull(ps: seq<Pivot>, es: seq<Event>) {
    && (es != [] ==> ps != [] && (es[0].choch <==> if ps[0].kind == High then es[0].direction == Up
                                                   else es[0].direction == Down))
    && (forall i | 0 < i < |es| :: es[i].choch <==> es[i].direction != es[i - 1].direction)
  }

  ghost predicate EventsInFull(cs: seq<Candle>, ps: seq<Pivot>, es: seq<Event>) {
    EventsAtBreaks(cs, ps, es) && ChochsInFull(ps, es)
  }

  ghost predicate EventAt(es: seq<Event>, b: nat) {
    exists i :: 0 <= i < |es| && es[i].index == b
  }

  lemma {:induction false} LevelsJudge(ps: seq<Pivot>, b: nat)
    requires Sorted(ps)
    ensures BothKnown(ps, b) <==> exists hi: nat, lo: nat :: JudgedBy(ps, b, hi, lo)
    ensures forall hi: nat, lo: nat | JudgedBy(ps, b, hi, lo) ::
              LevelBefore(ps, b, High) == Some(ps[hi].price) && LevelBefore(ps, b, Low) == Some(ps[lo].price)
  {
    LevelExactly(ps, b, High);
    LevelExactly(ps, b, Low);
    if BothKnown(ps, b) {
      var hi: nat :| LatestBefore(ps, b, High, hi);
      var lo: nat :| LatestBefore(ps, b, Low, lo);
      assert JudgedBy(ps, b, hi, lo);
    }
  }

  /** The event of one bar, from the two pivots it is judged by. */
  lemma {:induction false} EventOfBar(cs: seq<Candle>, ps: seq<Pivot>, b: nat, hi: nat, lo: nat)
    requires 0 < b < |cs| && Sorted(ps) && JudgedBy(ps, b, hi, lo)
    ensures var es := Events(Ticks(cs, ps, |cs|));
            && (EventAt(es, b) <==> BreaksUp(cs, ps, b, hi) || BreaksDown(cs, ps, b, lo))
            && forall i | 0 <= i < |es| && es[i].index == b :: EventFits(cs, ps, es[i], hi, lo)
  {
    LevelsJudge(ps, b);
    EventExactlyAtCrossing(cs, ps, b);
  }

  /** No event without two pivots to be judged by. */
  lemma {:induction false} EventIsJudged(cs: seq<Candle>, ps: seq<Pivot>, i: nat) returns (hi: nat, lo: nat)
    requires Sorted(ps) && i < |Events(Ticks(cs, ps, |cs|))|
    ensures var e := Events(Ticks(cs, ps, |cs|))[i];
            0 < e.index < |cs| && JudgedBy(ps, e.index, hi, lo) && EventFits(cs, ps, e, hi, lo)
  {
    var ticks := Ticks(cs, ps, |cs|);
    EventsInOrder(ticks);
    var b := Events(ticks)[i].index;
    EventExactlyAtCrossing(cs, ps, b);
    LevelsJudge(ps, b);
    hi, lo :| JudgedBy(ps, b, hi, lo);
    EventOfBar(cs, ps, b, hi, lo);
  }

  /** The direction in which the list of pivots starts. */
  lemma {:induction false} InitialExactly(cs: seq<Candle>, ps: seq<Pivot>, n: nat, b: nat)
    requires Sorted(ps) && 0 < b <= n <= |cs| && Ticks(cs, ps, n)[b - 1].initial.Some?
    ensures ps != [] && Ticks(cs, ps, n)[b - 1].initial == Some(if ps[0].kind == High then Down else Up)
  {
    TickOfBar(cs, ps, n, b - 1);
    BeforeSplit(ps, b);
  }

  lemma {:induction false} FirstEventExactly(cs: seq<Candle>, ps: seq<Pivot>)
    requires Sorted(ps) && Events(Ticks(cs, ps, |cs|)) != []
    ensures var e := Events(Ticks(cs, ps, |cs|))[0];
            ps != [] && (e.choch <==> if ps[0].kind == High then e.direction == Up else e.direction == Down)
  {
    var ticks := Ticks(cs, ps, |cs|);
    TicksAreSteady(cs, ps, |cs|);
    FirstEvent(ticks);
    InitialExactly(cs, ps, |cs|, Events(ticks)[0].index);
    DirectionsAreTwo(Events(ticks)[0].direction, Up);
  }

  lemma {:induction false} EventsExactly(cs: seq<Candle>, ps: seq<Pivot>)
    requires Sorted(ps)
    ensures EventsInFull(cs, ps, Events(Ticks(cs, ps, |cs|)))
  {
    var ticks := Ticks(cs, ps, |cs|);
    TicksAreSteady(cs, ps, |cs|);
    SteadyIsConsistent(ticks);
    if Events(ticks) != [] {
      FirstEventExactly(cs, ps);
    }
    BreaksExactly(cs, ps, Events(ticks));
  }

  lemma {:induction false} BreaksExactly(cs: seq<Candle>, ps: seq<Pivot>, es: seq<Event>)
    requires Sorted(ps) && es == Events(Ticks(cs, ps, |cs|))
    ensures EventsAtBreaks(cs, ps, es)
  {
    EventsInOrder(Ticks(cs, ps, |cs|));
    forall i | 0 <= i < |es|
      ensures 0 < es[i].index < |cs| && exists hi: nat, lo: nat :: JudgedBy(ps, es[i].index, hi, lo)
                                                                   && EventFits(cs, ps, es[i], hi, lo)
    {
      var hi, lo := EventIsJudged(cs, ps, i);
    }
    forall b: nat, hi: nat, lo: nat | 0 < b < |cs| && JudgedBy(ps, b, hi, lo)
      ensures EventAt(es, b) <==> BreaksUp(cs, ps, b, hi) || BreaksDown(cs, ps, b, lo)
    {
      EventOfBar(cs, ps, b, hi, lo);
    }
  }

  /** The reported trend in full: unknown as long as no high or no low is a pivot; else the direction of the last event;
      and before any event up exactly when the first pivot is a low. */
  ghost predicate TrendInFull(ps: seq<Pivot>, es: seq<Event>, trend: Option<Direction>) {
    && (trend == None <==> (forall p | p in ps :: p.kind != High) || (forall p | p in ps :: p.kind != Low))
    && (trend != None && es != [] ==> trend == Some(es[|es| - 1].direction))
    && (trend != None && es == [] ==> trend == Some(if ps[0].kind == Low then Up else Down))
  }

  lemma {:induction false} KnownExactly(cs: seq<Candle>, ps: seq<Pivot>)
    requires Sorted(ps) && forall i | 0 <= i < |ps| :: ps[i].index < |cs|
    ensures KnownAfter(Ticks(cs, ps, |cs|)) <==>
              (exists p :: p in ps && p.kind == High) && (exists p :: p in ps && p.kind == Low)
  {
    var n := |cs|;
    BeforeSplit(ps, n);
    assert Before(ps, n) == ps;
    var hi := LevelIsLatest(ps, High);
    var lo := LevelIsLatest(ps, Low);
    if n > 0 {
      TickOfBar(cs, ps, n, n - 1);
      KnownBefore(ps, n - 1);
    }
    if BothKnown(ps, n) {
      assert ps[hi] in ps && ps[lo] in ps;
    }
  }

  lemma {:induction false} QuietAfterLast(ticks: seq<Tick>)
    requires Events(ticks) != []
    ensures var e := Events(ticks)[|Events(ticks)| - 1];
            e.index < |ticks| && forall k | e.index < k < |ticks| :: ticks[k].turn.None?
  {
    EventsInOrder(ticks);
    var es := Events(ticks);
    forall k | es[|es| - 1].index < k < |ticks| ensures ticks[k].turn.None? {
      if ticks[k].turn.Some? {
        var i := CrossingIsListed(ticks, k);
      }
    }
  }

  lemma {:induction false} QuietWithoutEvents(ticks: seq<Tick>)
    requires Events(ticks) == []
    ensures forall k | 0 <= k < |ticks| :: ticks[k].turn.None?
  {
    forall k | 0 <= k < |ticks| ensures ticks[k].turn.None? {
      if ticks[k].turn.Some? {
        var i := CrossingIsListed(ticks, k);
      }
    }
  }

  lemma {:induction false} TrendAfterEvents(ticks: seq<Tick>)
    requires Steady(ticks) && Events(ticks) != []
    ensures Trend(ticks) == Some(Events(ticks)[|Events(ticks)| - 1].direction)
  {
    var last := |Events(ticks)| - 1;
    EventsFollowTrend(ticks, last);
    QuietAfterLast(ticks);
    TrendHolds(ticks, Events(ticks)[last].index + 1, |ticks|);
    assert ticks[..|ticks|] == ticks;
  }

  lemma {:induction false} TrendWithoutEvents(ticks: seq<Tick>)
    requires Steady(ticks) && Events(ticks) == [] && KnownAfter(ticks)
    ensures Trend(ticks) == ticks[|ticks| - 1].initial
  {
    QuietWithoutEvents(ticks);
    assert ticks[..|ticks|] == ticks;
    TrendBeforeFirst(ticks, |ticks|);
  }

  lemma {:induction false} TrendOfTicks(cs: seq<Candle>, ps: seq<Pivot>, ticks: seq<Tick>)
    requires Sorted(ps) && ticks == Ticks(cs, ps, |cs|) && KnownAfter(ticks)
    ensures Events(ticks) != [] ==> Trend(ticks) == Some(Events(ticks)[|Events(ticks)| - 1].direction)
    ensures Events(ticks) == [] ==> ps != [] && Trend(ticks) == Some(if ps[0].kind == Low then Up else Down)
  {
    TicksAreSteady(cs, ps, |cs|);
    if Events(ticks) != [] {
      TrendAfterEvents(ticks);
    } else {
      TrendWithoutEvents(ticks);
      InitialExactly(cs, ps, |cs|, |cs|);
    }
  }

  lemma {:induction false} TrendExactly(cs: seq<Candle>, ps: seq<Pivot>)
    requires Sorted(ps) && forall i | 0 <= i < |ps| :: ps[i].index < |cs|
    ensures TrendInFull(ps, Events(Ticks(cs, ps, |cs|)), Trend(Ticks(cs, ps, |cs|)))
  {
    var ticks := Ticks(cs, ps, |cs|);
    TicksAreSteady(cs, ps, |cs|);
    TrendIsKnown(ticks);
    KnownExactly(cs, ps);
    if KnownAfter(ticks) {
      TrendOfTicks(cs, ps, ticks);
    }
  }

  /** The labels in full: none for the first pivot of its kind; else a high is HH when it is above the high before it and
      LH otherwise, and a low is HL when it is above the low before it and LL otherwise. */
  ghost predicate SwingsInFull(cs: seq<Candle>, ps: seq<Pivot>, swings: seq<Swing>)
    requires InRange(cs, ps)
  {
    && |swings| == |ps|
    && (forall i | 0 <= i < |ps| ::
          && swings[i].index == ps[i].index && swings[i].time == cs[ps[i].index].time
          && swings[i].kind == ps[i].kind && swings[i].price == ps[i].price)
    && (forall i | 0 <= i < |ps| && (forall k | 0 <= k < i :: ps[k].kind != ps[i].kind) :: swings[i].mark == None)
    && (forall i, j | 0 <= j < i < |ps| && PreviousOfKind(ps, i, j) ::
          swings[i].mark == Some(if ps[i].kind == High then (if ps[i].price > ps[j].price then HH else LH)
                                 else (if ps[i].price > ps[j].price then HL else LL)))
  }

  predicate PreviousOfKind(ps: seq<Pivot>, i: nat, j: nat)
    requires j < i < |ps|
  {
    ps[j].kind == ps[i].kind && forall k | j < k < i :: ps[k].kind != ps[i].kind
  }

  lemma {:induction false} SwingAt(cs: seq<Candle>, ps: seq<Pivot>, n: nat, i: nat)
    requires InRange(cs, ps) && i < n <= |ps|
    ensures |SwingsUpTo(cs, ps, n)| == n && SwingsUpTo(cs, ps, n)[i] == SwingOf(cs, ps, i)
  {
    if i < n - 1 {
      SwingAt(cs, ps, n - 1, i);
    } else {
      SwingCount(cs, ps, n - 1);
    }
  }

  lemma {:induction false} SwingCount(cs: seq<Candle>, ps: seq<Pivot>, n: nat)
    requires InRange(cs, ps) && n <= |ps|
    ensures |SwingsUpTo(cs, ps, n)| == n
  {
    if n > 0 {
      SwingCount(cs, ps, n - 1);
    }
  }

  lemma {:induction false} LevelOfPrevious(ps: seq<Pivot>, i: nat, j: nat)
    requires j < i < |ps| && PreviousOfKind(ps, i, j)
    ensures Level(ps[..i], ps[i].kind) == Some(ps[j].price)
  {
    var before, kind := ps[..i], ps[i].kind;
    assert forall k | 0 <= k < i :: before[k] == ps[k];
    var k := LevelIsLatest(before, kind);
    assert before[j].kind == kind;
    LastIsUnique(before, kind, j, k);
  }

  lemma {:induction false} LastIsUnique(ps: seq<Pivot>, kind: Kind, j: nat, k: nat)
    requires j < |ps| && ps[j].kind == kind && forall i | j < i < |ps| :: ps[i].kind != kind
    requires k < |ps| && ps[k].kind == kind && forall i | k < i < |ps| :: ps[i].kind != kind
    ensures j == k
  {
  }

  lemma {:induction false} LevelOfFirst(ps: seq<Pivot>, i: nat)
    requires i < |ps| && forall k | 0 <= k < i :: ps[k].kind != ps[i].kind
    ensures Level(ps[..i], ps[i].kind) == None
  {
    var before := ps[..i];
    assert forall k | 0 <= k < i :: before[k] == ps[k];
    var k := LevelIsLatest(before, ps[i].kind);
  }

  lemma {:induction false} LabelsExactly(cs: seq<Candle>, ps: seq<Pivot>)
    requires InRange(cs, ps)
    ensures SwingsInFull(cs, ps, SwingsOf(cs, ps))
  {
    SwingCount(cs, ps, |ps|);
    var swings := SwingsOf(cs, ps);
    forall i | 0 <= i < |ps| ensures swings[i] == SwingOf(cs, ps, i) {
      SwingAt(cs, ps, |ps|, i);
    }
    forall i | 0 <= i < |ps| && (forall k | 0 <= k < i :: ps[k].kind != ps[i].kind) ensures swings[i].mark == None {
      LevelOfFirst(ps, i);
    }
    forall i, j | 0 <= j < i < |ps| && PreviousOfKind(ps, i, j)
      ensures swings[i].mark == Some(if ps[i].kind == High then (if ps[i].price > ps[j].price then HH else LH)
                                     else (if ps[i].price > ps[j].price then HL else LL))
    {
      LevelOfPrevious(ps, i, j);
    }
  }

  /** What `detect_structure` reports, in full, from the candles and their pivots alone. */
  ghost predicate StructureInFull(cs: seq<Candle>, w: nat, out: Structure) {
    var ps := Pivots(cs, w);
    && InRange(cs, ps) && PivotsInFull(cs, w, ps)
    && SwingsInFull(cs, ps, out.swings)
    && EventsInFull(cs, ps, out.events)
    && TrendInFull(ps, out.events, out.trend)
  }

  lemma {:induction false} StructureExactly(cs: seq<Candle>, w: nat)
    ensures InRange(cs, Pivots(cs, w))
    ensures StructureInFull(cs, w, Structure(Trend(AllTicks(cs, w)), SwingsOf(cs, Pivots(cs, w)), Events(AllTicks(cs, w))))
  {
    PivotIndices(cs, w, |cs|);
    PivotsListed(cs, w);
    LabelsExactly(cs, Pivots(cs, w));
    EventsExactly(cs, Pivots(cs, w));
    TrendExactly(cs, Pivots(cs, w));
  }
}
