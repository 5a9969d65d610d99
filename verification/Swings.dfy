/** `pa/swings.py`: fractal swings and the BOS/CHoCH scan, proved against their declarative meaning. */
module Swings {
  import opened Basics

  datatype Candle = Candle(time: int, high: real, low: real, close: real)

  datatype Kind = High | Low

  datatype Pivot = Pivot(index: nat, kind: Kind, price: real)

  datatype Label = HH | LH | HL | LL

  datatype Swing = Swing(index: nat, time: int, kind: Kind, price: real, mark: Option<Label>)

  datatype Direction = Up | Down

  /** `choch` is false for a BOS. */
  datatype Event = Event(index: nat, time: int, choch: bool, level: real, direction: Direction)

  datatype Structure = Structure(trend: Option<Direction>, swings: seq<Swing>, events: seq<Event>)

  // ---------- pivots ----------

  /** Strictly higher than every other bar of the window of `w` bars on either side. */
  predicate SwingHigh(cs: seq<Candle>, i: int, w: nat) {
    w <= i < |cs| - w && forall j | i - w <= j <= i + w && j != i :: cs[j].high < cs[i].high
  }

  predicate SwingLow(cs: seq<Candle>, i: int, w: nat) {
    w <= i < |cs| - w && forall j | i - w <= j <= i + w && j != i :: cs[j].low > cs[i].low
  }

  function PivotsAt(cs: seq<Candle>, i: nat, w: nat): seq<Pivot>
    requires i < |cs|
  {
    (if SwingHigh(cs, i, w) then [Pivot(i, High, cs[i].high)] else [])
    + (if SwingLow(cs, i, w) then [Pivot(i, Low, cs[i].low)] else [])
  }

  /** All pivots of the list with an index below `n`. */
  function PivotsBelow(cs: seq<Candle>, w: nat, n: nat): seq<Pivot>
    requires n <= |cs|
  {
    if n == 0 then [] else PivotsBelow(cs, w, n - 1) + PivotsAt(cs, n - 1, w)
  }

  function Pivots(cs: seq<Candle>, w: nat): seq<Pivot> {
    PivotsBelow(cs, w, |cs|)
  }

  function Max(s: seq<real>): real
    requires s != []
  {
    if |s| == 1 then s[0]
    else
      var rest := Max(s[1..]);
      if s[0] >= rest then s[0] else rest
  }

  lemma {:induction false} MaxExactly(s: seq<real>)
    requires s != []
    ensures Max(s) in s && forall x | x in s :: x <= Max(s)
  {
    if |s| > 1 {
      MaxExactly(s[1..]);
      assert s == [s[0]] + s[1..];
    }
  }

  function Min(s: seq<real>): real
    requires s != []
  {
    if |s| == 1 then s[0]
    else
      var rest := Min(s[1..]);
      if s[0] <= rest then s[0] else rest
  }

  lemma {:induction false} MinExactly(s: seq<real>)
    requires s != []
    ensures Min(s) in s && forall x | x in s :: x >= Min(s)
  {
    if |s| > 1 {
      MinExactly(s[1..]);
      assert s == [s[0]] + s[1..];
    }
  }

  function Highs(cs: seq<Candle>): seq<real> {
    seq(|cs|, i requires 0 <= i < |cs| => cs[i].high)
  }

  function Lows(cs: seq<Candle>): seq<real> {
    seq(|cs|, i requires 0 <= i < |cs| => cs[i].low)
  }

  predicate AllBelow(s: seq<real>, lo: nat, hi: nat, x: real)
    requires hi <= |s|
  {
    forall j | lo <= j < hi :: s[j] < x
  }

  predicate AllAbove(s: seq<real>, lo: nat, hi: nat, x: real)
    requires hi <= |s|
  {
    forall j | lo <= j < hi :: s[j] > x
  }

  /** Beating the maximum of a slice is beating each of its members. */
  lemma {:induction false} MaxOfSlice(x: real, s: seq<real>, lo: nat, hi: nat)
    requires lo < hi <= |s|
    ensures x > Max(s[lo..hi]) <==> AllBelow(s, lo, hi, x)
  {
    var t := s[lo..hi];
    MaxExactly(t);
    assert forall j | lo <= j < hi :: t[j - lo] == s[j] && s[j] in t;
  }

  lemma {:induction false} MinOfSlice(x: real, s: seq<real>, lo: nat, hi: nat)
    requires lo < hi <= |s|
    ensures x < Min(s[lo..hi]) <==> AllAbove(s, lo, hi, x)
  {
    var t := s[lo..hi];
    MinExactly(t);
    assert forall j | lo <= j < hi :: t[j - lo] == s[j] && s[j] in t;
  }

  /** The window test: higher than the maximum of the bars before, and of the bars after. */
  predicate TopsWindow(hs: seq<real>, i: nat, w: nat)
    requires 0 < w <= i < |hs| - w
  {
    hs[i] > Max(hs[i - w..i]) && hs[i] > Max(hs[i + 1..i + w + 1])
  }

  predicate BottomsWindow(ls: seq<real>, i: nat, w: nat)
    requires 0 < w <= i < |ls| - w
  {
    ls[i] < Min(ls[i - w..i]) && ls[i] < Min(ls[i + 1..i + w + 1])
  }

  lemma {:induction false} TopsWindowMeans(hs: seq<real>, i: nat, w: nat)
    requires 0 < w <= i < |hs| - w
    ensures TopsWindow(hs, i, w) <==> AllBelow(hs, i - w, i, hs[i]) && AllBelow(hs, i + 1, i + w + 1, hs[i])
  {
    MaxOfSlice(hs[i], hs, i - w, i);
    MaxOfSlice(hs[i], hs, i + 1, i + w + 1);
  }

  lemma {:induction false} BottomsWindowMeans(ls: seq<real>, i: nat, w: nat)
    requires 0 < w <= i < |ls| - w
    ensures BottomsWindow(ls, i, w) <==> AllAbove(ls, i - w, i, ls[i]) && AllAbove(ls, i + 1, i + w + 1, ls[i])
  {
    MinOfSlice(ls[i], ls, i - w, i);
    MinOfSlice(ls[i], ls, i + 1, i + w + 1);
  }

  /** The two half windows together are the window without its middle. */
  lemma {:induction false} TopIsSwingHigh(cs: seq<Candle>, i: nat, w: nat)
    requires 0 < w <= i < |cs| - w
    ensures TopsWindow(Highs(cs), i, w) <==> SwingHigh(cs, i, w)
  {
    var hs := Highs(cs);
    TopsWindowMeans(hs, i, w);
    assert forall j | 0 <= j < |cs| :: hs[j] == cs[j].high;
  }

  lemma {:induction false} BottomIsSwingLow(cs: seq<Candle>, i: nat, w: nat)
    requires 0 < w <= i < |cs| - w
    ensures BottomsWindow(Lows(cs), i, w) <==> SwingLow(cs, i, w)
  {
    var ls := Lows(cs);
    BottomsWindowMeans(ls, i, w);
    assert forall j | 0 <= j < |cs| :: ls[j] == cs[j].low;
  }

  /** No bar without a full window on both sides is a pivot. */
  lemma {:induction false} NoEarlyPivots(cs: seq<Candle>, w: nat, n: nat)
    requires n <= |cs| && n <= w
    ensures PivotsBelow(cs, w, n) == []
  {
    if n > 0 {
      NoEarlyPivots(cs, w, n - 1);
    }
  }

  lemma {:induction false} NoLatePivots(cs: seq<Candle>, w: nat, k: nat, n: nat)
    requires k <= n <= |cs| && k >= |cs| - w
    ensures PivotsBelow(cs, w, n) == PivotsBelow(cs, w, k)
  {
    if k < n {
      NoLatePivots(cs, w, k, n - 1);
    }
  }

  method IsTop(cs: seq<Candle>, highs: seq<real>, i: nat, w: nat) returns (top: bool)
    requires highs == Highs(cs) && 0 < w <= i < |cs| - w
    ensures top <==> SwingHigh(cs, i, w)
  {
    TopIsSwingHigh(cs, i, w);
    top := highs[i] > Max(highs[i - w..i]) && highs[i] > Max(highs[i + 1..i + w + 1]);
  }

  method IsBottom(cs: seq<Candle>, lows: seq<real>, i: nat, w: nat) returns (bottom: bool)
    requires lows == Lows(cs) && 0 < w <= i < |cs| - w
    ensures bottom <==> SwingLow(cs, i, w)
  {
    BottomIsSwingLow(cs, i, w);
    bottom := lows[i] < Min(lows[i - w..i]) && lows[i] < Min(lows[i + 1..i + w + 1]);
  }

  method DetectSwings(cs: seq<Candle>, w: nat) returns (pivots: seq<Pivot>)
    requires w > 0
    ensures pivots == Pivots(cs, w)
  {
    var highs, lows, n := Highs(cs), Lows(cs), |cs|;
    pivots := [];
    if n < 2 * w + 1 {
      NoPivotsInShortList(cs, w);
      return;
    }
    NoEarlyPivots(cs, w, w);
    for i := w to n - w
      invariant pivots == PivotsBelow(cs, w, i)
    {
      var top := IsTop(cs, highs, i, w);
      if top {
        pivots := pivots + [Pivot(i, High, highs[i])];
      }
      var bottom := IsBottom(cs, lows, i, w);
      if bottom {
        pivots := pivots + [Pivot(i, Low, lows[i])];
      }
    }
    NoLatePivots(cs, w, n - w, n);
  }

  lemma NoPivotsInShortList(cs: seq<Candle>, w: nat)
    requires |cs| < 2 * w + 1
    ensures Pivots(cs, w) == []
  {
    var k := if |cs| <= w then |cs| else w;
    NoEarlyPivots(cs, w, k);
    NoLatePivots(cs, w, k, |cs|);
  }

  // ---------- levels, labels, trend, events ----------

  /** The price of the latest pivot of the kind. */
  function Level(ps: seq<Pivot>, kind: Kind): Option<real> {
    if ps == [] then None
    else if ps[|ps| - 1].kind == kind then Some(ps[|ps| - 1].price)
    else Level(ps[..|ps| - 1], kind)
  }

  /** A pivot is labelled against the previous one of its kind. */
  function LabelOf(p: Pivot, previous: Option<real>): Option<Label> {
    if previous.None? then None
    else if p.kind.High? then Some(if p.price > previous.value then HH else LH)
    else Some(if p.price > previous.value then HL else LL)
  }

  function SwingOf(cs: seq<Candle>, ps: seq<Pivot>, i: nat): Swing
    requires i < |ps| && ps[i].index < |cs|
  {
    Swing(ps[i].index, cs[ps[i].index].time, ps[i].kind, ps[i].price, LabelOf(ps[i], Level(ps[..i], ps[i].kind)))
  }

  predicate InRange(cs: seq<Candle>, ps: seq<Pivot>) {
    forall i | 0 <= i < |ps| :: ps[i].index < |cs|
  }

  /** The first `n` pivots, labelled. */
  function SwingsUpTo(cs: seq<Candle>, ps: seq<Pivot>, n: nat): seq<Swing>
    requires InRange(cs, ps) && n <= |ps|
  {
    if n == 0 then [] else SwingsUpTo(cs, ps, n - 1) + [SwingOf(cs, ps, n - 1)]
  }

  function SwingsOf(cs: seq<Candle>, ps: seq<Pivot>): seq<Swing>
    requires InRange(cs, ps)
  {
    SwingsUpTo(cs, ps, |ps|)
  }

  predicate Sorted(ps: seq<Pivot>) {
    forall i, j | 0 <= i < j < |ps| :: ps[i].index <= ps[j].index
  }

  /** The pivots strictly before a bar, in a sorted list. */
  function Before(ps: seq<Pivot>, b: nat): seq<Pivot> {
    if ps == [] then []
    else if ps[|ps| - 1].index < b then ps
    else Before(ps[..|ps| - 1], b)
  }

  /** The levels a bar is judged against: the latest pivots strictly before it. */
  function LevelBefore(ps: seq<Pivot>, b: nat, kind: Kind): Option<real> {
    Level(Before(ps, b), kind)
  }

  predicate BothKnown(ps: seq<Pivot>, b: nat) {
    LevelBefore(ps, b, High).Some? && LevelBefore(ps, b, Low).Some?
  }

  /** The close leaves the range of the two levels upwards at this very bar. */
  predicate CrossesUp(cs: seq<Candle>, ps: seq<Pivot>, b: nat)
    requires b < |cs|
  {
    b > 0 && BothKnown(ps, b) && cs[b - 1].close <= LevelBefore(ps, b, High).value < cs[b].close
  }

  predicate CrossesDown(cs: seq<Candle>, ps: seq<Pivot>, b: nat)
    requires b < |cs|
  {
    b > 0 && BothKnown(ps, b) && cs[b - 1].close >= LevelBefore(ps, b, Low).value > cs[b].close
  }

  /** Low first: up; high first: down. */
  function InitialTrend(first: Kind): Direction {
    if first.High? then Down else Up
  }

  /** The way the close leaves the range; it cannot leave both ways at once. */
  function TurnAt(cs: seq<Candle>, ps: seq<Pivot>, b: nat): Option<Direction>
    requires b < |cs|
  {
    if CrossesUp(cs, ps, b) then Some(Up) else if CrossesDown(cs, ps, b) then Some(Down) else None
  }

  /** What a bar means for the structure: the initial trend if both levels are known after it, and its crossing, with
      the level that was crossed. */
  datatype Tick = Tick(time: int, initial: Option<Direction>, turn: Option<Direction>, level: real)

  function InitialAfter(ps: seq<Pivot>, b: nat): Option<Direction> {
    if BothKnown(ps, b + 1) && Before(ps, b + 1) != [] then Some(InitialTrend(Before(ps, b + 1)[0].kind)) else None
  }

  function TickAt(cs: seq<Candle>, ps: seq<Pivot>, b: nat): Tick
    requires b < |cs|
  {
    var turn := TurnAt(cs, ps, b);
    var level := if turn.None? then 0.0 else LevelBefore(ps, b, if turn.value.Up? then High else Low).value;
    Tick(cs[b].time, InitialAfter(ps, b), turn, level)
  }

  function Ticks(cs: seq<Candle>, ps: seq<Pivot>, b: nat): (ticks: seq<Tick>)
    requires b <= |cs|
    ensures |ticks| == b
  {
    if b == 0 then [] else Ticks(cs, ps, b - 1) + [TickAt(cs, ps, b - 1)]
  }

  /** All bars of a candle list, judged against its own pivots. */
  function AllTicks(cs: seq<Candle>, w: nat): seq<Tick> {
    Ticks(cs, Pivots(cs, w), |cs|)
  }

  predicate KnownAfter(ticks: seq<Tick>) {
    ticks != [] && ticks[|ticks| - 1].initial.Some?
  }

  /** None until both levels are known, then the initial trend, then the last crossing's direction. */
  function Trend(ticks: seq<Tick>): Option<Direction> {
    if !KnownAfter(ticks) then None
    else
      var before, last := ticks[..|ticks| - 1], ticks[|ticks| - 1];
      if !KnownAfter(before) then last.initial
      else if last.turn.Some? then last.turn
      else Trend(before)
  }

  /** A crossing is an event: a BOS in the direction of the trend, else a CHoCH. */
  function EventOf(before: seq<Tick>, tick: Tick): seq<Event> {
    if tick.turn.None? then []
    else [Event(|before|, tick.time, Trend(before) != tick.turn, tick.level, tick.turn.value)]
  }

  function Events(ticks: seq<Tick>): seq<Event> {
    if ticks == [] then []
    else
      var before := ticks[..|ticks| - 1];
      Events(before) + EventOf(before, ticks[|ticks| - 1])
  }

  // ---------- pivots before a bar ----------

  lemma {:induction false} PivotIndices(cs: seq<Candle>, w: nat, n: nat)
    requires n <= |cs|
    ensures forall i | 0 <= i < |PivotsBelow(cs, w, n)| :: PivotsBelow(cs, w, n)[i].index < n
    ensures Sorted(PivotsBelow(cs, w, n))
  {
    if n > 0 {
      PivotIndices(cs, w, n - 1);
    }
  }

  /** The prefix before a bar: everything below it, and nothing else. */
  lemma {:induction false} BeforeSplit(ps: seq<Pivot>, b: nat)
    requires Sorted(ps)
    ensures var n := |Before(ps, b)|;
            && n <= |ps| && ps[..n] == Before(ps, b)
            && (forall i | 0 <= i < n :: ps[i].index < b)
            && (forall i | n <= i < |ps| :: ps[i].index >= b)
  {
    if ps != [] && ps[|ps| - 1].index >= b {
      var less := ps[..|ps| - 1];
      BeforeSplit(less, b);
      var n := |Before(ps, b)|;
      assert less[..n] == ps[..n];
      forall i | n <= i < |ps| ensures ps[i].index >= b {
        if i < |less| {
          assert less[i] == ps[i];
        }
      }
    } else {
      assert ps[..|ps|] == ps;
    }
  }

  /** The pivots of bar `b` come right after those before it, and nothing else has its index. */
  lemma BarPivots(ps: seq<Pivot>, b: nat)
    requires Sorted(ps)
    ensures var m, n := |Before(ps, b)|, |Before(ps, b + 1)|;
            && m <= n <= |ps| && ps[..m] == Before(ps, b) && ps[..n] == Before(ps, b + 1)
            && (forall i | m <= i < n :: ps[i].index == b)
            && (forall i | n <= i < |ps| :: ps[i].index > b)
  {
    BeforeSplit(ps, b);
    BeforeSplit(ps, b + 1);
    BeforeGrows(ps, b);
  }

  lemma {:induction false} BeforeGrows(ps: seq<Pivot>, b: nat)
    ensures |Before(ps, b)| <= |Before(ps, b + 1)| <= |ps|
  {
    if ps != [] && ps[|ps| - 1].index >= b {
      BeforeGrows(ps[..|ps| - 1], b);
    }
  }

  lemma LevelAppend(ps: seq<Pivot>, p: Pivot, kind: Kind)
    ensures Level(ps + [p], kind) == if p.kind == kind then Some(p.price) else Level(ps, kind)
  {
    assert (ps + [p])[..|ps|] == ps;
  }

  lemma KnownLevelNeedsPivot(ps: seq<Pivot>, kind: Kind)
    ensures Level(ps, kind).Some? ==> ps != []
  {
  }

  lemma {:induction false} LevelSurvives(ps: seq<Pivot>, more: seq<Pivot>, kind: Kind)
    ensures Level(ps, kind).Some? ==> Level(ps + more, kind).Some?
  {
    if more == [] {
      assert ps + more == ps;
    } else {
      var last := more[|more| - 1];
      LevelSurvives(ps, more[..|more| - 1], kind);
      LevelAppend(ps + more[..|more| - 1], last, kind);
      assert ps + more == ps + more[..|more| - 1] + [last];
    }
  }

  /** Known levels stay known, and the first pivot stays the first. */
  lemma InitialStays(ps: seq<Pivot>, b: nat)
    requires Sorted(ps) && InitialAfter(ps, b).Some?
    ensures InitialAfter(ps, b + 1) == InitialAfter(ps, b)
  {
    BarPivots(ps, b + 1);
    var now, next := Before(ps, b + 1), Before(ps, b + 2);
    assert next == now + next[|now|..];
    LevelSurvives(now, next[|now|..], High);
    LevelSurvives(now, next[|now|..], Low);
  }

  lemma KnownBefore(ps: seq<Pivot>, b: nat)
    ensures BothKnown(ps, b + 1) <==> InitialAfter(ps, b).Some?
  {
    KnownLevelNeedsPivot(Before(ps, b + 1), High);
  }

  // ---------- ticks ----------

  /** What every tick list of a candle list satisfies: a crossing needs both levels, levels stay known, and the initial
      trend is decided once. */
  ghost predicate Steady(ticks: seq<Tick>) {
    && (forall i | 0 <= i < |ticks| && ticks[i].turn.Some? :: i > 0 && ticks[i - 1].initial.Some?)
    && (forall i, j | 0 <= i < j < |ticks| && ticks[i].initial.Some? :: ticks[j].initial == ticks[i].initial)
  }

  lemma SteadyGrows(ticks: seq<Tick>, tick: Tick)
    requires Steady(ticks)
    requires tick.turn.Some? ==> KnownAfter(ticks)
    requires KnownAfter(ticks) ==> tick.initial == ticks[|ticks| - 1].initial
    ensures Steady(ticks + [tick])
  {
  }

  lemma TurnNeedsLevels(cs: seq<Candle>, ps: seq<Pivot>, b: nat)
    requires b < |cs|
    ensures TickAt(cs, ps, b).turn.Some? ==> b > 0 && InitialAfter(ps, b - 1).Some?
    ensures TickAt(cs, ps, b).initial == InitialAfter(ps, b)
  {
    if b > 0 {
      KnownBefore(ps, b - 1);
    }
  }

  lemma {:induction false} TicksAreSteady(cs: seq<Candle>, ps: seq<Pivot>, n: nat)
    requires n <= |cs| && Sorted(ps)
    ensures Steady(Ticks(cs, ps, n))
    ensures n > 0 ==> Ticks(cs, ps, n)[n - 1].initial == InitialAfter(ps, n - 1)
  {
    if n > 0 {
      TicksAreSteady(cs, ps, n - 1);
      TurnNeedsLevels(cs, ps, n - 1);
      if n > 1 && InitialAfter(ps, n - 2).Some? {
        InitialStays(ps, n - 2);
      }
      SteadyGrows(Ticks(cs, ps, n - 1), TickAt(cs, ps, n - 1));
    }
  }

  /** Both levels known means a known trend: no event is ever judged without one. */
  lemma {:induction false} TrendIsKnown(ticks: seq<Tick>)
    requires Steady(ticks)
    ensures KnownAfter(ticks) <==> Trend(ticks).Some?
  {
    if KnownAfter(ticks) && KnownAfter(ticks[..|ticks| - 1]) {
      TrendIsKnown(ticks[..|ticks| - 1]);
    }
  }

  lemma SteadyPrefix(ticks: seq<Tick>, n: nat)
    requires Steady(ticks) && n <= |ticks|
    ensures Steady(ticks[..n])
  {
  }

  /** What the scan holds after a bar's pivots: the crossing's direction or the old trend, else the initial one. */
  lemma NextTrend(ticks: seq<Tick>, tick: Tick)
    requires Steady(ticks + [tick])
    ensures var turned := if tick.turn.Some? then tick.turn else Trend(ticks);
            Trend(ticks + [tick]) == if turned.None? then tick.initial else turned
  {
    var all := ticks + [tick];
    SteadyPrefix(all, |ticks|);
    assert all[..|ticks|] == ticks;
    TrendIsKnown(ticks);
    if KnownAfter(ticks) {
      assert all[|ticks|].initial == all[|ticks| - 1].initial;
    }
  }

  lemma EventsAppend(ticks: seq<Tick>, tick: Tick)
    ensures Events(ticks + [tick]) == Events(ticks) + EventOf(ticks, tick)
  {
    assert (ticks + [tick])[..|ticks|] == ticks;
  }
}
