/** `pa/liquidity.py`: first-fit clustering of equal levels around moving means. */
module Liquidity {
  import opened Basics
  import opened RealMath
  import opened Swings

  // ---------- sorting ----------

  predicate Ascending(ss: seq<Swing>) {
    forall i, j | 0 <= i < j < |ss| :: ss[i].price <= ss[j].price
  }

  /** Stable: an equal price goes behind the ones already there. */
  function Insert(ss: seq<Swing>, s: Swing): seq<Swing> {
    if ss == [] || ss[|ss| - 1].price <= s.price then ss + [s]
    else Insert(ss[..|ss| - 1], s) + [ss[|ss| - 1]]
  }

  /** `sorted(..., key=price)`. */
  function SortByPrice(ss: seq<Swing>): seq<Swing> {
    if ss == [] then [] else Insert(SortByPrice(ss[..|ss| - 1]), ss[|ss| - 1])
  }

  lemma {:induction false} InsertKeepsAll(ss: seq<Swing>, s: Swing)
    ensures multiset(Insert(ss, s)) == multiset(ss) + multiset{s}
  {
    if ss != [] && !(ss[|ss| - 1].price <= s.price) {
      InsertKeepsAll(ss[..|ss| - 1], s);
      assert ss == ss[..|ss| - 1] + [ss[|ss| - 1]];
    }
  }

  lemma {:induction false} InsertSorts(ss: seq<Swing>, s: Swing)
    requires Ascending(ss)
    ensures Ascending(Insert(ss, s))
    ensures forall p | AtMost(ss, p) && s.price <= p :: AtMost(Insert(ss, s), p)
  {
    if ss != [] && !(ss[|ss| - 1].price <= s.price) {
      var less, last := ss[..|ss| - 1], ss[|ss| - 1];
      InsertSorts(less, s);
      assert AtMost(less, last.price);
      assert AtMost(Insert(less, s), last.price);
      forall p | AtMost(ss, p) && s.price <= p ensures AtMost(Insert(ss, s), p) {
        assert AtMost(less, p);
      }
    }
  }

  lemma {:induction false} SortKeepsAll(ss: seq<Swing>)
    ensures multiset(SortByPrice(ss)) == multiset(ss)
  {
    if ss != [] {
      var rest, last := ss[..|ss| - 1], ss[|ss| - 1];
      SortKeepsAll(rest);
      InsertKeepsAll(SortByPrice(rest), last);
      assert multiset(ss) == multiset(rest) + multiset{last} by {
        assert ss == rest + [last];
      }
    }
  }

  lemma {:induction false} SortSorts(ss: seq<Swing>)
    ensures Ascending(SortByPrice(ss))
  {
    if ss != [] {
      SortSorts(ss[..|ss| - 1]);
      InsertSorts(SortByPrice(ss[..|ss| - 1]), ss[|ss| - 1]);
    }
  }

  /** The swings of one price, in order. */
  function AtPrice(ss: seq<Swing>, p: real): seq<Swing> {
    if ss == [] then []
    else AtPrice(ss[..|ss| - 1], p) + (if ss[|ss| - 1].price == p then [ss[|ss| - 1]] else [])
  }

  lemma AtPriceAppend(ss: seq<Swing>, s: Swing, p: real)
    ensures AtPrice(ss + [s], p) == AtPrice(ss, p) + (if s.price == p then [s] else [])
  {
    assert (ss + [s])[..|ss|] == ss;
  }

  lemma {:induction false} InsertKeepsOrder(ss: seq<Swing>, s: Swing, p: real)
    ensures AtPrice(Insert(ss, s), p) == AtPrice(ss, p) + (if s.price == p then [s] else [])
  {
    AtPriceAppend(ss, s, p);
    if ss != [] && !(ss[|ss| - 1].price <= s.price) {
      var less, last := ss[..|ss| - 1], ss[|ss| - 1];
      InsertKeepsOrder(less, s, p);
      AtPriceAppend(Insert(less, s), last, p);
    }
  }

  /** The sort is stable: swings of one price keep their order. */
  lemma {:induction false} SortKeepsOrder(ss: seq<Swing>, p: real)
    ensures AtPrice(SortByPrice(ss), p) == AtPrice(ss, p)
  {
    if ss != [] {
      SortKeepsOrder(ss[..|ss| - 1], p);
      InsertKeepsOrder(SortByPrice(ss[..|ss| - 1]), ss[|ss| - 1], p);
    }
  }

  function OfKind(ss: seq<Swing>, kind: Kind): seq<Swing> {
    if ss == [] then []
    else OfKind(ss[..|ss| - 1], kind) + (if ss[|ss| - 1].kind == kind then [ss[|ss| - 1]] else [])
  }

  // ---------- clusters ----------

  type Cluster = seq<Swing>

  function Sum(cl: Cluster): real {
    if cl == [] then 0.0 else Sum(cl[..|cl| - 1]) + cl[|cl| - 1].price
  }

  function Mean(cl: Cluster): real
    requires cl != []
  {
    Sum(cl) / |cl| as real
  }

  function Tolerance(cl: Cluster, pct: real): real
    requires cl != []
  {
    Mean(cl) * pct / 100.0
  }

  predicate Fits(cl: Cluster, s: Swing, pct: real)
    requires cl != []
  {
    Abs(s.price - Mean(cl)) <= Tolerance(cl, pct)
  }

  predicate NoneEmpty(cls: seq<Cluster>) {
    forall i | 0 <= i < |cls| :: cls[i] != []
  }

  /** The first cluster that takes the swing, or the number of clusters. */
  function FirstFit(cls: seq<Cluster>, s: Swing, pct: real): (i: nat)
    requires NoneEmpty(cls)
    ensures i <= |cls|
    ensures i < |cls| ==> Fits(cls[i], s, pct)
    ensures forall j | 0 <= j < i :: !Fits(cls[j], s, pct)
  {
    if cls == [] then 0
    else
      var i := FirstFit(cls[..|cls| - 1], s, pct);
      if i < |cls| - 1 then i
      else if Fits(cls[|cls| - 1], s, pct) then |cls| - 1
      else |cls|
  }

  function Place(cls: seq<Cluster>, s: Swing, i: nat): seq<Cluster>
    requires i <= |cls|
  {
    if i < |cls| then cls[i := cls[i] + [s]] else cls + [[s]]
  }

  /** The clusters after all items: each one goes to the first cluster that takes it. */
  function Clusters(items: seq<Swing>, pct: real): (cls: seq<Cluster>)
    ensures NoneEmpty(cls)
  {
    if items == [] then []
    else
      var before, s := Clusters(items[..|items| - 1], pct), items[|items| - 1];
      Place(before, s, FirstFit(before, s, pct))
  }

  /** The cheaper form: only the last cluster is ever tried. */
  function LastFit(cls: seq<Cluster>, s: Swing, pct: real): nat
    requires NoneEmpty(cls)
  {
    if cls != [] && Fits(cls[|cls| - 1], s, pct) then |cls| - 1 else |cls|
  }

  function LastClusters(items: seq<Swing>, pct: real): (cls: seq<Cluster>)
    ensures NoneEmpty(cls)
  {
    if items == [] then []
    else
      var before, s := LastClusters(items[..|items| - 1], pct), items[|items| - 1];
      Place(before, s, LastFit(before, s, pct))
  }

  function AtLeastTwo(cls: seq<Cluster>): seq<Cluster> {
    if cls == [] then []
    else AtLeastTwo(cls[..|cls| - 1]) + (if |cls[|cls| - 1]| >= 2 then [cls[|cls| - 1]] else [])
  }

  /** The sum of a cluster's prices, swing by swing. */
  lemma SumExactly(cl: Cluster, s: Swing)
    ensures Sum([]) == 0.0 && Sum(cl + [s]) == Sum(cl) + s.price
  {
    assert (cl + [s])[..|cl|] == cl;
  }

  /** A cluster takes a swing whose price is within `pct` per cent of the mean of its prices. */
  lemma FitsExactly(cl: Cluster, s: Swing, pct: real, mean: real)
    requires cl != [] && mean * |cl| as real == Sum(cl)
    ensures Fits(cl, s, pct) <==> mean - mean * pct / 100.0 <= s.price <= mean + mean * pct / 100.0
  {
    ScaleThenDivide(mean, |cl| as real);
  }

  /** One more swing goes behind those of the first cluster that takes it, or opens a new last cluster. */
  lemma ClustersExactly(items: seq<Swing>, s: Swing, pct: real, i: nat)
    ensures Clusters([], pct) == []
    ensures var cls, next := Clusters(items, pct), Clusters(items + [s], pct);
            && (i < |cls| && Fits(cls[i], s, pct) && (forall j | 0 <= j < i :: !Fits(cls[j], s, pct)) ==>
                  next == cls[i := cls[i] + [s]])
            && ((forall j | 0 <= j < |cls| :: !Fits(cls[j], s, pct)) ==> next == cls + [[s]])
  {
    assert (items + [s])[..|items|] == items;
  }

  /** Exactly the clusters of two or more swings are kept, in order. */
  ghost predicate KeptInFull(cls: seq<Cluster>, kept: seq<Cluster>) {
    exists at :: PickedAt(cls, kept, at) && forall n: nat | n < |cls| :: n in at <==> |cls[n]| >= 2
  }

  predicate Pair(cl: Cluster) {
    |cl| >= 2
  }

  lemma KeptSplit(cls: seq<Cluster>, less: seq<Cluster>, cl: Cluster)
    requires cls == less + [cl]
    ensures cls[..|less|] == less
    ensures AtLeastTwo(cls) == if Pair(cl) then AtLeastTwo(less) + [cl] else AtLeastTwo(less)
  {
    assert cls[..|less|] == less;
  }

  lemma KeptOneMore(cls: seq<Cluster>, less: seq<Cluster>, cl: Cluster, at: seq<nat>) returns (at': seq<nat>)
    requires cls == less + [cl] && PickedBy(less, AtLeastTwo(less), at, Pair)
    ensures PickedBy(cls, AtLeastTwo(cls), at', Pair)
  {
    KeptSplit(cls, less, cl);
    at' := PickNext(less, cl, AtLeastTwo(less), at, Pair);
  }

  lemma {:induction false} KeptPlaces(cls: seq<Cluster>) returns (at: seq<nat>)
    ensures PickedBy(cls, AtLeastTwo(cls), at, Pair)
  {
    at := [];
    if cls != [] {
      at := KeptPlaces(cls[..|cls| - 1]);
      at := KeptOneMore(cls, cls[..|cls| - 1], cls[|cls| - 1], at);
    }
  }

  lemma {:induction false} KeptExactly(cls: seq<Cluster>)
    ensures KeptInFull(cls, AtLeastTwo(cls))
  {
    var at := KeptPlaces(cls);
    assert forall n: nat | n < |cls| :: n in at <==> Pair(cls[n]);
  }

  /** `_cluster_swings`. */
  method ClusterSwings(swings: seq<Swing>, kind: Kind, pct: real) returns (kept: seq<Cluster>)
    ensures kept == AtLeastTwo(Clusters(SortByPrice(OfKind(swings, kind)), pct))
    ensures KeptInFull(Clusters(SortByPrice(OfKind(swings, kind)), pct), kept)
  {
    var items := SortByPrice(OfKind(swings, kind));
    var clusters: seq<Cluster> := [];
    for n := 0 to |items|
      invariant clusters == Clusters(items[..n], pct)
    {
      var s := items[n];
      var i := 0;
      assert items[..n + 1][..n] == items[..n];
      while i < |clusters| && !Fits(clusters[i], s, pct)
        invariant i <= |clusters|
        invariant forall j | 0 <= j < i :: !Fits(clusters[j], s, pct)
      {
        i := i + 1;
      }
      assert i == FirstFit(clusters, s, pct);
      clusters := Place(clusters, s, i);
    }
    assert items[..|items|] == items;
    kept := AtLeastTwo(clusters);
    KeptExactly(clusters);
  }

  // ---------- means ----------

  predicate AtMost(cl: Cluster, p: real) {
    forall i | 0 <= i < |cl| :: cl[i].price <= p
  }

  lemma {:induction false} SumAtMost(cl: Cluster, p: real)
    requires AtMost(cl, p)
    ensures Sum(cl) <= |cl| as real * p
  {
    if cl != [] {
      SumAtMost(cl[..|cl| - 1], p);
      Distribute((|cl| - 1) as real, 1.0, p);
    }
  }

  /** The mean of prices up to `p` is at most `p`. */
  lemma MeanAtMost(cl: Cluster, p: real)
    requires cl != [] && AtMost(cl, p)
    ensures Mean(cl) <= p
  {
    var n := |cl| as real;
    SumAtMost(cl, p);
    QuotientAtMost(Sum(cl), n, p);
  }

  lemma QuotientAtMost(sum: real, n: real, p: real)
    requires n > 0.0 && sum <= n * p
    ensures sum / n <= p
  {
    if sum / n > p {
      ScaleStrictly(p, sum / n, n);
      DivideThenScale(sum, n);
    }
  }

  lemma QuotientAtLeast(sum: real, n: real, p: real)
    requires n > 0.0 && sum >= n * p
    ensures sum / n >= p
  {
    if sum / n < p {
      ScaleStrictly(sum / n, p, n);
      DivideThenScale(sum, n);
    }
  }

  /** A price at or above the mean does not lower it. */
  lemma MeanGrows(cl: Cluster, s: Swing)
    requires cl != [] && s.price >= Mean(cl)
    ensures Mean(cl + [s]) >= Mean(cl)
  {
    var n, m := |cl| as real, Mean(cl);
    assert (cl + [s])[..|cl|] == cl;
    DivideThenScale(Sum(cl), n);
    assert Sum(cl) == n * m;
    Distribute(n, 1.0, m);
    QuotientAtLeast(Sum(cl + [s]), n + 1.0, m);
  }

  lemma SingletonMean(s: Swing)
    ensures Mean([s]) == s.price
  {
    assert Sum([s][..0]) == 0.0;
  }

  lemma {:induction false} SumPositive(cl: Cluster)
    requires cl != [] && forall i | 0 <= i < |cl| :: cl[i].price > 0.0
    ensures Sum(cl) > 0.0
  {
    if |cl| > 1 {
      SumPositive(cl[..|cl| - 1]);
    }
  }

  /** The top of the band a cluster accepts. */
  function Reach(cl: Cluster, pct: real): real
    requires cl != []
  {
    Mean(cl) + Tolerance(cl, pct)
  }

  /** From the mean upwards, a swing fits exactly up to the reach. */
  lemma FitsBelowReach(cl: Cluster, s: Swing, pct: real)
    requires cl != [] && s.price >= Mean(cl)
    ensures Fits(cl, s, pct) <==> s.price <= Reach(cl, pct)
  {
  }

  lemma ReachGrows(cl: Cluster, cl': Cluster, pct: real)
    requires cl != [] && cl' != [] && Mean(cl') >= Mean(cl) && pct >= 0.0
    ensures Reach(cl', pct) >= Reach(cl, pct)
  {
    ScaleUp(Mean(cl), Mean(cl'), pct);
  }

  // ---------- clusters are consecutive blocks ----------

  function Concat(cls: seq<Cluster>): seq<Swing> {
    if cls == [] then [] else Concat(cls[..|cls| - 1]) + cls[|cls| - 1]
  }

  /** Every member is within reach of its own mean, and beyond the reach of every earlier cluster. */
  ghost predicate Layered(cls: seq<Cluster>, pct: real)
    requires NoneEmpty(cls)
  {
    && (forall i, x | 0 <= i < |cls| && 0 <= x < |cls[i]| :: cls[i][x].price <= Reach(cls[i], pct))
    && (forall i, j, y | 0 <= i < j < |cls| && 0 <= y < |cls[j]| :: cls[j][y].price > Reach(cls[i], pct))
  }

  ghost predicate AllBelow(cls: seq<Cluster>, p: real) {
    forall i | 0 <= i < |cls| :: AtMost(cls[i], p)
  }

  ghost predicate Positive(items: seq<Swing>) {
    forall i | 0 <= i < |items| :: items[i].price > 0.0
  }

  /** A swing at least as high as all before it fits no cluster but the last. */
  lemma OnlyLastFits(cls: seq<Cluster>, s: Swing, pct: real)
    requires NoneEmpty(cls) && Layered(cls, pct) && AllBelow(cls, s.price)
    ensures FirstFit(cls, s, pct) == LastFit(cls, s, pct)
  {
    forall i | 0 <= i < |cls| - 1 ensures !Fits(cls[i], s, pct) {
      MeanAtMost(cls[i], s.price);
      FitsBelowReach(cls[i], s, pct);
      assert cls[i + 1][0].price > Reach(cls[i], pct);
      assert AtMost(cls[i + 1], s.price);
    }
  }

  lemma JoinKeepsLayers(cls: seq<Cluster>, s: Swing, pct: real)
    requires NoneEmpty(cls) && Layered(cls, pct) && AllBelow(cls, s.price) && pct >= 0.0
    requires cls != [] && Fits(cls[|cls| - 1], s, pct)
    ensures Layered(cls[|cls| - 1 := cls[|cls| - 1] + [s]], pct)
  {
    var n := |cls| - 1;
    var was, grown := cls[n], cls[n] + [s];
    var cls': seq<Cluster> := cls[n := grown];
    MeanAtMost(was, s.price);
    MeanGrows(was, s);
    ReachGrows(was, grown, pct);
    FitsBelowReach(was, s, pct);
    forall i, j, y | 0 <= i < j < |cls'| && 0 <= y < |cls'[j]| ensures cls'[j][y].price > Reach(cls'[i], pct) {
      if j == n && y == |was| {
        assert cls[n][0].price > Reach(cls[i], pct) && AtMost(cls[n], s.price);
      } else {
        assert cls'[j][y] == cls[j][y];
      }
    }
    forall i, x | 0 <= i < |cls'| && 0 <= x < |cls'[i]| ensures cls'[i][x].price <= Reach(cls'[i], pct) {
      if i == n && x < |was| {
        assert grown[x] == was[x];
      }
    }
  }

  lemma OpenKeepsLayers(cls: seq<Cluster>, s: Swing, pct: real)
    requires NoneEmpty(cls) && Layered(cls, pct) && AllBelow(cls, s.price) && pct >= 0.0 && s.price > 0.0
    requires cls != [] ==> !Fits(cls[|cls| - 1], s, pct)
    ensures Layered(cls + [[s]], pct)
  {
    var cls': seq<Cluster> := cls + [[s]];
    SingletonWithinReach(s, pct);
    forall i | 0 <= i < |cls| ensures s.price > Reach(cls[i], pct) {
      BeyondReach(cls, s, pct, i);
    }
    forall i, j, y | 0 <= i < j < |cls'| && 0 <= y < |cls'[j]| ensures cls'[j][y].price > Reach(cls'[i], pct) {
      if j < |cls| {
        assert cls'[j][y] == cls[j][y];
      }
    }
  }

  lemma SingletonWithinReach(s: Swing, pct: real)
    requires s.price > 0.0 && pct >= 0.0
    ensures s.price <= Reach([s], pct)
  {
    SingletonMean(s);
    ScaleUp(0.0, s.price, pct);
  }

  lemma BeyondReach(cls: seq<Cluster>, s: Swing, pct: real, i: nat)
    requires NoneEmpty(cls) && Layered(cls, pct) && AllBelow(cls, s.price) && i < |cls|
    requires !Fits(cls[|cls| - 1], s, pct)
    ensures s.price > Reach(cls[i], pct)
  {
    MeanAtMost(cls[i], s.price);
    FitsBelowReach(cls[i], s, pct);
    if i < |cls| - 1 {
      assert cls[i + 1][0].price > Reach(cls[i], pct) && AtMost(cls[i + 1], s.price);
    }
  }

  lemma ConcatPlace(cls: seq<Cluster>, s: Swing, i: nat)
    requires i == |cls| || i == |cls| - 1
    ensures Concat(Place(cls, s, i)) == Concat(cls) + [s]
  {
    var cls' := Place(cls, s, i);
    assert cls'[..|cls'| - 1] == if i < |cls| then cls[..|cls| - 1] else cls;
  }

  lemma AtMostParts(a: Cluster, b: Cluster, p: real)
    requires AtMost(a + b, p)
    ensures AtMost(a, p) && AtMost(b, p)
  {
    assert forall i | 0 <= i < |a| :: (a + b)[i] == a[i];
    assert forall i | 0 <= i < |b| :: (a + b)[|a| + i] == b[i];
  }

  lemma {:induction false} ConcatBelow(cls: seq<Cluster>, p: real)
    requires AtMost(Concat(cls), p)
    ensures AllBelow(cls, p)
  {
    if cls != [] {
      var less, last := cls[..|cls| - 1], cls[|cls| - 1];
      AtMostParts(Concat(less), last, p);
      ConcatBelow(less, p);
    }
  }

  /** Over ascending positive prices, searching all clusters is the same as trying the last one; the clusters are
      consecutive blocks whose concatenation is the sorted list, and they are layered. */
  lemma {:induction false} FirstFitIsContiguous(items: seq<Swing>, pct: real)
    requires Ascending(items) && Positive(items) && pct >= 0.0
    ensures Clusters(items, pct) == LastClusters(items, pct)
    ensures Concat(Clusters(items, pct)) == items
    ensures Layered(Clusters(items, pct), pct)
  {
    if items != [] {
      var n := |items| - 1;
      FirstFitIsContiguous(items[..n], pct);
      assert AtMost(items[..n], items[n].price);
      PlaceKeepsLayers(Clusters(items[..n], pct), items[n], pct);
    }
  }

  lemma LastPlaceKeepsLayers(cls: seq<Cluster>, s: Swing, pct: real, cls': seq<Cluster>)
    requires NoneEmpty(cls) && Layered(cls, pct) && AllBelow(cls, s.price) && pct >= 0.0 && s.price > 0.0
    requires cls' == Place(cls, s, LastFit(cls, s, pct))
    ensures NoneEmpty(cls') && Layered(cls', pct)
  {
    if LastFit(cls, s, pct) < |cls| {
      JoinKeepsLayers(cls, s, pct);
    } else {
      OpenKeepsLayers(cls, s, pct);
    }
  }

  lemma PlaceKeepsLayers(cls: seq<Cluster>, s: Swing, pct: real)
    requires NoneEmpty(cls) && Layered(cls, pct) && AtMost(Concat(cls), s.price) && pct >= 0.0 && s.price > 0.0
    ensures FirstFit(cls, s, pct) == LastFit(cls, s, pct)
    ensures var cls' := Place(cls, s, FirstFit(cls, s, pct));
            NoneEmpty(cls') && Layered(cls', pct) && Concat(cls') == Concat(cls) + [s]
  {
    ConcatBelow(cls, s.price);
    OnlyLastFits(cls, s, pct);
    var i := LastFit(cls, s, pct);
    ConcatPlace(cls, s, i);
    LastPlaceKeepsLayers(cls, s, pct, Place(cls, s, i));
  }

  /** Despite the moving mean, every price of a cluster lies strictly below every price of a later one. */
  lemma ClustersAreOrdered(items: seq<Swing>, pct: real, i: nat, j: nat, x: nat, y: nat)
    requires Ascending(items) && Positive(items) && pct >= 0.0
    requires i < j < |Clusters(items, pct)|
    requires x < |Clusters(items, pct)[i]| && y < |Clusters(items, pct)[j]|
    ensures Clusters(items, pct)[i][x].price < Clusters(items, pct)[j][y].price
  {
    FirstFitIsContiguous(items, pct);
  }

  // ---------- zones ----------

  datatype Zone = Zone(kind: Kind, low: real, high: real, count: nat, formedAt: nat)

  function LowOf(cl: Cluster): (p: real)
    requires cl != []
    ensures (exists i :: 0 <= i < |cl| && cl[i].price == p) && forall i | 0 <= i < |cl| :: cl[i].price >= p
  {
    if |cl| == 1 then cl[0].price
    else
      var rest, last := LowOf(cl[..|cl| - 1]), cl[|cl| - 1].price;
      if last < rest then last
      else
        var k :| 0 <= k < |cl| - 1 && cl[..|cl| - 1][k].price == rest;
        assert cl[k].price == rest;
        rest
  }

  function HighOf(cl: Cluster): (p: real)
    requires cl != []
    ensures (exists i :: 0 <= i < |cl| && cl[i].price == p) && forall i | 0 <= i < |cl| :: cl[i].price <= p
  {
    if |cl| == 1 then cl[0].price
    else
      var rest, last := HighOf(cl[..|cl| - 1]), cl[|cl| - 1].price;
      if last > rest then last
      else
        var k :| 0 <= k < |cl| - 1 && cl[..|cl| - 1][k].price == rest;
        assert cl[k].price == rest;
        rest
  }

  function LatestIndex(cl: Cluster): (n: nat)
    requires cl != []
    ensures (exists i :: 0 <= i < |cl| && cl[i].index == n) && forall i | 0 <= i < |cl| :: cl[i].index <= n
  {
    if |cl| == 1 then cl[0].index
    else
      var rest, last := LatestIndex(cl[..|cl| - 1]), cl[|cl| - 1].index;
      if last > rest then last
      else
        var k :| 0 <= k < |cl| - 1 && cl[..|cl| - 1][k].index == rest;
        assert cl[k].index == rest;
        rest
  }

  /** `_make_zone`, without the identifier text. */
  function MakeZone(cl: Cluster, kind: Kind): Zone
    requires cl != []
  {
    Zone(kind, LowOf(cl), HighOf(cl), |cl|, LatestIndex(cl))
  }

  /** A zone in full: from the least to the greatest price of its cluster, with the number of its swings and the index of
      its latest one. */
  lemma ZoneExactly(cl: Cluster, kind: Kind, i: nat)
    requires i < |cl|
    ensures var zone := MakeZone(cl, kind);
            && zone.kind == kind && zone.count == |cl|
            && zone.low <= cl[i].price <= zone.high && cl[i].index <= zone.formedAt
            && (exists j :: 0 <= j < |cl| && cl[j].price == zone.low)
            && (exists j :: 0 <= j < |cl| && cl[j].price == zone.high)
            && (exists j :: 0 <= j < |cl| && cl[j].index == zone.formedAt)
  {
  }

  /** Bands of different clusters never meet, so a swing inside a zone's band is one of that zone's swings. */
  lemma BandHoldsItsOwn(items: seq<Swing>, pct: real, i: nat, j: nat, y: nat, kind: Kind)
    requires Ascending(items) && Positive(items) && pct >= 0.0
    requires i < |Clusters(items, pct)| && j < |Clusters(items, pct)| && y < |Clusters(items, pct)[j]|
    ensures var cls := Clusters(items, pct); var zone := MakeZone(cls[i], kind);
            zone.low <= cls[j][y].price <= zone.high <==> i == j
  {
    var cls: seq<Cluster> := Clusters(items, pct);
    var lo :| 0 <= lo < |cls[i]| && cls[i][lo].price == LowOf(cls[i]);
    var hi :| 0 <= hi < |cls[i]| && cls[i][hi].price == HighOf(cls[i]);
    if i < j {
      ClustersAreOrdered(items, pct, i, j, hi, y);
    } else if j < i {
      ClustersAreOrdered(items, pct, j, i, y, lo);
    }
  }

  /** The hypotheses above hold of what is clustered: the list is sorted and holds exactly the swings of the kind. */
  lemma ClusteredItems(swings: seq<Swing>, kind: Kind)
    requires Positive(swings)
    ensures var items := SortByPrice(OfKind(swings, kind));
            Ascending(items) && Positive(items) && multiset(items) == multiset(OfKind(swings, kind))
  {
    var kinds := OfKind(swings, kind);
    SortSorts(kinds);
    SortKeepsAll(kinds);
    OfKindPositive(swings, kind);
    var items := SortByPrice(kinds);
    forall i | 0 <= i < |items| ensures items[i].price > 0.0 {
      assert items[i] in multiset(items);
      assert items[i] in kinds;
    }
  }

  lemma {:induction false} OfKindPositive(swings: seq<Swing>, kind: Kind)
    requires Positive(swings)
    ensures Positive(OfKind(swings, kind))
    ensures forall s :: s in OfKind(swings, kind) <==> s in swings && s.kind == kind
  {
    if swings != [] {
      OfKindPositive(swings[..|swings| - 1], kind);
      assert swings == swings[..|swings| - 1] + [swings[|swings| - 1]];
    }
  }

  function IsOf(kind: Kind): Swing -> bool {
    (s: Swing) => s.kind == kind
  }

  lemma OfKindSplit(swings: seq<Swing>, less: seq<Swing>, s: Swing, kind: Kind)
    requires swings == less + [s]
    ensures OfKind(swings, kind) == if IsOf(kind)(s) then OfKind(less, kind) + [s] else OfKind(less, kind)
  {
    assert swings[..|less|] == less;
  }

  lemma OfKindOneMore(swings: seq<Swing>, less: seq<Swing>, s: Swing, kind: Kind, at: seq<nat>) returns (at': seq<nat>)
    requires swings == less + [s] && PickedBy(less, OfKind(less, kind), at, IsOf(kind))
    ensures PickedBy(swings, OfKind(swings, kind), at', IsOf(kind))
  {
    OfKindSplit(swings, less, s, kind);
    at' := PickNext(less, s, OfKind(less, kind), at, IsOf(kind));
  }

  lemma {:induction false} OfKindPlaces(swings: seq<Swing>, kind: Kind) returns (at: seq<nat>)
    ensures PickedBy(swings, OfKind(swings, kind), at, IsOf(kind))
  {
    at := [];
    if swings != [] {
      at := OfKindPlaces(swings[..|swings| - 1], kind);
      at := OfKindOneMore(swings, swings[..|swings| - 1], swings[|swings| - 1], kind, at);
    }
  }

  /** The swings of a kind, in full: exactly those, in list order. */
  lemma {:induction false} OfKindExactly(swings: seq<Swing>, kind: Kind)
    ensures exists at :: PickedAt(swings, OfKind(swings, kind), at)
                         && forall n: nat | n < |swings| :: n in at <==> swings[n].kind == kind
  {
    var at := OfKindPlaces(swings, kind);
    assert forall n: nat | n < |swings| :: IsOf(kind)(swings[n]) <==> swings[n].kind == kind;
  }
}
