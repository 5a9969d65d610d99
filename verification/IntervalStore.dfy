/** `pa/analysis.py`: the immutable history of one (symbol, timeframe) series, and the table of all series. */
module IntervalStore {
  import opened Basics

  /** One record; its position in the history is its id. An open record has no end. */
  datatype Rec = Rec(version: string, from: int, to: Option<int>, payload: string)

  type History = seq<Rec>

  // ---------- queries ----------

  /** `WHERE effective_from = ? ORDER BY id DESC LIMIT 1`. */
  function LastAt(h: History, f: int): (i: Option<nat>)
    ensures i.Some? ==> i.value < |h| && h[i.value].from == f && forall j | i.value < j < |h| :: h[j].from != f
    ensures i.None? ==> forall j | 0 <= j < |h| :: h[j].from != f
  {
    if h == [] then None
    else if h[|h| - 1].from == f then Some(|h| - 1)
    else LastAt(h[..|h| - 1], f)
  }

  /** `WHERE effective_to IS NULL ORDER BY effective_from DESC, id DESC LIMIT 1`. */
  function OpenRow(h: History): (i: Option<nat>)
    ensures i.Some? ==> i.value < |h| && h[i.value].to.None?
    ensures i.Some? ==> forall j | 0 <= j < |h| && h[j].to.None? ::
              h[j].from < h[i.value].from || (h[j].from == h[i.value].from && j <= i.value)
    ensures i.None? ==> forall j | 0 <= j < |h| :: h[j].to.Some?
  {
    if h == [] then None
    else
      var n := |h| - 1;
      var rest := OpenRow(h[..n]);
      if h[n].to.None? && (rest.None? || h[n].from >= h[rest.value].from) then Some(n) else rest
  }

  /** `MIN(effective_from) WHERE effective_from > ?`. */
  function LeastAbove(h: History, f: int): (m: Option<int>)
    ensures m.Some? ==> m.value > f && exists j :: 0 <= j < |h| && h[j].from == m.value
    ensures forall j | 0 <= j < |h| && h[j].from > f :: m.Some? && m.value <= h[j].from
  {
    if h == [] then None
    else
      var n := |h| - 1;
      var rest := LeastAbove(h[..n], f);
      assert rest.Some? ==> exists j :: 0 <= j < n && h[..n][j].from == rest.value && h[j].from == rest.value;
      if h[n].from > f && (rest.None? || h[n].from < rest.value) then Some(h[n].from) else rest
  }

  // ---------- storing ----------

  /** `_store_payload` on one series. */
  function Stored(h: History, f: int, version: string, payload: string): History {
    var same := LastAt(h, f);
    var open := OpenRow(h);
    if same.Some? then
      var i := same.value;
      if h[i].version == version && h[i].payload == payload then h
      else if h[i].to.None? then h[i := h[i].(to := Some(f))] + [Rec(version, f, None, payload)]
      else h + [Rec(version, f, h[i].to, payload)]
    else if open.None? then h + [Rec(version, f, None, payload)]
    else if f > h[open.value].from then
      h[open.value := h[open.value].(to := Some(f - 1))] + [Rec(version, f, None, payload)]
    else
      var above := LeastAbove(h, f);
      h + [Rec(version, f, Some((if above.Some? then above.value else h[open.value].from) - 1), payload)]
  }

  /** `i` is the latest revision of the bar that starts at `f`. */
  predicate Newest(h: History, f: int, i: nat) {
    i < |h| && h[i].from == f && forall j | i < j < |h| :: h[j].from != f
  }

  /** `i` is the open record with the greatest start, and the latest among those. */
  predicate TopOpen(h: History, i: nat) {
    && i < |h| && h[i].to == None
    && forall j | 0 <= j < |h| && j != i && h[j].to == None ::
         h[j].from < h[i].from || (h[j].from == h[i].from && j < i)
  }

  /** `m` is the least start above `f`. */
  ghost predicate NextStart(h: History, f: int, m: int) {
    && f < m && (exists j :: 0 <= j < |h| && h[j].from == m)
    && forall j | 0 <= j < |h| :: h[j].from <= f || m <= h[j].from
  }

  /** The history with the end of one record set. */
  function WithEnd(h: History, i: nat, end: int): History
    requires i < |h|
  {
    h[..i] + [Rec(h[i].version, h[i].from, Some(end), h[i].payload)] + h[i + 1..]
  }

  /** Another revision of the bar whose latest one is `i`: nothing when it says the same; else it takes over the end of the
      latest one, and if that is open it is closed at the bar's own start. */
  predicate RevisedInFull(h: History, f: int, version: string, payload: string, i: nat, h': History)
    requires i < |h|
  {
    if h[i].version == version && h[i].payload == payload then h' == h
    else if h[i].to == None then h' == WithEnd(h, i, f) + [Rec(version, f, None, payload)]
    else h' == h + [Rec(version, f, h[i].to, payload)]
  }

  /** A new bar: open when no record is; open above the open record, which is closed just before it; closed below the open
      record, just before the next recorded start. */
  ghost predicate NewBarInFull(h: History, f: int, version: string, payload: string, h': History) {
    && ((forall j | 0 <= j < |h| :: h[j].to != None) ==> h' == h + [Rec(version, f, None, payload)])
    && (forall i: nat | TopOpen(h, i) && h[i].from < f ::
          h' == WithEnd(h, i, f - 1) + [Rec(version, f, None, payload)])
    && (forall i: nat, m | TopOpen(h, i) && f < h[i].from && NextStart(h, f, m) ::
          h' == h + [Rec(version, f, Some(m - 1), payload)])
  }

  /** Storing in full. */
  ghost predicate StoreInFull(h: History, f: int, version: string, payload: string, h': History) {
    && (forall i: nat | Newest(h, f, i) :: RevisedInFull(h, f, version, payload, i, h'))
    && ((forall j | 0 <= j < |h| :: h[j].from != f) ==> NewBarInFull(h, f, version, payload, h'))
  }

  lemma WithEndIsUpdate(h: History, i: nat, end: int)
    requires i < |h|
    ensures h[i := h[i].(to := Some(end))] == WithEnd(h, i, end)
  {
  }

  lemma {:induction false} RevisedExactly(h: History, f: int, version: string, payload: string, i: nat)
    requires Newest(h, f, i)
    ensures RevisedInFull(h, f, version, payload, i, Stored(h, f, version, payload))
  {
    assert LastAt(h, f) == Some(i);
    WithEndIsUpdate(h, i, f);
  }

  lemma {:induction false} TopOpenIsFound(h: History, i: nat)
    requires TopOpen(h, i)
    ensures OpenRow(h) == Some(i)
  {
  }

  lemma {:induction false} NextStartIsFound(h: History, f: int, m: int)
    requires NextStart(h, f, m)
    ensures LeastAbove(h, f) == Some(m)
  {
  }

  lemma {:induction false} ForwardExactly(h: History, f: int, version: string, payload: string, i: nat)
    requires (forall j | 0 <= j < |h| :: h[j].from != f) && TopOpen(h, i) && h[i].from < f
    ensures Stored(h, f, version, payload) == WithEnd(h, i, f - 1) + [Rec(version, f, None, payload)]
  {
    assert LastAt(h, f) == None;
    TopOpenIsFound(h, i);
    WithEndIsUpdate(h, i, f - 1);
  }

  lemma {:induction false} BackfillExactly(h: History, f: int, version: string, payload: string, i: nat, m: int)
    requires (forall j | 0 <= j < |h| :: h[j].from != f) && TopOpen(h, i) && f < h[i].from && NextStart(h, f, m)
    ensures Stored(h, f, version, payload) == h + [Rec(version, f, Some(m - 1), payload)]
  {
    assert LastAt(h, f) == None;
    TopOpenIsFound(h, i);
    NextStartIsFound(h, f, m);
  }

  lemma {:induction false} StoredExactly(h: History, f: int, version: string, payload: string)
    ensures StoreInFull(h, f, version, payload, Stored(h, f, version, payload))
  {
    var h' := Stored(h, f, version, payload);
    forall i: nat | Newest(h, f, i) ensures RevisedInFull(h, f, version, payload, i, h') {
      RevisedExactly(h, f, version, payload, i);
    }
    if forall j | 0 <= j < |h| :: h[j].from != f {
      assert LastAt(h, f) == None;
      forall i: nat | TopOpen(h, i) && h[i].from < f
        ensures h' == WithEnd(h, i, f - 1) + [Rec(version, f, None, payload)]
      {
        ForwardExactly(h, f, version, payload, i);
      }
      forall i: nat, m | TopOpen(h, i) && f < h[i].from && NextStart(h, f, m)
        ensures h' == h + [Rec(version, f, Some(m - 1), payload)]
      {
        BackfillExactly(h, f, version, payload, i, m);
      }
    }
  }

  /** The cases of `StoreInFull` leave nothing open: every store is a revision of a newest record, or a new bar of one of
      the three kinds. */
  lemma CasesAreComplete(h: History, f: int)
    ensures || (exists i: nat :: Newest(h, f, i))
            || (forall j | 0 <= j < |h| :: h[j].from != f)
    ensures || (forall j | 0 <= j < |h| :: h[j].to != None)
            || (exists i: nat :: TopOpen(h, i) && h[i].from <= f)
            || (exists i: nat, m :: TopOpen(h, i) && f < h[i].from && NextStart(h, f, m))
  {
    if LastAt(h, f).Some? {
      assert Newest(h, f, LastAt(h, f).value);
    }
    if OpenRow(h).Some? {
      var i := OpenRow(h).value;
      assert TopOpen(h, i);
      if f < h[i].from {
        assert NextStart(h, f, LeastAbove(h, f).value);
      }
    }
  }

  datatype Series = Series(symbol: string, timeframe: string)

  class HistoryTable {
    var series: map<Series, History>

    constructor ()
      ensures series == map[]
    {
      series := map[];
    }

    function Of(s: Series): History
      reads this
    {
      if s in series then series[s] else []
    }

    method Store(s: Series, f: int, version: string, payload: string)
      modifies this
      ensures Of(s) == Stored(old(Of(s)), f, version, payload)
      ensures StoreInFull(old(Of(s)), f, version, payload, Of(s))
      ensures forall t | t != s :: Of(t) == old(Of(t))
    {
      var h := Of(s);
      StoredExactly(h, f, version, payload);
      var same := LastAt(h, f);
      if same.Some? {
        var i := same.value;
        if h[i].version == version && h[i].payload == payload {
          return;
        }
        if h[i].to.None? {
          h := h[i := h[i].(to := Some(f))];
          h := h + [Rec(version, f, None, payload)];
        } else {
          h := h + [Rec(version, f, h[i].to, payload)];
        }
        series := series[s := h];
        return;
      }
      var open := OpenRow(h);
      if open.None? {
        series := series[s := h + [Rec(version, f, None, payload)]];
        return;
      }
      if f > h[open.value].from {
        h := h[open.value := h[open.value].(to := Some(f - 1))];
        series := series[s := h + [Rec(version, f, None, payload)]];
        return;
      }
      var above := LeastAbove(h, f);
      series := series[s := h + [Rec(version, f, Some(above.value - 1), payload)]];
    }

    /** `_read_current`. */
    method ReadCurrent(s: Series) returns (rec: Option<Rec>)
      ensures WellKept(Of(s)) ==> (rec.None? <==> Of(s) == [])
      ensures WellKept(Of(s)) && rec.Some? ==> IsOpen(Of(s), OpenRow(Of(s))) && rec.value == Of(s)[OpenRow(Of(s)).value]
    {
      var h := Of(s);
      var open := OpenRow(h);
      rec := if open.None? then None else Some(h[open.value]);
    }
  }

  // ---------- what every history keeps ----------

  /** The one open record: every other is closed, none starts later, and none is a later revision of its bar. */
  ghost predicate IsOpen(h: History, open: Option<nat>) {
    && open.Some? && open.value < |h| && h[open.value].to.None?
    && (forall j | 0 <= j < |h| && j != open.value :: h[j].to.Some?)
    && (forall j | 0 <= j < |h| :: h[j].from <= h[open.value].from)
    && (forall j | open.value < j < |h| :: h[j].from != h[open.value].from)
  }

  ghost predicate WellKept(h: History) {
    && (h != [] ==> IsOpen(h, OpenRow(h)))
    && (forall j | 0 <= j < |h| && h[j].to.Some? :: h[j].from <= h[j].to.value)
  }

  lemma OpenIsUnique(h: History, i: nat)
    requires IsOpen(h, Some(i))
    ensures OpenRow(h) == Some(i)
  {
  }

  lemma AppendClosedKeeps(h: History, open: nat, r: Rec)
    requires WellKept(h) && IsOpen(h, Some(open))
    requires r.to.Some? && r.from <= r.to.value && r.from < h[open].from
    ensures WellKept(h + [r])
  {
    OpenIsUnique(h + [r], open);
  }

  lemma AppendOpenKeeps(h: History, open: nat, end: int, r: Rec)
    requires WellKept(h) && IsOpen(h, Some(open)) && h[open].from <= end
    requires r.to.None? && r.from >= h[open].from
    ensures WellKept(h[open := h[open].(to := Some(end))] + [r])
  {
    OpenIsUnique(h[open := h[open].(to := Some(end))] + [r], |h|);
  }

  lemma RevisionKeeps(h: History, f: int, version: string, payload: string)
    requires WellKept(h) && LastAt(h, f).Some?
    ensures WellKept(Stored(h, f, version, payload))
  {
    var i, open := LastAt(h, f).value, OpenRow(h);
    if h[i].version == version && h[i].payload == payload {
    } else if h[i].to.None? {
      AppendOpenKeeps(h, i, f, Rec(version, f, None, payload));
    } else {
      ClosedIsBelow(h, i);
      AppendClosedKeeps(h, open.value, Rec(version, f, h[i].to, payload));
    }
  }

  lemma ForwardKeeps(h: History, open: nat, f: int, r: Rec)
    requires WellKept(h) && IsOpen(h, Some(open)) && f > h[open].from && r.from == f && r.to.None?
    ensures WellKept(h[open := h[open].(to := Some(f - 1))] + [r])
  {
    AppendOpenKeeps(h, open, f - 1, r);
  }

  lemma BackfillKeeps(h: History, open: nat, f: int, r: Rec)
    requires WellKept(h) && IsOpen(h, Some(open)) && f < h[open].from
    requires r.from == f && LeastAbove(h, f).Some? && r.to == Some(LeastAbove(h, f).value - 1)
    ensures WellKept(h + [r])
  {
    AppendClosedKeeps(h, open, r);
  }

  /** The two ways a new bar enters a non-empty history. */
  lemma StoredNewBar(h: History, f: int, version: string, payload: string)
    requires OpenRow(h).Some? && LastAt(h, f).None?
    ensures var open := OpenRow(h).value;
            if f > h[open].from
            then Stored(h, f, version, payload)
                 == h[open := h[open].(to := Some(f - 1))] + [Rec(version, f, None, payload)]
            else LeastAbove(h, f).Some? && Stored(h, f, version, payload)
                 == h + [Rec(version, f, Some(LeastAbove(h, f).value - 1), payload)]
  {
    assert h[OpenRow(h).value].from != f;
  }

  lemma NewBarKeeps(h: History, f: int, version: string, payload: string, h': History)
    requires WellKept(h) && h != [] && LastAt(h, f).None?
    requires var open := OpenRow(h).value;
             if f > h[open].from then h' == h[open := h[open].(to := Some(f - 1))] + [Rec(version, f, None, payload)]
             else LeastAbove(h, f).Some? && h' == h + [Rec(version, f, Some(LeastAbove(h, f).value - 1), payload)]
    ensures WellKept(h')
  {
    var open := OpenRow(h).value;
    if f > h[open].from {
      ForwardKeeps(h, open, f, Rec(version, f, None, payload));
    } else {
      assert h[open].from != f;
      BackfillKeeps(h, open, f, Rec(version, f, Some(LeastAbove(h, f).value - 1), payload));
    }
  }

  lemma FirstKeeps(f: int, version: string, payload: string)
    ensures WellKept(Stored([], f, version, payload))
  {
    var h := [Rec(version, f, None, payload)];
    assert Stored([], f, version, payload) == h;
    OpenIsUnique(h, 0);
  }

  lemma NewBarIsKept(h: History, f: int, version: string, payload: string)
    requires WellKept(h) && h != [] && LastAt(h, f).None?
    ensures WellKept(Stored(h, f, version, payload))
  {
    StoredNewBar(h, f, version, payload);
    NewBarKeeps(h, f, version, payload, Stored(h, f, version, payload));
  }

  /** Storing keeps exactly one open record, with the greatest start and the latest revision there, and every closed
      record the right way round. */
  lemma StoreKeeps(h: History, f: int, version: string, payload: string)
    requires WellKept(h)
    ensures WellKept(Stored(h, f, version, payload))
  {
    if h == [] {
      FirstKeeps(f, version, payload);
    } else if LastAt(h, f).Some? {
      RevisionKeeps(h, f, version, payload);
    } else {
      NewBarIsKept(h, f, version, payload);
    }
  }

  lemma StoredIsNonEmpty(h: History, f: int, version: string, payload: string)
    ensures Stored(h, f, version, payload) != []
  {
  }

  /** A bar whose latest revision is closed lies below the open one. */
  lemma ClosedIsBelow(h: History, i: nat)
    requires WellKept(h) && i < |h| && LastAt(h, h[i].from) == Some(i) && h[i].to.Some?
    ensures h[i].from < h[OpenRow(h).value].from
  {
  }

  /** Records are never deleted or rewritten; only an open end may be closed, once. */
  predicate RecKept(r: Rec, r': Rec) {
    r' == r || (r.to.None? && r'.to.Some? && r' == r.(to := r'.to))
  }

  ghost predicate Preserved(h: History, h': History) {
    |h| <= |h'| <= |h| + 1 && forall i | 0 <= i < |h| :: RecKept(h[i], h'[i])
  }

  lemma {:induction false} StorePreserves(h: History, f: int, version: string, payload: string)
    ensures Preserved(h, Stored(h, f, version, payload))
  {
  }

  lemma {:induction false} OwnIsLatest(h: History, f: int, version: string, payload: string)
    ensures var h' := Stored(h, f, version, payload);
            LastAt(h', f).Some?
            && h'[LastAt(h', f).value].version == version && h'[LastAt(h', f).value].payload == payload
  {
  }

  lemma {:induction false} StartsStay(h: History, f: int, version: string, payload: string)
    ensures var h' := Stored(h, f, version, payload);
            && (forall k | 0 <= k < |h| :: k < |h'| && h'[k].from == h[k].from)
            && (forall k | |h| <= k < |h'| :: h'[k].from == f)
  {
  }

  /** The latest revision of a bar depends on the starts alone. */
  lemma {:induction false} LastAtKept(h: History, h': History, g: int)
    requires |h| <= |h'| && forall k | 0 <= k < |h| :: h'[k].from == h[k].from
    requires forall k | |h| <= k < |h'| :: h'[k].from != g
    ensures LastAt(h', g) == LastAt(h, g)
  {
    if LastAt(h, g).Some? {
      assert h'[LastAt(h, g).value].from == g;
    }
  }

  lemma {:induction false} OtherStaysLatest(h: History, f: int, version: string, payload: string, g: int, h': History)
    requires g != f && h' == Stored(h, f, version, payload)
    ensures LastAt(h', g) == LastAt(h, g)
    ensures LastAt(h, g).Some? ==> h'[LastAt(h, g).value].version == h[LastAt(h, g).value].version
                                   && h'[LastAt(h, g).value].payload == h[LastAt(h, g).value].payload
  {
    StorePreserves(h, f, version, payload);
    StartsStay(h, f, version, payload);
    LastAtKept(h, h', g);
    assert LastAt(h, g).Some? ==> RecKept(h[LastAt(h, g).value], h'[LastAt(h, g).value]);
  }

  /** The latest revision of the bar is what was just stored, and those of other bars keep version and payload. */
  lemma {:induction false} StoreIsLatest(h: History, f: int, version: string, payload: string, g: int)
    ensures var h' := Stored(h, f, version, payload);
            && (g == f ==> LastAt(h', f).Some?
                           && h'[LastAt(h', f).value].version == version && h'[LastAt(h', f).value].payload == payload)
            && (g != f ==> LastAt(h', g) == LastAt(h, g)
                           && (LastAt(h, g).Some? ==> h'[LastAt(h, g).value].version == h[LastAt(h, g).value].version
                                                      && h'[LastAt(h, g).value].payload == h[LastAt(h, g).value].payload))
  {
    if g == f {
      OwnIsLatest(h, f, version, payload);
    } else {
      OtherStaysLatest(h, f, version, payload, g, Stored(h, f, version, payload));
    }
  }

  /** The latest revision of the bar has this version and payload. */
  predicate Shows(h: History, f: int, version: string, payload: string) {
    var i := LastAt(h, f);
    i.Some? && h[i.value].version == version && h[i.value].payload == payload
  }

  lemma StoreShows(h: History, f: int, version: string, payload: string)
    ensures Shows(Stored(h, f, version, payload), f, version, payload)
  {
    StoreIsLatest(h, f, version, payload, f);
  }

  lemma OthersStillShow(h: History, f: int, version: string, payload: string, g: int, v: string, p: string)
    requires g != f && Shows(h, g, v, p)
    ensures Shows(Stored(h, f, version, payload), g, v, p)
  {
    StoreIsLatest(h, f, version, payload, g);
  }

  /** Storing the same thing twice is storing it once. */
  lemma StoreTwice(h: History, f: int, version: string, payload: string)
    ensures var h' := Stored(h, f, version, payload); Stored(h', f, version, payload) == h'
  {
    StoreIsLatest(h, f, version, payload, f);
  }

  // ---------- coverage ----------

  predicate Covers(r: Rec, t: int) {
    r.from <= t && (r.to.Some? ==> t <= r.to.value)
  }

  /** The latest revision of its bar. */
  predicate Latest(h: History, i: int) {
    0 <= i < |h| && LastAt(h, h[i].from) == Some(i)
  }

  ghost predicate StartedBy(h: History, t: int) {
    exists k :: 0 <= k < |h| && h[k].from <= t
  }

  ghost predicate CoveredAt(h: History, t: int) {
    exists i :: Latest(h, i) && Covers(h[i], t)
  }

  /** From the first bar on, every time is covered by some latest revision. */
  ghost predicate Complete(h: History) {
    forall t :: StartedBy(h, t) ==> CoveredAt(h, t)
  }

  /** No time is covered by two latest revisions. */
  ghost predicate Disjoint(h: History) {
    forall i, j, t | Latest(h, i) && Latest(h, j) && Covers(h[i], t) && Covers(h[j], t) :: i == j
  }

  /** Every latest revision that is closed reaches the bar after it. */
  ghost predicate Reaching(h: History) {
    forall i | Latest(h, i) && h[i].to.Some? :: ReachedBy(h, h[i].from, h[i].to.value)
  }

  /** Every latest revision ends before any later bar starts. */
  ghost predicate Separate(h: History) {
    forall i, k | Latest(h, i) && 0 <= k < |h| && h[i].from < h[k].from :: h[i].to.Some? && h[i].to.value < h[k].from
  }

  lemma LatestOf(h: History, k: nat) returns (i: nat)
    requires k < |h|
    ensures Latest(h, i) && h[i].from == h[k].from
  {
    i := LastAt(h, h[k].from).value;
  }

  /** Some record starts at the greatest start that is at most `t`. */
  lemma {:induction false} GreatestStart(h: History, k: nat, t: int) returns (i: nat)
    requires k < |h| && h[k].from <= t
    ensures Latest(h, i) && h[i].from <= t
    ensures forall j | 0 <= j < |h| && h[j].from <= t :: h[j].from <= h[i].from
    decreases t - h[k].from
  {
    var above := LeastAbove(h, h[k].from);
    if above.Some? && above.value <= t {
      var j :| 0 <= j < |h| && h[j].from == above.value;
      i := GreatestStart(h, j, t);
    } else {
      i := LatestOf(h, k);
    }
  }

  lemma ReachingIsComplete(h: History)
    requires Reaching(h)
    ensures Complete(h)
  {
    forall t | StartedBy(h, t) ensures CoveredAt(h, t) {
      var k :| 0 <= k < |h| && h[k].from <= t;
      var i := GreatestStart(h, k, t);
      if h[i].to.Some? {
        var j :| 0 <= j < |h| && h[i].from < h[j].from <= h[i].to.value + 1;
      }
      assert Covers(h[i], t);
    }
  }

  lemma SeparateIsDisjoint(h: History)
    requires WellKept(h)
    ensures Separate(h) <==> Disjoint(h)
  {
    if Disjoint(h) {
      forall i, k | Latest(h, i) && 0 <= k < |h| && h[i].from < h[k].from
        ensures h[i].to.Some? && h[i].to.value < h[k].from
      {
        var j := LatestOf(h, k);
        if !(h[i].to.Some? && h[i].to.value < h[k].from) {
          assert Covers(h[i], h[k].from) && Covers(h[j], h[k].from);
        }
      }
    }
    if Separate(h) {
      forall i, j, t | Latest(h, i) && Latest(h, j) && Covers(h[i], t) && Covers(h[j], t) ensures i == j {
        assert h[i].from < h[j].from || h[j].from < h[i].from || h[i].from == h[j].from;
      }
    }
  }

  // ---------- what a store does to coverage ----------

  /** A backfill into the middle: a new bar, above some recorded start and below the open one. */
  ghost predicate Inside(h: History, f: int) {
    && LastAt(h, f).None?
    && (exists k :: 0 <= k < |h| && h[k].from < f)
    && (exists k :: 0 <= k < |h| && h[k].from > f)
  }

  /** After a store, the latest revisions are those of the other bars and the one of the stored bar. */
  lemma LatestAfter(h: History, f: int, version: string, payload: string, i: int)
    requires Latest(Stored(h, f, version, payload), i)
    ensures var h' := Stored(h, f, version, payload);
            if h'[i].from == f then Some(i) == LastAt(h', f) else Latest(h, i) && h[i].from == h'[i].from
  {
    var h' := Stored(h, f, version, payload);
    StorePreserves(h, f, version, payload);
    StoreIsLatest(h, f, version, payload, h'[i].from);
  }

  /** How long the latest revision of the stored bar lasts. */
  function EndAfter(h: History, f: int): Option<int>
    requires WellKept(h)
  {
    if LastAt(h, f).Some? then h[LastAt(h, f).value].to
    else if h == [] || f > h[OpenRow(h).value].from then None
    else Some(LeastAbove(h, f).value - 1)
  }

  lemma EndOfStored(h: History, f: int, version: string, payload: string)
    requires WellKept(h)
    ensures var h' := Stored(h, f, version, payload);
            LastAt(h', f).Some? && h'[LastAt(h', f).value].to == EndAfter(h, f)
  {
    StoreIsLatest(h, f, version, payload, f);
  }

  /** How a store changes the end of another bar's latest revision: only a forward store closes the open one. */
  lemma EndOfOther(h: History, f: int, version: string, payload: string, i: int)
    requires WellKept(h) && Latest(h, i) && h[i].from != f
    ensures var h' := Stored(h, f, version, payload);
            && Latest(h', i) && h'[i].from == h[i].from
            && h'[i].to == if OpenRow(h) == Some(i) && f > h[i].from then Some(f - 1) else h[i].to
  {
    StoreIsLatest(h, f, version, payload, h[i].from);
    StorePreserves(h, f, version, payload);
    assert IsOpen(h, OpenRow(h));
    assert OpenRow(h).Some?;
    if LastAt(h, f).Some? {
      assert LastAt(h, f).value != i;
      assert h[LastAt(h, f).value].from <= h[OpenRow(h).value].from;
    }
  }

  /** A recorded start stays a recorded start, and the stored bar is one. */
  lemma StartsGrow(h: History, f: int, version: string, payload: string)
    ensures var h' := Stored(h, f, version, payload);
            && (forall k | 0 <= k < |h| :: k < |h'| && h'[k].from == h[k].from)
            && (forall k | |h| <= k < |h'| :: h'[k].from == f)
            && (exists k :: 0 <= k < |h'| && h'[k].from == f)
  {
    StartsStay(h, f, version, payload);
    OwnIsLatest(h, f, version, payload);
  }

  /** Some recorded start lies after `f`, at or before the time after `to`. */
  ghost predicate ReachedBy(h: History, f: int, to: int) {
    exists k :: 0 <= k < |h| && f < h[k].from <= to + 1
  }

  lemma ReachedGrows(h: History, h': History, f: int, to: int)
    requires ReachedBy(h, f, to)
    requires forall k | 0 <= k < |h| :: k < |h'| && h'[k].from == h[k].from
    ensures ReachedBy(h', f, to)
  {
    var k :| 0 <= k < |h| && f < h[k].from <= to + 1;
    assert h'[k].from == h[k].from;
  }

  lemma StoreKeepsReaching(h: History, f: int, version: string, payload: string)
    requires WellKept(h) && Reaching(h)
    ensures Reaching(Stored(h, f, version, payload))
  {
    var h' := Stored(h, f, version, payload);
    forall i | Latest(h', i) && h'[i].to.Some? ensures ReachedBy(h', h'[i].from, h'[i].to.value) {
      LatestAfter(h, f, version, payload, i);
      if h'[i].from == f {
        EndOfStored(h, f, version, payload);
        StoredRecReaches(h, f, version, payload);
      } else {
        OtherRecReaches(h, f, version, payload, i);
      }
    }
  }

  lemma StoredRecReaches(h: History, f: int, version: string, payload: string)
    requires WellKept(h) && Reaching(h) && EndAfter(h, f).Some?
    ensures ReachedBy(Stored(h, f, version, payload), f, EndAfter(h, f).value)
  {
    StartsGrow(h, f, version, payload);
    StoredReaches(h, f);
    ReachedGrows(h, Stored(h, f, version, payload), f, EndAfter(h, f).value);
  }

  lemma OtherRecReaches(h: History, f: int, version: string, payload: string, i: int)
    requires WellKept(h) && Reaching(h) && Latest(h, i) && h[i].from != f
    requires Stored(h, f, version, payload)[i].to.Some?
    ensures ReachedBy(Stored(h, f, version, payload), h[i].from, Stored(h, f, version, payload)[i].to.value)
  {
    StartsGrow(h, f, version, payload);
    EndOfOther(h, f, version, payload, i);
    if h[i].to.Some? {
      ReachedGrows(h, Stored(h, f, version, payload), h[i].from, h[i].to.value);
    }
  }

  lemma StoredReaches(h: History, f: int)
    requires WellKept(h) && Reaching(h) && EndAfter(h, f).Some?
    ensures ReachedBy(h, f, EndAfter(h, f).value)
  {
    if LastAt(h, f).Some? {
      assert Latest(h, LastAt(h, f).value);
    } else {
      var k :| 0 <= k < |h| && h[k].from == LeastAbove(h, f).value;
    }
  }

  lemma StoreKeepsSeparate(h: History, f: int, version: string, payload: string)
    requires WellKept(h) && Separate(h) && !Inside(h, f)
    ensures Separate(Stored(h, f, version, payload))
  {
    var h' := Stored(h, f, version, payload);
    StartsGrow(h, f, version, payload);
    forall i, k | Latest(h', i) && 0 <= k < |h'| && h'[i].from < h'[k].from
      ensures h'[i].to.Some? && h'[i].to.value < h'[k].from
    {
      LatestAfter(h, f, version, payload, i);
      if h'[i].from == f {
        EndOfStored(h, f, version, payload);
        StoredEndsInTime(h, f, k);
      } else {
        EndOfOther(h, f, version, payload, i);
        OtherEndsInTime(h, f, i, if k < |h| then h[k].from else f);
      }
    }
  }

  lemma StoredEndsInTime(h: History, f: int, k: nat)
    requires WellKept(h) && Separate(h) && k < |h| && h[k].from > f
    ensures EndAfter(h, f).Some? && EndAfter(h, f).value < h[k].from
  {
    if LastAt(h, f).Some? {
      assert Latest(h, LastAt(h, f).value);
    } else {
      assert h[k].from <= h[OpenRow(h).value].from;
    }
  }

  /** `g` is a recorded start or the stored bar itself. */
  lemma OtherEndsInTime(h: History, f: int, i: nat, g: int)
    requires WellKept(h) && Separate(h) && !Inside(h, f) && Latest(h, i) && h[i].from != f && g > h[i].from
    requires g == f || exists k :: 0 <= k < |h| && h[k].from == g
    ensures var to := if OpenRow(h) == Some(i) && f > h[i].from then Some(f - 1) else h[i].to;
            to.Some? && to.value < g
  {
    if exists k :: 0 <= k < |h| && h[k].from == g {
      var k :| 0 <= k < |h| && h[k].from == g;
      assert h[i].from < h[k].from;
      assert h[k].from <= h[OpenRow(h).value].from;
    } else {
      assert LastAt(h, f).None?;
      assert h[i].from < f;
      assert h[i].from <= h[OpenRow(h).value].from;
      assert forall k | 0 <= k < |h| :: !(h[k].from > f);
      if OpenRow(h) != Some(i) {
        assert h[i].from != h[OpenRow(h).value].from by {
          assert LastAt(h, h[i].from) == Some(i);
        }
      }
    }
  }

  /** The last bar before `f` is closed and reaches past `f` when the next one starts after it. */
  lemma EndsPast(h: History, i: nat, f: int, high: nat)
    requires WellKept(h) && Reaching(h) && Latest(h, i) && h[i].from < f
    requires forall j | 0 <= j < |h| && h[j].from <= f :: h[j].from <= h[i].from
    requires high < |h| && h[high].from > f
    ensures h[i].to.Some? && h[i].to.value >= f && OpenRow(h) != Some(i)
  {
    assert h[high].from <= h[OpenRow(h).value].from;
    var j :| 0 <= j < |h| && h[i].from < h[j].from <= h[i].to.value + 1;
  }

  lemma InsideOverlaps(h: History, f: int, version: string, payload: string)
    requires WellKept(h) && Reaching(h) && Inside(h, f)
    ensures !Separate(Stored(h, f, version, payload))
  {
    var low :| 0 <= low < |h| && h[low].from < f;
    var high :| 0 <= high < |h| && h[high].from > f;
    var i := GreatestStart(h, low, f);
    EndsPast(h, i, f, high);
    OverlapsAt(h, f, version, payload, i);
  }

  lemma OverlapsAt(h: History, f: int, version: string, payload: string, i: nat)
    requires WellKept(h) && Latest(h, i) && h[i].from < f && OpenRow(h) != Some(i)
    requires h[i].to.Some? && h[i].to.value >= f
    ensures !Separate(Stored(h, f, version, payload))
  {
    var h' := Stored(h, f, version, payload);
    EndOfOther(h, f, version, payload, i);
    StartsGrow(h, f, version, payload);
    var k :| 0 <= k < |h'| && h'[k].from == f;
    assert Latest(h', i) && h'[i].from < h'[k].from;
  }

  /** A store into a disjoint history keeps it disjoint exactly when it is not a backfill into the middle. */
  lemma DisjointExactly(h: History, f: int, version: string, payload: string)
    requires WellKept(h) && Reaching(h) && Disjoint(h)
    ensures Disjoint(Stored(h, f, version, payload)) <==> !Inside(h, f)
  {
    var h' := Stored(h, f, version, payload);
    StoreKeeps(h, f, version, payload);
    SeparateIsDisjoint(h);
    SeparateIsDisjoint(h');
    if Inside(h, f) {
      InsideOverlaps(h, f, version, payload);
    } else {
      StoreKeepsSeparate(h, f, version, payload);
    }
  }

  // ---------- whole runs ----------

  datatype Write = Write(from: int, version: string, payload: string)

  /** The history after the writes, from an empty table. */
  function Written(ws: seq<Write>): History {
    if ws == [] then []
    else
      var w := ws[|ws| - 1];
      Stored(Written(ws[..|ws| - 1]), w.from, w.version, w.payload)
  }

  lemma WrittenSplit(ws: seq<Write>, n: nat)
    requires 0 < n <= |ws|
    ensures Written(ws[..n]) == Stored(Written(ws[..n - 1]), ws[n - 1].from, ws[n - 1].version, ws[n - 1].payload)
  {
    assert ws[..n][..n - 1] == ws[..n - 1];
  }

  lemma {:induction false} HistoryKept(ws: seq<Write>, n: nat)
    requires n <= |ws|
    ensures WellKept(Written(ws[..n])) && Reaching(Written(ws[..n]))
    ensures n > 0 ==> Written(ws[..n]) != []
  {
    if n > 0 {
      HistoryKept(ws, n - 1);
      WrittenSplit(ws, n);
      WriteKeeps(Written(ws[..n - 1]), ws[n - 1], Written(ws[..n]));
    }
  }

  lemma WriteKeeps(h: History, w: Write, h': History)
    requires WellKept(h) && Reaching(h) && h' == Stored(h, w.from, w.version, w.payload)
    ensures WellKept(h') && Reaching(h') && h' != []
  {
    StoreKeeps(h, w.from, w.version, w.payload);
    StoredIsNonEmpty(h, w.from, w.version, w.payload);
    StoreKeepsReaching(h, w.from, w.version, w.payload);
  }

  /** Over every run of stores: one open record, and no gap from the first bar on. */
  lemma EveryHistoryIsKept(ws: seq<Write>)
    ensures WellKept(Written(ws)) && Complete(Written(ws))
    ensures ws != [] ==> Written(ws) != []
  {
    HistoryKept(ws, |ws|);
    assert ws[..|ws|] == ws;
    ReachingIsComplete(Written(ws));
  }

  /** The records of the first history are still there in the second. */
  ghost predicate AllKept(h: History, h': History) {
    |h| <= |h'| && forall i | 0 <= i < |h| :: RecKept(h[i], h'[i])
  }

  lemma KeptOnward(h0: History, h1: History, h2: History)
    requires AllKept(h0, h1) && Preserved(h1, h2)
    ensures AllKept(h0, h2)
  {
    forall i | 0 <= i < |h0| ensures RecKept(h0[i], h2[i]) {
      assert RecKept(h0[i], h1[i]) && RecKept(h1[i], h2[i]);
    }
  }

  lemma WritePreserves(ws: seq<Write>, n: nat)
    requires 0 < n <= |ws|
    ensures Preserved(Written(ws[..n - 1]), Written(ws[..n]))
  {
    WrittenSplit(ws, n);
    StorePreserves(Written(ws[..n - 1]), ws[n - 1].from, ws[n - 1].version, ws[n - 1].payload);
  }

  /** Nothing is lost: over every run each record stays at its place as it was written, and its open end is closed at
      most once. */
  lemma {:induction false} NothingIsLost(ws: seq<Write>, m: nat, n: nat)
    requires m <= n <= |ws|
    ensures AllKept(Written(ws[..m]), Written(ws[..n]))
    decreases n
  {
    if m < n {
      NothingIsLost(ws, m, n - 1);
      WritePreserves(ws, n);
      KeptOnward(Written(ws[..m]), Written(ws[..n - 1]), Written(ws[..n]));
    }
  }

  /** Every bar ever written shows, as its latest revision, the last thing written for it. */
  lemma {:induction false} LastWriteShows(ws: seq<Write>, k: nat)
    requires k < |ws| && forall j | k < j < |ws| :: ws[j].from != ws[k].from
    ensures Shows(Written(ws), ws[k].from, ws[k].version, ws[k].payload)
    decreases |ws|
  {
    var n := |ws| - 1;
    var h, w := Written(ws[..n]), ws[n];
    if k < n {
      var less := ws[..n];
      assert less[k] == ws[k];
      LastWriteShows(less, k);
      OthersStillShow(h, w.from, w.version, w.payload, ws[k].from, ws[k].version, ws[k].payload);
    } else {
      StoreShows(h, w.from, w.version, w.payload);
    }
  }

  /** No write of the run is a backfill into the middle of what was there. */
  ghost predicate NeverInside(ws: seq<Write>) {
    forall n | 0 <= n < |ws| :: !Inside(Written(ws[..n]), ws[n].from)
  }

  ghost predicate AlwaysDisjoint(ws: seq<Write>) {
    forall n | 0 <= n <= |ws| :: Disjoint(Written(ws[..n]))
  }

  lemma NextDisjoint(ws: seq<Write>, n: nat)
    requires n < |ws| && Disjoint(Written(ws[..n]))
    ensures Disjoint(Written(ws[..n + 1])) <==> !Inside(Written(ws[..n]), ws[n].from)
  {
    HistoryKept(ws, n);
    WrittenSplit(ws, n + 1);
    DisjointExactly(Written(ws[..n]), ws[n].from, ws[n].version, ws[n].payload);
  }

  lemma {:induction false} DisjointThrough(ws: seq<Write>, n: nat)
    requires n <= |ws| && NeverInside(ws)
    ensures Disjoint(Written(ws[..n]))
  {
    if n > 0 {
      DisjointThrough(ws, n - 1);
      NextDisjoint(ws, n - 1);
    }
  }

  /** Latest revisions never overlap during a run exactly when the run never backfills into the middle. */
  lemma AlwaysDisjointExactly(ws: seq<Write>)
    ensures AlwaysDisjoint(ws) <==> NeverInside(ws)
  {
    if NeverInside(ws) {
      forall n | 0 <= n <= |ws| ensures Disjoint(Written(ws[..n])) {
        DisjointThrough(ws, n);
      }
    }
    if AlwaysDisjoint(ws) {
      forall n | 0 <= n < |ws| ensures !Inside(Written(ws[..n]), ws[n].from) {
        assert Disjoint(Written(ws[..n])) && Disjoint(Written(ws[..n + 1]));
        NextDisjoint(ws, n);
      }
    }
  }

  /** Such runs exist: bars at 10 and 30, then one at 20, whose record the first one's still covers. */
  lemma InsideHappens() returns (ws: seq<Write>)
    ensures !NeverInside(ws) && !AlwaysDisjoint(ws)
  {
    var first, second := Write(10, "v", "a"), Write(30, "v", "b");
    ws := [first, second, Write(20, "v", "c")];
    assert ws[..2] == [first, second] && [first, second][..1] == [first] && [first][..0] == [];
    var one := [Rec("v", 10, None, "a")];
    assert Written([first]) == one;
    assert one[..0] == [] && OpenRow(one) == Some(0) && LastAt(one, 30).None?;
    assert Written([first, second]) == [Rec("v", 10, Some(29), "a"), Rec("v", 30, None, "b")];
    var h := Written(ws[..2]);
    assert h[0].from < 20 && h[1].from > 20;
    assert Inside(h, ws[2].from);
    AlwaysDisjointExactly(ws);
  }

  ghost predicate NonDecreasing(ws: seq<Write>) {
    forall i, j | 0 <= i < j < |ws| :: ws[i].from <= ws[j].from
  }

  ghost predicate HasStart(h: History, f: int) {
    exists k :: 0 <= k < |h| && h[k].from == f
  }

  ghost predicate HasWrite(ws: seq<Write>, f: int) {
    exists j :: 0 <= j < |ws| && ws[j].from == f
  }

  lemma WritesBefore(ws: seq<Write>, f: int)
    requires ws != []
    ensures HasWrite(ws, f) <==> f == ws[|ws| - 1].from || HasWrite(ws[..|ws| - 1], f)
  {
    var less := ws[..|ws| - 1];
    if HasWrite(less, f) {
      var j :| 0 <= j < |less| && less[j].from == f;
      assert ws[j].from == f;
    }
    if HasWrite(ws, f) {
      var j :| 0 <= j < |ws| && ws[j].from == f;
      assert j < |less| ==> less[j].from == f;
    }
  }

  /** The starts of a history are the written bars, and nothing else. */
  lemma {:induction false} StartsAreWritten(ws: seq<Write>, f: int)
    ensures HasStart(Written(ws), f) <==> HasWrite(ws, f)
  {
    if ws != [] {
      StartsAreWritten(ws[..|ws| - 1], f);
      StartsAfter(Written(ws[..|ws| - 1]), ws[|ws| - 1], f);
      WritesBefore(ws, f);
    }
  }

  lemma StartsAfter(h: History, w: Write, f: int)
    ensures HasStart(Stored(h, w.from, w.version, w.payload), f) <==> f == w.from || HasStart(h, f)
  {
    var h' := Stored(h, w.from, w.version, w.payload);
    StartsGrow(h, w.from, w.version, w.payload);
    if HasStart(h, f) {
      var k :| 0 <= k < |h| && h[k].from == f;
      assert h'[k].from == f;
    }
  }

  lemma OrderedIsNeverInside(ws: seq<Write>)
    requires NonDecreasing(ws)
    ensures NeverInside(ws)
  {
    forall n | 0 <= n < |ws| ensures !Inside(Written(ws[..n]), ws[n].from) {
      var less := ws[..n];
      forall k | 0 <= k < |Written(less)| ensures Written(less)[k].from <= ws[n].from {
        StartsAreWritten(less, Written(less)[k].from);
        var j :| 0 <= j < |less| && less[j].from == Written(less)[k].from;
        assert ws[j] == less[j];
      }
    }
  }

  /** Stores in non-decreasing order tile the timeline: from the first bar on, each time is covered by exactly one
      latest revision. */
  lemma OrderedStoresTile(ws: seq<Write>, t: int)
    requires NonDecreasing(ws) && ws != [] && ws[0].from <= t
    ensures exists i :: Latest(Written(ws), i) && Covers(Written(ws)[i], t)
                        && forall j | Latest(Written(ws), j) && Covers(Written(ws)[j], t) :: j == i
  {
    OrderedIsNeverInside(ws);
    DisjointThrough(ws, |ws|);
    assert ws[..|ws|] == ws;
    EveryHistoryIsKept(ws);
    StartsAreWritten(ws, ws[0].from);
    assert HasWrite(ws, ws[0].from);
    assert StartedBy(Written(ws), t);
    assert CoveredAt(Written(ws), t);
  }
}
