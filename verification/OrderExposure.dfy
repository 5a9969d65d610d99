/** The exposure ceiling and the bookkeeping of one-shot overrides, over every run of the order protocol. */
module OrderExposure {
  import opened Basics
  import opened RiskRules
  import opened OrderRules
  import opened OrderProtocol
  import opened OrderSafety

  // ---------- sums over the order table ----------

  ghost function Term(rows: map<Key, Row>, k: Key, account: string, checkedOnly: bool): real
    requires k in rows
  {
    if k.account == account then Counted(rows[k], checkedOnly) else 0.0
  }

  lemma {:induction false} SumSplit(rows: map<Key, Row>, keys: set<Key>, account: string, checkedOnly: bool, k: Key)
    requires keys <= rows.Keys && k in keys
    ensures SumOver(rows, keys, account, checkedOnly)
         == Term(rows, k, account, checkedOnly) + SumOver(rows, keys - {k}, account, checkedOnly)
    decreases |keys|
  {
    var j :| j in keys && SumOver(rows, keys, account, checkedOnly)
      == Term(rows, j, account, checkedOnly) + SumOver(rows, keys - {j}, account, checkedOnly);
    if j != k {
      SumSplit(rows, keys - {j}, account, checkedOnly, k);
      SumSplit(rows, keys - {k}, account, checkedOnly, j);
      assert keys - {j} - {k} == keys - {k} - {j};
    }
  }

  /** Termwise comparison. */
  lemma {:induction false} SumBelow(rows: map<Key, Row>, rows': map<Key, Row>, keys: set<Key>, account: string,
                                    checked: bool, checked': bool)
    requires keys <= rows.Keys && keys <= rows'.Keys
    requires forall k | k in keys :: Term(rows', k, account, checked') <= Term(rows, k, account, checked)
    ensures SumOver(rows', keys, account, checked') <= SumOver(rows, keys, account, checked)
    decreases |keys|
  {
    if keys != {} {
      var k :| k in keys;
      SumSplit(rows, keys, account, checked, k);
      SumSplit(rows', keys, account, checked', k);
      SumBelow(rows, rows', keys - {k}, account, checked, checked');
    }
  }

  /** Keys of other accounts add nothing. */
  lemma {:induction false} SumIgnoresOthers(rows: map<Key, Row>, keys: set<Key>, more: set<Key>, account: string,
                                            checkedOnly: bool)
    requires keys <= more <= rows.Keys
    requires forall k | k in more - keys :: k.account != account
    ensures SumOver(rows, more, account, checkedOnly) == SumOver(rows, keys, account, checkedOnly)
    decreases |more|
  {
    if more - keys == {} {
      assert more == keys;
    } else {
      var k :| k in more - keys;
      SumSplit(rows, more, account, checkedOnly, k);
      SumIgnoresOthers(rows, keys, more - {k}, account, checkedOnly);
    }
  }

  /** A table that agrees on the account's rows has the same totals. */
  lemma TotalsAgree(rows: map<Key, Row>, rows': map<Key, Row>, account: string)
    requires forall k | k in rows :: k in rows' && (k.account == account ==> rows'[k] == rows[k])
    requires forall k | k in rows' && k !in rows :: k.account != account
    ensures OpenTotal(rows', account) == OpenTotal(rows, account)
    ensures CheckedTotal(rows', account) == CheckedTotal(rows, account)
  {
    SumIgnoresOthers(rows', rows.Keys, rows'.Keys, account, false);
    SumIgnoresOthers(rows', rows.Keys, rows'.Keys, account, true);
    SumBelow(rows, rows', rows.Keys, account, false, false);
    SumBelow(rows', rows, rows.Keys, account, false, false);
    SumBelow(rows, rows', rows.Keys, account, true, true);
    SumBelow(rows', rows, rows.Keys, account, true, true);
  }

  /** Settling one row never raises the total. */
  lemma TotalDrops(rows: map<Key, Row>, key: Key, report: Report, account: string)
    requires key in rows && Uncertain(rows[key].report.status) && rows[key].notional > 0.0
    ensures CheckedTotal(rows[key := rows[key].(report := report)], account) <= CheckedTotal(rows, account)
  {
    var rows' := rows[key := rows[key].(report := report)];
    assert rows'.Keys == rows.Keys;
    SumBelow(rows, rows', rows.Keys, account, true, true);
  }

  /** A new row raises its own account's total by what it counts for. */
  lemma TotalGrows(rows: map<Key, Row>, key: Key, row: Row)
    requires key !in rows
    ensures CheckedTotal(rows[key := row], key.account) == CheckedTotal(rows, key.account) + Counted(row, true)
  {
    var rows' := rows[key := row];
    SumSplit(rows', rows'.Keys, key.account, true, key);
    assert rows'.Keys - {key} == rows.Keys;
    SumBelow(rows, rows', rows.Keys, key.account, true, true);
    SumBelow(rows', rows, rows.Keys, key.account, true, true);
  }

  lemma {:induction false} TotalAfterInsert(rows: map<Key, Row>, k: Key, row: Row, account: string, checkedOnly: bool)
    requires k !in rows
    ensures var rows' := rows[k := row];
            SumOver(rows', rows'.Keys, account, checkedOnly)
            == SumOver(rows, rows.Keys, account, checkedOnly) + Term(rows', k, account, checkedOnly)
  {
    var rows' := rows[k := row];
    SumSplit(rows', rows'.Keys, account, checkedOnly, k);
    assert rows'.Keys - {k} == rows.Keys;
    SumBelow(rows, rows', rows.Keys, account, checkedOnly, checkedOnly);
    SumBelow(rows', rows, rows.Keys, account, checkedOnly, checkedOnly);
  }

  /** The totals row by row: a row of the account counts with its whole notional while it is NEW, PARTIALLY_FILLED or
      UNKNOWN, in the second total only if it went through the caps, and any other row not at all. */
  lemma TotalsExactly(rows: map<Key, Row>, k: Key, row: Row, account: string)
    requires k !in rows
    ensures OpenTotal(map[], account) == 0.0 && CheckedTotal(map[], account) == 0.0
    ensures var counts := k.account == account && row.report.status in {New, PartiallyFilled, Unknown};
            && OpenTotal(rows[k := row], account) == OpenTotal(rows, account) + (if counts then row.notional else 0.0)
            && CheckedTotal(rows[k := row], account)
               == CheckedTotal(rows, account) + (if counts && row.origin != KillSwitch then row.notional else 0.0)
  {
    TotalAfterInsert(rows, k, row, account, false);
    TotalAfterInsert(rows, k, row, account, true);
  }

  ghost predicate PositiveRows(s: State) {
    forall k | k in s.rows :: s.rows[k].notional > 0.0
  }

  lemma CheckedWithinOpen(s: State, account: string)
    requires PositiveRows(s)
    ensures CheckedTotal(s.rows, account) <= OpenTotal(s.rows, account)
  {
    SumBelow(s.rows, s.rows, s.rows.Keys, account, false, true);
  }

  lemma PositiveStep(s: State, step: Step)
    requires Coherent(s) && PositiveRows(s) && Enabled(s, step)
    ensures PositiveRows(Apply(s, step))
  {
    RowsGrowStep(s, step);
    forall k | k in Apply(s, step).rows ensures Apply(s, step).rows[k].notional > 0.0 {
      if k in s.rows {
        assert RowGrows(s.rows[k], Apply(s, step).rows[k]);
      } else {
        NewRowIsInserted(s, step, k);
        assert TaskCoherent(s, step.account, s.holds[step.account].task);
      }
    }
  }

  // ---------- the ceiling ----------

  /** What the account's lock holder has established so far about the cap. */
  ghost predicate HolderWithin(s: State, account: string, cap: real) {
    account in s.holds ==>
      var t := s.holds[account].task;
      match t
      case PolicyRead(_, policy) => policy.maxExposure == Some(cap)
      case TotalRead(_, policy, open) => policy.maxExposure == Some(cap) && open == OpenTotal(s.rows, account)
      case Weighed(d, policy, after) =>
        policy.maxExposure == Some(cap) && after >= OpenTotal(s.rows, account) + d.notional
      case Cleared(d, origin) => origin.Checked? ==> OpenTotal(s.rows, account) + d.notional <= cap
      case _ => true
  }

  ghost predicate CeilingInv(s: State, account: string, cap: real) {
    && PositiveRows(s)
    && PolicyOf(s.risk, account).maxExposure == Some(cap)
    && CheckedTotal(s.rows, account) <= cap
    && HolderWithin(s, account, cap)
  }

  /** The step neither sets the account's policy nor spends one of its overrides. */
  predicate KeepsCap(step: Step, account: string) {
    && !(step.Govern? && step.risk.Setting? && step.risk.account == account)
    && !(step.Prepare? && step.account == account && step.prep.Spend?)
  }

  lemma CeilingAfterPrep(s: State, a: string, p: Prep, cap: real)
    requires Coherent(s) && CeilingInv(s, a, cap) && PrepEnabled(s, a, p) && !p.Spend?
    ensures CheckedTotal(ApplyPrep(s, a, p).rows, a) <= cap && HolderWithin(ApplyPrep(s, a, p), a, cap)
  {
    var t := s.holds[a].task;
    assert TaskCoherent(s, a, t);
    if p.Insert? {
      var row := RowFor(t.draft, t.origin, if t.draft.isReal then New else Paper);
      TotalGrows(s.rows, t.draft.key, row);
      CheckedWithinOpen(s, a);
    }
  }

  lemma CeilingAfterDeal(s: State, a: string, deal: Deal, cap: real)
    requires Coherent(s) && CeilingInv(s, a, cap) && DealEnabled(s, a, deal) && s.holds[a].task.key in s.rows
    ensures CheckedTotal(ApplyDeal(s, a, deal).rows, a) <= cap && HolderWithin(ApplyDeal(s, a, deal), a, cap)
  {
    var t := s.holds[a].task;
    assert TaskCoherent(s, a, t);
    if deal.Write? {
      TotalDrops(s.rows, t.key, t.report, a);
    }
  }

  /** A step of another account leaves the ceiling alone. */
  lemma CeilingElsewhere(s: State, s': State, other: string, account: string, cap: real)
    requires CeilingInv(s, account, cap) && Local(s, s', other) && other != account
    ensures CheckedTotal(s'.rows, account) <= cap && HolderWithin(s', account, cap)
  {
    TotalsAgree(s.rows, s'.rows, account);
    assert account in s.holds <==> account in s.holds - {other};
    assert account in s'.holds <==> account in s'.holds - {other};
    if account in s.holds {
      assert (s'.holds - {other})[account] == (s.holds - {other})[account];
    }
  }

  lemma PrepKeepsPolicies(s: State, a: string, p: Prep)
    requires PrepEnabled(s, a, p)
    ensures ApplyPrep(s, a, p).risk.policies == s.risk.policies
  {
  }

  lemma PolicyKept(s: State, step: Step, account: string)
    requires Coherent(s) && Enabled(s, step) && KeepsCap(step, account)
    ensures PolicyOf(Apply(s, step).risk, account) == PolicyOf(s.risk, account)
  {
    match step
    case Prepare(a, p) => PrepKeepsPolicies(s, a, p);
    case _ =>
  }

  lemma CeilingStep(s: State, step: Step, account: string, cap: real)
    requires Coherent(s) && CeilingInv(s, account, cap) && Enabled(s, step) && KeepsCap(step, account)
    ensures CeilingInv(Apply(s, step), account, cap)
  {
    var s' := Apply(s, step);
    PositiveStep(s, step);
    PolicyKept(s, step, account);
    if Actor(step).Some? && Actor(step).value != account {
      ActorIsLocal(s, step);
      CeilingElsewhere(s, s', Actor(step).value, account, cap);
    } else {
      match step
      case Prepare(a, p) => CeilingAfterPrep(s, a, p, cap);
      case Settle(a, deal) =>
        assert TaskCoherent(s, a, s.holds[a].task);
        CeilingAfterDeal(s, a, deal, cap);
      case PaperCancel(key) => TotalDrops(s.rows, key, s.rows[key].report.(status := Canceled), account);
      case StartupWrite => TotalDrops(s.rows, s.fixup.value.0, s.fixup.value.1, account);
      case _ =>
    }
  }

  ghost predicate AllKeepCap(steps: seq<Step>, account: string) {
    forall i | 0 <= i < |steps| :: KeepsCap(steps[i], account)
  }

  lemma {:induction false} CeilingRun(s: State, steps: seq<Step>, account: string, cap: real)
    requires Legal(s, steps) && CeilingInv(s, account, cap) && AllKeepCap(steps, account)
    ensures CeilingInv(Run(s, steps), account, cap)
    decreases |steps|
  {
    if steps != [] {
      CeilingStep(s, steps[0], account, cap);
      CeilingRun(Apply(s, steps[0]), steps[1..], account, cap);
    }
  }

  lemma {:induction false} PositiveRun(s: State, steps: seq<Step>)
    requires Legal(s, steps) && PositiveRows(s)
    ensures PositiveRows(Run(s, steps))
    decreases |steps|
  {
    if steps != [] {
      PositiveStep(s, steps[0]);
      PositiveRun(Apply(s, steps[0]), steps[1..]);
    }
  }

  /** From any reachable state where the account is idle and within its cap: as long as its policy stays and no
      override of it is spent, its counted notional never exceeds the cap, whatever crashes, times out or interleaves. */
  lemma ExposureCeiling(before: seq<Step>, steps: seq<Step>, account: string, cap: real)
    requires Legal(INIT, before) && Legal(Run(INIT, before), steps)
    requires account !in Run(INIT, before).holds
    requires PolicyOf(Run(INIT, before).risk, account).maxExposure == Some(cap)
    requires CheckedTotal(Run(INIT, before).rows, account) <= cap
    requires AllKeepCap(steps, account)
    ensures CheckedTotal(Run(Run(INIT, before), steps).rows, account) <= cap
  {
    PositiveRun(INIT, before);
    CeilingRun(Run(INIT, before), steps, account, cap);
  }

  // ---------- overrides ----------

  /** An order is within the caps it was checked against, or an applied override stamped with that policy's version
      names its account and key. */
  predicate OriginOk(r: Risk, key: Key, symbol: string, notional: real, origin: Origin) {
    origin.Checked? ==>
      var verdict := EnforceCaps(origin.policy, symbol, notional, origin.exposureAfter);
      match origin.override
      case None => verdict == Within
      case Some(i) => verdict != Within && i < |r.overrides| && Pays(r.overrides[i], key, origin.policy.version)
  }

  predicate Pays(o: Override, key: Key, version: nat) {
    && o.account == key.account
    && o.version == version
    && o.state.Applied? && o.state.spender == key.idem
  }

  predicate ClearedOk(s: State, a: string) {
    (a in s.holds && s.holds[a].task.Cleared?) ==>
      var d := s.holds[a].task.draft;
      d.key.account == a && OriginOk(s.risk, d.key, d.symbol, d.notional, s.holds[a].task.origin)
  }

  ghost predicate OverrideInv(s: State) {
    && (forall k | k in s.rows :: OriginOk(s.risk, k, s.rows[k].symbol, s.rows[k].notional, s.rows[k].origin))
    && (forall a | a in s.holds :: ClearedOk(s, a))
  }

  /** Settled overrides stay put, so what they paid for stays paid. */
  lemma OriginKept(r: Risk, r': Risk, key: Key, symbol: string, notional: real, origin: Origin)
    requires OriginOk(r, key, symbol, notional, origin)
    requires |r.overrides| <= |r'.overrides|
    requires forall i | 0 <= i < |r.overrides| :: OverrideGrows(r.overrides[i], r'.overrides[i])
    ensures OriginOk(r', key, symbol, notional, origin)
  {
    if origin.Checked? && origin.override.Some? {
      assert OverrideGrows(r.overrides[origin.override.value], r'.overrides[origin.override.value]);
    }
  }

  lemma PrepGrowsOverrides(s: State, a: string, p: Prep)
    requires PrepEnabled(s, a, p)
    ensures var os := s.risk.overrides; var os' := ApplyPrep(s, a, p).risk.overrides;
            |os| == |os'| && forall i | 0 <= i < |os| :: OverrideGrows(os[i], os'[i])
  {
  }

  lemma OverridesGrow(s: State, step: Step)
    requires Coherent(s) && Enabled(s, step)
    ensures |s.risk.overrides| <= |Apply(s, step).risk.overrides|
    ensures forall i | 0 <= i < |s.risk.overrides| ::
              OverrideGrows(s.risk.overrides[i], Apply(s, step).risk.overrides[i])
  {
    match step
    case Govern(r) => RiskStepIsFramed(s.risk, r);
    case Prepare(a, p) => PrepGrowsOverrides(s, a, p);
    case _ =>
  }

  lemma PrepPays(s: State, a: string, p: Prep)
    requires Coherent(s) && OverrideInv(s) && PrepEnabled(s, a, p)
    ensures ClearedOk(ApplyPrep(s, a, p), a)
  {
    var t := s.holds[a].task;
    assert TaskCoherent(s, a, t) && ClearedOk(s, a);
  }

  lemma DealPays(s: State, a: string, deal: Deal)
    requires DealEnabled(s, a, deal) && s.holds[a].task.key in s.rows
    ensures ClearedOk(ApplyDeal(s, a, deal), a)
  {
  }

  lemma RowPaid(s: State, step: Step, k: Key)
    requires Coherent(s) && OverrideInv(s) && Enabled(s, step) && k in Apply(s, step).rows
    ensures var s' := Apply(s, step);
            OriginOk(s'.risk, k, s'.rows[k].symbol, s'.rows[k].notional, s'.rows[k].origin)
  {
    var s' := Apply(s, step);
    OverridesGrow(s, step);
    if k in s.rows {
      RowsGrowStep(s, step);
      assert RowGrows(s.rows[k], s'.rows[k]);
      OriginKept(s.risk, s'.risk, k, s.rows[k].symbol, s.rows[k].notional, s.rows[k].origin);
    } else {
      NewRowIsInserted(s, step, k);
      var t := s.holds[step.account].task;
      assert ClearedOk(s, step.account);
      OriginKept(s.risk, s'.risk, k, t.draft.symbol, t.draft.notional, t.origin);
    }
  }

  lemma HolderPaid(s: State, step: Step, a: string)
    requires Coherent(s) && OverrideInv(s) && Enabled(s, step) && a in Apply(s, step).holds
    ensures ClearedOk(Apply(s, step), a)
  {
    var s' := Apply(s, step);
    OverridesGrow(s, step);
    if Actor(step) == Some(a) {
      match step
      case Prepare(_, p) => PrepPays(s, a, p);
      case Settle(_, deal) =>
        assert TaskCoherent(s, a, s.holds[a].task);
        DealPays(s, a, deal);
      case _ =>
    } else {
      HoldKept(s, step, a);
      assert ClearedOk(s, a);
      var t := s.holds[a].task;
      if t.Cleared? {
        OriginKept(s.risk, s'.risk, t.draft.key, t.draft.symbol, t.draft.notional, t.origin);
      }
    }
  }

  lemma OverrideStep(s: State, step: Step)
    requires Coherent(s) && OverrideInv(s) && Enabled(s, step)
    ensures OverrideInv(Apply(s, step))
  {
    var s' := Apply(s, step);
    forall k | k in s'.rows ensures OriginOk(s'.risk, k, s'.rows[k].symbol, s'.rows[k].notional, s'.rows[k].origin) {
      RowPaid(s, step, k);
    }
    forall a | a in s'.holds ensures ClearedOk(s', a) {
      HolderPaid(s, step, a);
    }
  }

  lemma {:induction false} OverrideRun(s: State, steps: seq<Step>)
    requires Legal(s, steps) && OverrideInv(s)
    ensures OverrideInv(Run(s, steps))
    decreases |steps|
  {
    if steps != [] {
      OverrideStep(s, steps[0]);
      OverrideRun(Apply(s, steps[0]), steps[1..]);
    }
  }

  ghost function OverCapKeys(s: State): set<Key> {
    set k | k in s.rows && OverCap(s.rows[k])
  }

  ghost function AppliedOverrides(s: State): set<nat> {
    set i: nat | i < |s.risk.overrides| && s.risk.overrides[i].state.Applied?
  }

  /** Different orders are paid for by different overrides. */
  lemma {:induction false} PaidOneByOne(s: State, keys: set<Key>, paid: set<nat>)
    requires OverrideInv(s) && keys <= OverCapKeys(s)
    requires forall k | k in keys :: s.rows[k].origin.override.value in paid
    ensures |keys| <= |paid|
    decreases |keys|
  {
    if keys != {} {
      var k :| k in keys;
      var i := s.rows[k].origin.override.value;
      assert OriginOk(s.risk, k, s.rows[k].symbol, s.rows[k].notional, s.rows[k].origin);
      forall j | j in keys - {k} ensures s.rows[j].origin.override.value in paid - {i} {
        assert OriginOk(s.risk, j, s.rows[j].symbol, s.rows[j].notional, s.rows[j].origin);
        assert Key(j.account, j.idem) == j && Key(k.account, k.idem) == k;
      }
      PaidOneByOne(s, keys - {k}, paid - {i});
    }
  }

  /** Over every run: each order outside the kill switch met the caps it was checked against, or owns an applied
      override of that policy version; no override serves two orders; over-cap orders never outnumber applied ones. */
  lemma EveryOrderIsCovered(steps: seq<Step>)
    requires Legal(INIT, steps)
    ensures var s := Run(INIT, steps);
            && (forall k | k in s.rows :: OriginOk(s.risk, k, s.rows[k].symbol, s.rows[k].notional, s.rows[k].origin))
            && (forall j, k | j in OverCapKeys(s) && k in OverCapKeys(s) && j != k ::
                  s.rows[j].origin.override != s.rows[k].origin.override)
            && |OverCapKeys(s)| <= |AppliedOverrides(s)|
  {
    OverrideRun(INIT, steps);
    var s := Run(INIT, steps);
    forall j, k | j in OverCapKeys(s) && k in OverCapKeys(s) && j != k
      ensures s.rows[j].origin.override != s.rows[k].origin.override
    {
      assert OriginOk(s.risk, j, s.rows[j].symbol, s.rows[j].notional, s.rows[j].origin);
      assert OriginOk(s.risk, k, s.rows[k].symbol, s.rows[k].notional, s.rows[k].origin);
      assert Key(j.account, j.idem) == j && Key(k.account, k.idem) == k;
    }
    forall k | k in OverCapKeys(s) ensures s.rows[k].origin.override.value in AppliedOverrides(s) {
      assert OriginOk(s.risk, k, s.rows[k].symbol, s.rows[k].notional, s.rows[k].origin);
    }
    PaidOneByOne(s, OverCapKeys(s), AppliedOverrides(s));
  }

  // ---------- the risk tables in every reachable state ----------

  /** What a step of the order path does to the risk tables, as a step of theirs. */
  function RiskMove(s: State, step: Step): Option<RiskStep>
    requires Enabled(s, step)
  {
    if step.Govern? then Some(step.risk)
    else if step.Prepare? && step.prep.Spend? then
      var t := s.holds[step.account].task;
      Some(Consuming(step.prep.index, t.policy.version, t.draft.key.idem, step.prep.now))
    else None
  }

  lemma RiskOfStep(s: State, step: Step)
    requires Coherent(s) && Enabled(s, step)
    ensures var move := RiskMove(s, step);
            if move.None? then Apply(s, step).risk == s.risk
            else RiskEnabled(s.risk, move.value) && Apply(s, step).risk == RiskApply(s.risk, move.value)
  {
    if step.Settle? {
      assert TaskCoherent(s, step.account, s.holds[step.account].task);
    }
  }

  /** Seen from the risk tables, a run of the order path is a run of theirs. */
  lemma {:induction false} RiskOfRun(s: State, steps: seq<Step>) returns (moves: seq<RiskStep>)
    requires Legal(s, steps)
    ensures RiskLegal(s.risk, moves) && RiskRun(s.risk, moves) == Run(s, steps).risk
    decreases |steps|
  {
    if steps == [] {
      moves := [];
    } else {
      RiskOfStep(s, steps[0]);
      moves := RiskOfRun(Apply(s, steps[0]), steps[1..]);
      var move := RiskMove(s, steps[0]);
      if move.Some? {
        var rest := moves;
        moves := [move.value] + rest;
        assert moves[1..] == rest;
      }
    }
  }

  /** Over every run of the order path a reserved override carries its account's current policy version, versions never
      fall, and a settled override never changes. */
  lemma OverridesStayCurrent(steps: seq<Step>, more: seq<Step>)
    requires Legal(INIT, steps) && Legal(Run(INIT, steps), more)
    ensures var r := Run(INIT, steps).risk; var r' := Run(Run(INIT, steps), more).risk;
            && RiskInv(r) && RiskInv(r')
            && |r.overrides| <= |r'.overrides|
            && (forall i | 0 <= i < |r.overrides| :: OverrideGrows(r.overrides[i], r'.overrides[i]))
            && (forall a: string :: PolicyOf(r, a).version <= PolicyOf(r', a).version)
  {
    var moves := RiskOfRun(INIT, steps);
    RiskHistory(INIT.risk, moves);
    var onward := RiskOfRun(Run(INIT, steps), more);
    RiskHistory(Run(INIT, steps).risk, onward);
  }

  /** In every reachable state: an order over its caps can spend an override if and only if the policy it was weighed
      against is still the current one and the account has any unexpired reserved override at all. */
  lemma SpendExactly(steps: seq<Step>, a: string, now: int)
    requires Legal(INIT, steps) && a in Run(INIT, steps).holds && Run(INIT, steps).holds[a].task.Weighed?
    requires Overridable(VerdictOf(Run(INIT, steps).holds[a].task))
    ensures var s := Run(INIT, steps); var r := s.risk;
            (exists i: nat :: Enabled(s, Prepare(a, Spend(i, now))))
            <==> s.holds[a].task.policy.version == PolicyOf(r, a).version
                 && exists i | 0 <= i < |r.overrides| :: Spendable(r.overrides[i], a, now)
  {
    OverridesStayCurrent(steps, []);
    var s := Run(INIT, steps);
    var version := s.holds[a].task.policy.version;
    assert forall i: nat ::
      Enabled(s, Prepare(a, Spend(i, now))) <==> Eldest(s.risk.overrides, i, a, version, now);
    if version == PolicyOf(s.risk, a).version {
      ConsumeAtCurrentVersion(s.risk, a, now);
    } else {
      StaleVersionFindsNothing(s.risk, a, version, now);
    }
  }
}
