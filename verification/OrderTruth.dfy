/** Rows that say what happened: over every run of the order protocol, exactly when a stored status is what the exchange
    made of the order. */
module OrderTruth {
  import opened Basics
  import opened OrderRules
  import opened OrderProtocol
  import opened OrderSafety

  predicate RowTrue(rows: map<Key, Row>, fates: map<Key, Fate>, k: Key)
    requires k in rows
  {
    StatusTrue(rows[k].report.status, FateOf(fates, k))
  }

  /** Every stored status is true: FILLED orders were filled, other terminal ones were not and never will be. */
  ghost predicate RowsTrue(rows: map<Key, Row>, fates: map<Key, Fate>) {
    forall k | k in rows :: RowTrue(rows, fates, k)
  }

  ghost predicate TellsTruth(s: State) {
    RowsTrue(s.rows, s.fates)
  }

  lemma TruthIsIdle(s: State)
    requires TellsTruth(s)
    ensures TerminalIsIdle(s)
  {
    forall k | k in s.rows && Terminal(s.rows[k].report.status) ensures !Working(s, k) {
      assert RowTrue(s.rows, s.fates, k);
    }
  }

  // ---------- decided, but not yet written ----------

  /** The decided status is true, or it is one of the two that may not be. */
  predicate Justified(s: State, key: Key, report: Report, unverified: bool) {
    var fate := FateOf(s.fates, key);
    || StatusTrue(report.status, fate)
    || (unverified && report.status.Canceled? && fate == Some(Done))
    || Misread(IsOco(s, key), report.status, fate)
  }

  predicate WriteJustified(s: State, a: string) {
    a in s.holds && s.holds[a].task.Writing? ==>
      Justified(s, s.holds[a].task.key, s.holds[a].task.report, s.holds[a].task.unverified)
  }

  ghost predicate PendingJustified(s: State) {
    && (forall a | a in s.holds :: WriteJustified(s, a))
    && (s.fixup.Some? ==> Justified(s, s.fixup.value.0, s.fixup.value.1, false))
  }

  /** What was decided stays justified while the exchange and the table move on. */
  lemma JustifiedKept(s: State, s': State, key: Key, report: Report, unverified: bool)
    requires Justified(s, key, report, unverified) && key in s.rows && key in s'.rows
    requires s'.rows[key].oco == s.rows[key].oco
    requires FateOf(s'.fates, key) == FateOf(s.fates, key) || Working(s, key)
    ensures Justified(s', key, report, unverified)
  {
  }

  lemma JustifiedAfterPrep(s: State, a: string, p: Prep)
    requires Coherent(s) && PendingJustified(s) && PrepEnabled(s, a, p)
    ensures PendingJustified(ApplyPrep(s, a, p))
  {
    var s' := ApplyPrep(s, a, p);
    assert TaskCoherent(s, a, s.holds[a].task);
    RowsGrowPrep(s, a, p);
    forall b | b in s'.holds ensures WriteJustified(s', b) {
      if s'.holds[b].task.Writing? {
        assert b in s.holds && s'.holds[b] == s.holds[b] && WriteJustified(s, b) && TaskCoherent(s, b, s.holds[b].task);
        JustifiedKept(s, s', s.holds[b].task.key, s.holds[b].task.report, s.holds[b].task.unverified);
      }
    }
  }

  /** What one holder decides is justified when its answer is truthful. */
  lemma DecidedIsJustified(s: State, a: string, deal: Deal)
    requires DealEnabled(s, a, deal) && TaskCoherent(s, a, s.holds[a].task) && !deal.Submit?
    ensures WriteJustified(ApplyDeal(s, a, deal), a)
  {
    if deal.CancelAnswered? {
      var key := s.holds[a].task.key;
      CancelTellsTruthExactly(s.rows[key].report, FateOf(s.fates, key), s.rows[key].oco, deal.cancel);
    }
  }

  lemma JustifiedAfterDeal(s: State, a: string, deal: Deal)
    requires Coherent(s) && SentInv(s) && PendingJustified(s) && DealEnabled(s, a, deal)
    requires s.holds[a].task.key in s.rows
    ensures PendingJustified(ApplyDeal(s, a, deal))
  {
    var s' := ApplyDeal(s, a, deal);
    var t := s.holds[a].task;
    assert TaskCoherent(s, a, t) && Unsent(s, a);
    RowsGrowDeal(s, a, deal);
    forall b | b in s'.holds ensures WriteJustified(s', b) {
      if b == a {
        if !deal.Submit? {
          DecidedIsJustified(s, a, deal);
        }
      } else if s'.holds[b].task.Writing? {
        assert b in s.holds && WriteJustified(s, b) && TaskCoherent(s, b, s.holds[b].task);
        JustifiedKept(s, s', s.holds[b].task.key, s.holds[b].task.report, s.holds[b].task.unverified);
      }
    }
  }

  lemma FixupAfterOther(s: State, step: Step)
    requires Coherent(s) && PendingJustified(s) && Enabled(s, step) && !step.Prepare? && !step.Settle?
    requires Apply(s, step).fixup.Some?
    ensures Justified(Apply(s, step), Apply(s, step).fixup.value.0, Apply(s, step).fixup.value.1, false)
  {
    var s' := Apply(s, step);
    RowsGrowStep(s, step);
    if !step.StartupFound? {
      JustifiedKept(s, s', s.fixup.value.0, s.fixup.value.1, false);
    }
  }

  lemma JustifiedAfterOther(s: State, step: Step)
    requires Coherent(s) && PendingJustified(s) && Enabled(s, step) && !step.Prepare? && !step.Settle?
    ensures PendingJustified(Apply(s, step))
  {
    var s' := Apply(s, step);
    if s'.fixup.Some? {
      FixupAfterOther(s, step);
    }
    HoldsAfterOther(s, step);
  }

  lemma HoldsAfterOther(s: State, step: Step)
    requires Coherent(s) && PendingJustified(s) && Enabled(s, step) && !step.Prepare? && !step.Settle?
    ensures forall a | a in Apply(s, step).holds :: WriteJustified(Apply(s, step), a)
  {
    var s' := Apply(s, step);
    RowsGrowStep(s, step);
    forall b | b in s'.holds ensures WriteJustified(s', b) {
      if s'.holds[b].task.Writing? {
        assert b in s.holds && s'.holds[b] == s.holds[b] && WriteJustified(s, b) && TaskCoherent(s, b, s.holds[b].task);
        JustifiedKept(s, s', s.holds[b].task.key, s.holds[b].task.report, s.holds[b].task.unverified);
      }
    }
  }

  lemma JustifiedStep(s: State, step: Step)
    requires Coherent(s) && SentInv(s) && PendingJustified(s) && Enabled(s, step)
    ensures PendingJustified(Apply(s, step))
  {
    match step
    case Prepare(a, p) => JustifiedAfterPrep(s, a, p);
    case Settle(a, deal) =>
      assert TaskCoherent(s, a, s.holds[a].task);
      JustifiedAfterDeal(s, a, deal);
    case _ => JustifiedAfterOther(s, step);
  }

  // ---------- exactly when a row starts to lie ----------

  /** The written result of a cancellation that was not verified, over an order that had been filled; or FILLED for an
      OCO list that ended with neither leg filled. */
  predicate LieWritten(s: State, key: Key, report: Report, unverified: bool) {
    var fate := FateOf(s.fates, key);
    (unverified && report.status.Canceled? && fate == Some(Done)) || Misread(IsOco(s, key), report.status, fate)
  }

  /** The failing steps: those two writes, and the kill switch closing a row without asking when the order was filled or
      still may be. */
  predicate Misstates(s: State, step: Step) {
    match step
    case PaperCancel(key) => FateOf(s.fates, key) == Some(Alive) || FateOf(s.fates, key) == Some(Done)
    case Settle(a, Write) =>
      && a in s.holds && s.holds[a].task.Writing?
      && LieWritten(s, s.holds[a].task.key, s.holds[a].task.report, s.holds[a].task.unverified)
    case StartupWrite => s.fixup.Some? && LieWritten(s, s.fixup.value.0, s.fixup.value.1, false)
    case _ => false
  }

  lemma TruthAfterPrep(s: State, a: string, p: Prep)
    requires Coherent(s) && SentInv(s) && TellsTruth(s) && PrepEnabled(s, a, p)
    ensures TellsTruth(ApplyPrep(s, a, p))
  {
    var s' := ApplyPrep(s, a, p);
    assert TaskCoherent(s, a, s.holds[a].task);
    forall k | k in s'.rows ensures RowTrue(s'.rows, s'.fates, k) {
      assert k in s.rows ==> RowTrue(s.rows, s.fates, k);
    }
  }

  /** One row takes a decided report: the table stays true exactly when that status is. */
  lemma TruthAfterReport(s: State, key: Key, report: Report, s': State)
    requires TellsTruth(s) && key in s.rows
    requires s'.rows == s.rows[key := s.rows[key].(report := report)] && s'.fates == s.fates
    ensures TellsTruth(s') <==> StatusTrue(report.status, FateOf(s.fates, key))
  {
    assert TellsTruth(s') ==> RowTrue(s'.rows, s'.fates, key);
    forall k | k in s'.rows && k != key ensures RowTrue(s'.rows, s'.fates, k) {
      assert RowTrue(s.rows, s.fates, k);
    }
  }

  lemma TruthAfterWrite(s: State, a: string)
    requires Coherent(s) && TellsTruth(s) && PendingJustified(s) && DealEnabled(s, a, Write)
    requires s.holds[a].task.key in s.rows
    ensures TellsTruth(ApplyDeal(s, a, Write)) <==> !Misstates(s, Settle(a, Write))
  {
    var t := s.holds[a].task;
    assert WriteJustified(s, a);
    TruthAfterReport(s, t.key, t.report, ApplyDeal(s, a, Write));
  }

  lemma TruthAfterDeal(s: State, a: string, deal: Deal)
    requires Coherent(s) && TellsTruth(s) && DealEnabled(s, a, deal) && s.holds[a].task.key in s.rows && !deal.Write?
    ensures TellsTruth(ApplyDeal(s, a, deal))
  {
    var s' := ApplyDeal(s, a, deal);
    assert TaskCoherent(s, a, s.holds[a].task);
    forall k | k in s'.rows ensures RowTrue(s'.rows, s'.fates, k) {
      assert RowTrue(s.rows, s.fates, k);
    }
  }

  lemma TruthAfterFinish(s: State, key: Key, fate: Fate)
    requires Coherent(s) && TellsTruth(s) && Enabled(s, Finish(key, fate))
    ensures TellsTruth(Apply(s, Finish(key, fate)))
  {
    var s' := Apply(s, Finish(key, fate));
    forall k | k in s'.rows ensures RowTrue(s'.rows, s'.fates, k) {
      assert RowTrue(s.rows, s.fates, k);
    }
  }

  /** Exactly these steps make the table tell a lie, and they always do. */
  lemma TruthExactly(s: State, step: Step)
    requires Coherent(s) && SentInv(s) && TellsTruth(s) && PendingJustified(s) && Enabled(s, step)
    ensures TellsTruth(Apply(s, step)) <==> !Misstates(s, step)
  {
    match step
    case Prepare(a, p) => TruthAfterPrep(s, a, p);
    case Settle(a, deal) =>
      assert TaskCoherent(s, a, s.holds[a].task);
      if deal.Write? {
        TruthAfterWrite(s, a);
      } else {
        TruthAfterDeal(s, a, deal);
      }
    case PaperCancel(key) =>
      TruthAfterReport(s, key, s.rows[key].report.(status := Canceled), Apply(s, step));
    case StartupWrite => TruthAfterReport(s, s.fixup.value.0, s.fixup.value.1, Apply(s, step));
    case Finish(key, fate) => TruthAfterFinish(s, key, fate);
    case _ =>
  }

  /** The run holds none of the failing steps. */
  ghost predicate NeverMisstates(s: State, steps: seq<Step>)
    requires Legal(s, steps)
    decreases |steps|
  {
    steps == [] || (!Misstates(s, steps[0]) && NeverMisstates(Apply(s, steps[0]), steps[1..]))
  }

  /** The table is true after every step of the run. */
  ghost predicate AlwaysTrue(s: State, steps: seq<Step>)
    requires Legal(s, steps)
    decreases |steps|
  {
    TellsTruth(s) && (steps == [] || AlwaysTrue(Apply(s, steps[0]), steps[1..]))
  }

  lemma {:induction false} TruthRun(s: State, steps: seq<Step>)
    requires Legal(s, steps) && SentInv(s) && TellsTruth(s) && PendingJustified(s)
    ensures AlwaysTrue(s, steps) <==> NeverMisstates(s, steps)
    decreases |steps|
  {
    if steps != [] {
      var s1 := Apply(s, steps[0]);
      TruthExactly(s, steps[0]);
      SentStep(s, steps[0]);
      JustifiedStep(s, steps[0]);
      if TellsTruth(s1) {
        TruthRun(s1, steps[1..]);
      }
    }
  }

  /** From the start, every stored status is true throughout a run if and only if the run never writes an unverified
      cancellation over a filled order, never reads a cancelled OCO as FILLED, and never closes a row without asking
      while its order is open or filled. */
  lemma TruthfulRowsExactly(steps: seq<Step>)
    requires Legal(INIT, steps)
    ensures AlwaysTrue(INIT, steps) <==> NeverMisstates(INIT, steps)
  {
    TruthRun(INIT, steps);
  }

  // ---------- what has happened at the exchange stays ----------

  /** An order that ended stays as it ended. */
  ghost predicate FatesGrow(s: State, s': State) {
    forall k | k in s.fates && !s.fates[k].Alive? :: k in s'.fates && s'.fates[k] == s.fates[k]
  }

  lemma FatesGrowStep(s: State, step: Step)
    requires Coherent(s) && SentInv(s) && Enabled(s, step)
    ensures FatesGrow(s, Apply(s, step))
  {
    if step.Settle? {
      assert TaskCoherent(s, step.account, s.holds[step.account].task) && Unsent(s, step.account);
    }
  }

  lemma {:induction false} FatesGrowRun(s: State, steps: seq<Step>)
    requires Legal(s, steps) && SentInv(s)
    ensures FatesGrow(s, Run(s, steps))
    decreases |steps|
  {
    if steps != [] {
      FatesGrowStep(s, steps[0]);
      SentStep(s, steps[0]);
      FatesGrowRun(Apply(s, steps[0]), steps[1..]);
    }
  }

  /** A row that lies about an ended order goes on lying: the row is final, and so is what happened to the order. */
  lemma LiesStay(s: State, steps: seq<Step>, k: Key)
    requires Legal(s, steps) && SentInv(s) && k in s.rows && !RowTrue(s.rows, s.fates, k)
    requires k in s.fates && !s.fates[k].Alive?
    ensures k in Run(s, steps).rows && !RowTrue(Run(s, steps).rows, Run(s, steps).fates, k)
  {
    RowsGrowRun(s, steps);
    FatesGrowRun(s, steps);
    assert RowGrows(s.rows[k], Run(s, steps).rows[k]);
  }
}
