/** At-most-once submission, and terminal rows that are final and idle, over every run of the order protocol. */
module OrderSafety {
  import opened Basics
  import opened OrderRules
  import opened OrderProtocol

  // ---------- at most one submission ----------

  predicate Unsent(s: State, a: string) {
    a in s.holds && s.holds[a].task.Inserted? ==> s.holds[a].task.key !in s.sent
  }

  /** No key was sent twice, every sent key has a durable row, and an order about to be sent never was. */
  ghost predicate SentInv(s: State) {
    && Distinct(s.sent)
    && (forall k | k in s.sent :: k in s.rows)
    && (forall k | k in s.fates :: k in s.sent)
    && (forall a | a in s.holds :: Unsent(s, a))
  }

  lemma SentAfterPrep(s: State, a: string, p: Prep)
    requires Coherent(s) && SentInv(s) && PrepEnabled(s, a, p)
    ensures SentInv(ApplyPrep(s, a, p))
  {
    var s' := ApplyPrep(s, a, p);
    assert TaskCoherent(s, a, s.holds[a].task);
    forall b | b in s'.holds ensures Unsent(s', b) {
      assert b in s.holds ==> Unsent(s, b);
    }
  }

  lemma SentAfterDeal(s: State, a: string, deal: Deal)
    requires Coherent(s) && SentInv(s) && DealEnabled(s, a, deal) && s.holds[a].task.key in s.rows
    ensures SentInv(ApplyDeal(s, a, deal))
  {
    var s' := ApplyDeal(s, a, deal);
    assert TaskCoherent(s, a, s.holds[a].task);
    assert Unsent(s, a);
    forall b | b in s'.holds ensures Unsent(s', b) {
      assert b in s.holds && Unsent(s, b) && TaskCoherent(s, b, s.holds[b].task);
    }
  }

  lemma SentAfterOther(s: State, step: Step)
    requires Coherent(s) && SentInv(s) && Enabled(s, step) && !step.Prepare? && !step.Settle?
    ensures SentInv(Apply(s, step))
  {
    var s' := Apply(s, step);
    forall a | a in s'.holds ensures Unsent(s', a) {
      assert a in s.holds ==> Unsent(s, a);
    }
  }

  lemma SentStep(s: State, step: Step)
    requires Coherent(s) && SentInv(s) && Enabled(s, step)
    ensures SentInv(Apply(s, step))
  {
    match step
    case Prepare(a, p) => SentAfterPrep(s, a, p);
    case Settle(a, deal) =>
      assert TaskCoherent(s, a, s.holds[a].task);
      SentAfterDeal(s, a, deal);
    case _ => SentAfterOther(s, step);
  }

  lemma {:induction false} SentRun(s: State, steps: seq<Step>)
    requires SentInv(s) && Legal(s, steps)
    ensures SentInv(Run(s, steps))
    decreases |steps|
  {
    if steps != [] {
      SentStep(s, steps[0]);
      SentRun(Apply(s, steps[0]), steps[1..]);
    }
  }

  /** Over every run the exchange gets at most one submission per (account, idempotency key), each for a stored row. */
  lemma AtMostOneSubmission(steps: seq<Step>)
    requires Legal(INIT, steps)
    ensures Distinct(Run(INIT, steps).sent)
    ensures forall k | k in Run(INIT, steps).sent :: k in Run(INIT, steps).rows
  {
    SentRun(INIT, steps);
  }

  /** Whenever a submission is about to happen its row is already durable, unsettled, and was never sent before. */
  lemma DurableBeforeSubmission(steps: seq<Step>, a: string, accepted: bool)
    requires Legal(INIT, steps) && Enabled(Run(INIT, steps), Settle(a, Submit(accepted)))
    ensures var s := Run(INIT, steps); var k := s.holds[a].task.key;
            && k in s.rows && Uncertain(s.rows[k].report.status) && k !in s.sent
            && Apply(s, Settle(a, Submit(accepted))).sent == s.sent + [k]
  {
    SentRun(INIT, steps);
    var s := Run(INIT, steps);
    assert Unsent(s, a) && TaskCoherent(s, a, s.holds[a].task);
  }

  // ---------- rows are never lost, rewritten or reopened ----------

  /** A row keeps everything but its report, and a terminal row keeps that too. */
  predicate RowGrows(r: Row, r': Row) {
    && r' == r.(report := r'.report)
    && (Terminal(r.report.status) ==> r' == r)
  }

  ghost predicate RowsGrow(s: State, s': State) {
    forall k | k in s.rows :: k in s'.rows && RowGrows(s.rows[k], s'.rows[k])
  }

  lemma RowsGrowPrep(s: State, a: string, p: Prep)
    requires PrepEnabled(s, a, p)
    ensures RowsGrow(s, ApplyPrep(s, a, p))
  {
  }

  lemma RowsGrowDeal(s: State, a: string, deal: Deal)
    requires DealEnabled(s, a, deal) && TaskCoherent(s, a, s.holds[a].task)
    ensures RowsGrow(s, ApplyDeal(s, a, deal))
  {
  }

  lemma RowsGrowStep(s: State, step: Step)
    requires Coherent(s) && Enabled(s, step)
    ensures RowsGrow(s, Apply(s, step))
  {
    match step
    case Prepare(a, p) => RowsGrowPrep(s, a, p);
    case Settle(a, deal) =>
      assert TaskCoherent(s, a, s.holds[a].task);
      RowsGrowDeal(s, a, deal);
    case _ =>
  }

  /** Over every run: no row disappears, its notional and its origin never change, and a terminal row never moves. */
  lemma {:induction false} RowsGrowRun(s: State, steps: seq<Step>)
    requires Legal(s, steps)
    ensures RowsGrow(s, Run(s, steps))
    decreases |steps|
  {
    if steps != [] {
      var s1 := Apply(s, steps[0]);
      RowsGrowStep(s, steps[0]);
      RowsGrowRun(s1, steps[1..]);
      forall k | k in s.rows ensures RowGrows(s.rows[k], Run(s, steps).rows[k]) {
        assert RowGrows(s.rows[k], s1.rows[k]) && RowGrows(s1.rows[k], Run(s1, steps[1..]).rows[k]);
      }
    }
  }

  // ---------- where new rows come from ----------

  lemma NewRowOfPrep(s: State, a: string, p: Prep, k: Key)
    requires PrepEnabled(s, a, p) && k in ApplyPrep(s, a, p).rows && k !in s.rows
    ensures p.Insert? && k == s.holds[a].task.draft.key
    ensures var t := s.holds[a].task;
            ApplyPrep(s, a, p).rows[k] == RowFor(t.draft, t.origin, if t.draft.isReal then New else Paper)
  {
  }

  lemma RowsStayWithoutInsert(s: State, step: Step)
    requires Coherent(s) && Enabled(s, step) && !step.Prepare?
    ensures Apply(s, step).rows.Keys == s.rows.Keys
  {
    if step.Settle? {
      assert TaskCoherent(s, step.account, s.holds[step.account].task);
    }
  }

  /** Only an insert brings a new row, and it is the draft's. */
  lemma NewRowIsInserted(s: State, step: Step, k: Key)
    requires Coherent(s) && Enabled(s, step) && k in Apply(s, step).rows && k !in s.rows
    ensures step.Prepare? && step.prep.Insert? && k == s.holds[step.account].task.draft.key
    ensures var t := s.holds[step.account].task;
            Apply(s, step).rows[k] == RowFor(t.draft, t.origin, if t.draft.isReal then New else Paper)
  {
    if step.Prepare? {
      NewRowOfPrep(s, step.account, step.prep, k);
    } else {
      RowsStayWithoutInsert(s, step);
    }
  }

  // ---------- a terminal row has no open order ----------

  /** The visible claim: no row in a terminal status has an order the exchange may still fill. */
  ghost predicate TerminalIsIdle(s: State) {
    forall k | k in s.rows && Terminal(s.rows[k].report.status) :: !Working(s, k)
  }

  predicate WriteIsIdle(s: State, a: string) {
    (a in s.holds && s.holds[a].task.Writing? && Terminal(s.holds[a].task.report.status))
    ==> !Working(s, s.holds[a].task.key)
  }

  /** The same for the statuses that are decided but not written yet. */
  ghost predicate PendingIsIdle(s: State) {
    && (forall a | a in s.holds :: WriteIsIdle(s, a))
    && (s.fixup.Some? && Terminal(s.fixup.value.1.status) ==> !Working(s, s.fixup.value.0))
  }

  lemma PendingAfterPrep(s: State, a: string, p: Prep)
    requires Coherent(s) && SentInv(s) && PendingIsIdle(s) && PrepEnabled(s, a, p)
    ensures PendingIsIdle(ApplyPrep(s, a, p))
  {
    var s' := ApplyPrep(s, a, p);
    forall b | b in s'.holds ensures WriteIsIdle(s', b) {
      assert b in s.holds ==> WriteIsIdle(s, b);
    }
  }

  lemma PendingAfterDeal(s: State, a: string, deal: Deal)
    requires Coherent(s) && PendingIsIdle(s) && DealEnabled(s, a, deal) && s.holds[a].task.key in s.rows
    ensures PendingIsIdle(ApplyDeal(s, a, deal))
  {
    var s' := ApplyDeal(s, a, deal);
    var t := s.holds[a].task;
    assert TaskCoherent(s, a, t) && WriteIsIdle(s, a);
    if deal.CancelAnswered? {
      CancelSettlesOrReports(s.rows[t.key].report, deal.cancel);
    }
    forall b | b in s'.holds ensures WriteIsIdle(s', b) {
      assert b in s.holds && WriteIsIdle(s, b) && TaskCoherent(s, b, s.holds[b].task);
    }
  }

  lemma PendingAfterOther(s: State, step: Step)
    requires Coherent(s) && PendingIsIdle(s) && Enabled(s, step) && !step.Prepare? && !step.Settle?
    ensures PendingIsIdle(Apply(s, step))
  {
    var s' := Apply(s, step);
    forall b | b in s'.holds ensures WriteIsIdle(s', b) {
      assert b in s.holds ==> WriteIsIdle(s, b);
    }
  }

  lemma PendingStep(s: State, step: Step)
    requires Coherent(s) && SentInv(s) && PendingIsIdle(s) && Enabled(s, step)
    ensures PendingIsIdle(Apply(s, step))
  {
    match step
    case Prepare(a, p) => PendingAfterPrep(s, a, p);
    case Settle(a, deal) =>
      assert TaskCoherent(s, a, s.holds[a].task);
      PendingAfterDeal(s, a, deal);
    case _ => PendingAfterOther(s, step);
  }

  /** The step that closes a row without asking the exchange, on an order the exchange may still fill: the kill
      switch's paper branch over a row that a real account left resting. */
  predicate BlindCancel(s: State, step: Step) {
    step.PaperCancel? && Working(s, step.key)
  }

  lemma IdleAfterPrep(s: State, a: string, p: Prep)
    requires Coherent(s) && SentInv(s) && TerminalIsIdle(s) && PrepEnabled(s, a, p)
    ensures TerminalIsIdle(ApplyPrep(s, a, p))
  {
    assert TaskCoherent(s, a, s.holds[a].task);
  }

  lemma IdleAfterDeal(s: State, a: string, deal: Deal)
    requires Coherent(s) && SentInv(s) && TerminalIsIdle(s) && PendingIsIdle(s)
    requires DealEnabled(s, a, deal) && s.holds[a].task.key in s.rows
    ensures TerminalIsIdle(ApplyDeal(s, a, deal))
  {
    assert TaskCoherent(s, a, s.holds[a].task) && WriteIsIdle(s, a);
  }

  /** Exactly one kind of step breaks the claim, and it always does. */
  lemma IdleExactly(s: State, step: Step)
    requires Coherent(s) && SentInv(s) && TerminalIsIdle(s) && PendingIsIdle(s) && Enabled(s, step)
    ensures TerminalIsIdle(Apply(s, step)) <==> !BlindCancel(s, step)
  {
    match step
    case Prepare(a, p) => IdleAfterPrep(s, a, p);
    case Settle(a, deal) =>
      assert TaskCoherent(s, a, s.holds[a].task);
      IdleAfterDeal(s, a, deal);
    case PaperCancel(key) =>
      var s' := Apply(s, step);
      assert Terminal(s'.rows[key].report.status);
    case _ =>
  }

  /** The run never closes a working order's row blindly. */
  ghost predicate NoBlindCancel(s: State, steps: seq<Step>)
    requires Legal(s, steps)
    decreases |steps|
  {
    steps == [] || (!BlindCancel(s, steps[0]) && NoBlindCancel(Apply(s, steps[0]), steps[1..]))
  }

  /** The claim holds after every step of the run. */
  ghost predicate AlwaysIdle(s: State, steps: seq<Step>)
    requires Legal(s, steps)
    decreases |steps|
  {
    TerminalIsIdle(s) && (steps == [] || AlwaysIdle(Apply(s, steps[0]), steps[1..]))
  }

  lemma {:induction false} IdleRun(s: State, steps: seq<Step>)
    requires Legal(s, steps) && SentInv(s) && TerminalIsIdle(s) && PendingIsIdle(s)
    ensures AlwaysIdle(s, steps) <==> NoBlindCancel(s, steps)
    decreases |steps|
  {
    if steps != [] {
      var s1 := Apply(s, steps[0]);
      IdleExactly(s, steps[0]);
      SentStep(s, steps[0]);
      PendingStep(s, steps[0]);
      if TerminalIsIdle(s1) {
        IdleRun(s1, steps[1..]);
      }
    }
  }

  /** From the start, terminal rows are idle throughout a run if and only if the run holds no blind cancellation. */
  lemma TerminalIdleExactly(steps: seq<Step>)
    requires Legal(INIT, steps)
    ensures AlwaysIdle(INIT, steps) <==> NoBlindCancel(INIT, steps)
  {
    IdleRun(INIT, steps);
  }

  lemma {:induction false} AlwaysIdleAtEnd(s: State, steps: seq<Step>)
    requires Legal(s, steps) && AlwaysIdle(s, steps)
    ensures TerminalIsIdle(Run(s, steps))
    decreases |steps|
  {
    if steps != [] {
      AlwaysIdleAtEnd(Apply(s, steps[0]), steps[1..]);
    }
  }

  /** Hence every order the exchange may still fill has a row that exposure counts. */
  lemma OpenOrdersAreCounted(steps: seq<Step>, key: Key)
    requires Legal(INIT, steps) && NoBlindCancel(INIT, steps)
    requires Working(Run(INIT, steps), key)
    ensures key in Run(INIT, steps).rows && Uncertain(Run(INIT, steps).rows[key].report.status)
  {
    SentRun(INIT, steps);
    TerminalIdleExactly(steps);
    AlwaysIdleAtEnd(INIT, steps);
  }
}
