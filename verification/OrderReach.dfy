/** Reachability in the order protocol by steps of given kinds, and what the absence of a kind keeps. */
module OrderReach {
  import opened OrderRules
  import opened OrderProtocol
  import opened OrderSafety
  import opened OrderTruth
  import opened OrderExposure

  // ---------- kinds of steps ----------

  /** What a step does where it is taken; the lying kinds write a status that is not true. */
  datatype Kind =
    | Opening
    | Moving
    | Spending
    | LyingMove
    | Closing
    | BlindClosing
    | LyingClosing
    | Starting
    | LyingStart
    | Restarting
    | Finishing
    | Governing

  function KindOf(s: State, step: Step): Kind {
    match step
    case PaperCancel(_) =>
      if BlindCancel(s, step) then BlindClosing else if Misstates(s, step) then LyingClosing else Closing
    case Prepare(_, p) => if p.Spend? then Spending else Moving
    case Settle(_, _) => if Misstates(s, step) then LyingMove else Moving
    case Abort(_, _) => Moving
    case StartupFound(_, _) => Starting
    case StartupWrite => if Misstates(s, step) then LyingStart else Starting
    case Crash => Restarting
    case Serve => Restarting
    case Finish(_, _) => Finishing
    case Govern(_) => Governing
    case _ => Opening
  }

  type Kinds = set<Kind>

  const LIES: Kinds := {LyingMove, BlindClosing, LyingClosing, LyingStart}

  const EVERY: Kinds :=
    LIES + {Opening, Moving, Spending, Closing, Starting, Restarting, Finishing, Governing}

  /** Every step of the run is of one of the kinds, where it is taken. */
  ghost predicate OfKinds(s: State, steps: seq<Step>, ks: Kinds)
    requires Legal(s, steps)
    decreases |steps|
  {
    steps == [] || (KindOf(s, steps[0]) in ks && OfKinds(Apply(s, steps[0]), steps[1..], ks))
  }

  ghost predicate Leads(s: State, steps: seq<Step>, ks: Kinds, s': State) {
    Legal(s, steps) && OfKinds(s, steps, ks) && Run(s, steps) == s'
  }

  /** Some run with steps of these kinds only leads from `s` to `s'`. */
  ghost predicate Reaches(s: State, ks: Kinds, s': State) {
    exists steps :: Leads(s, steps, ks, s')
  }

  // ---------- composition ----------

  lemma ReachesSelf(s: State, ks: Kinds)
    requires Coherent(s)
    ensures Reaches(s, ks, s)
  {
    assert Leads(s, [], ks, s);
  }

  lemma {:induction false} KindsConcat(s: State, xs: seq<Step>, ys: seq<Step>, ks: Kinds)
    requires Legal(s, xs) && OfKinds(s, xs, ks) && Legal(Run(s, xs), ys) && OfKinds(Run(s, xs), ys, ks)
    ensures Legal(s, xs + ys) && OfKinds(s, xs + ys, ks)
    decreases |xs|
  {
    RunConcat(s, xs, ys);
    if xs == [] {
      assert xs + ys == ys;
    } else {
      KindsConcat(Apply(s, xs[0]), xs[1..], ys, ks);
      assert (xs + ys)[1..] == xs[1..] + ys;
    }
  }

  lemma {:induction false} KindsGrow(s: State, steps: seq<Step>, ks: Kinds, more: Kinds)
    requires Legal(s, steps) && OfKinds(s, steps, ks) && ks <= more
    ensures OfKinds(s, steps, more)
    decreases |steps|
  {
    if steps != [] {
      KindsGrow(Apply(s, steps[0]), steps[1..], ks, more);
    }
  }

  lemma ReachesOnward(s0: State, s1: State, s2: State, ks: Kinds)
    requires Reaches(s0, ks, s1) && Reaches(s1, ks, s2)
    ensures Reaches(s0, ks, s2)
  {
    var xs :| Leads(s0, xs, ks, s1);
    var ys :| Leads(s1, ys, ks, s2);
    RunConcat(s0, xs, ys);
    KindsConcat(s0, xs, ys, ks);
    assert Leads(s0, xs + ys, ks, s2);
  }

  lemma ReachesMore(s: State, ks: Kinds, more: Kinds, s': State)
    requires Reaches(s, ks, s') && ks <= more
    ensures Reaches(s, more, s')
  {
    var xs :| Leads(s, xs, ks, s');
    KindsGrow(s, xs, ks, more);
    assert Leads(s, xs, more, s');
  }

  lemma OneStep(s: State, step: Step, ks: Kinds)
    requires Coherent(s) && Enabled(s, step) && KindOf(s, step) in ks
    ensures Reaches(s, ks, Apply(s, step))
  {
    var s' := Apply(s, step);
    CoherentStep(s, step);
    RunExtend(s, [], step);
    assert [] + [step] == [step] && [step][1..] == [];
    assert Legal(s', []) && OfKinds(s', [], ks);
    assert Leads(s, [step], ks, Apply(s, step));
  }

  lemma GoStep(s0: State, ks: Kinds, s: State, step: Step)
    requires Reaches(s0, ks, s) && Coherent(s) && Enabled(s, step) && KindOf(s, step) in ks
    ensures Reaches(s0, ks, Apply(s, step))
  {
    OneStep(s, step, ks);
    ReachesOnward(s0, s, Apply(s, step), ks);
  }

  // ---------- what every run keeps ----------

  lemma ReachedCoherent(s0: State, ks: Kinds, s: State)
    requires Reaches(s0, ks, s)
    ensures Coherent(s)
  {
    var xs :| Leads(s0, xs, ks, s);
  }

  lemma ReachedIsSent(s0: State, ks: Kinds, s: State)
    requires Reaches(s0, ks, s) && SentInv(s0)
    ensures SentInv(s)
  {
    var xs :| Leads(s0, xs, ks, s);
    SentRun(s0, xs);
  }

  lemma ReachedGrows(s0: State, ks: Kinds, s: State)
    requires Reaches(s0, ks, s) && SentInv(s0)
    ensures RowsGrow(s0, s) && FatesGrow(s0, s)
  {
    var xs :| Leads(s0, xs, ks, s);
    RowsGrowRun(s0, xs);
    FatesGrowRun(s0, xs);
  }

  lemma LieReached(s0: State, ks: Kinds, s: State, k: Key)
    requires Reaches(s0, ks, s) && SentInv(s0) && k in s0.rows && !RowTrue(s0.rows, s0.fates, k)
    requires k in s0.fates && !s0.fates[k].Alive?
    ensures !TellsTruth(s)
  {
    var xs :| Leads(s0, xs, ks, s);
    LiesStay(s0, xs, k);
  }

  // ---------- what the absence of a kind keeps ----------

  /** Terminal rows are idle, and so are the decided ones. */
  ghost predicate IdleInv(s: State) {
    SentInv(s) && TerminalIsIdle(s) && PendingIsIdle(s)
  }

  lemma {:induction false} NoBlindRun(s: State, steps: seq<Step>, ks: Kinds)
    requires Legal(s, steps) && OfKinds(s, steps, ks) && BlindClosing !in ks && IdleInv(s)
    ensures IdleInv(Run(s, steps)) && NoBlindCancel(s, steps)
    decreases |steps|
  {
    if steps != [] {
      IdleExactly(s, steps[0]);
      SentStep(s, steps[0]);
      PendingStep(s, steps[0]);
      NoBlindRun(Apply(s, steps[0]), steps[1..], ks);
    }
  }

  /** Without a blind cancellation, terminal rows stay idle. */
  lemma KeepsIdle(s: State, ks: Kinds, s': State)
    requires Reaches(s, ks, s') && BlindClosing !in ks && IdleInv(s)
    ensures IdleInv(s')
  {
    var xs :| Leads(s, xs, ks, s');
    NoBlindRun(s, xs, ks);
  }

  /** Every stored status is true, and the decided ones are justified. */
  ghost predicate TruthInv(s: State) {
    SentInv(s) && TellsTruth(s) && PendingJustified(s)
  }

  lemma {:induction false} NoLieRun(s: State, steps: seq<Step>, ks: Kinds)
    requires Legal(s, steps) && OfKinds(s, steps, ks) && ks !! LIES && TruthInv(s)
    ensures TruthInv(Run(s, steps)) && NeverMisstates(s, steps)
    decreases |steps|
  {
    if steps != [] {
      TruthExactly(s, steps[0]);
      SentStep(s, steps[0]);
      JustifiedStep(s, steps[0]);
      NoLieRun(Apply(s, steps[0]), steps[1..], ks);
    }
  }

  /** Without a lying step, stored statuses stay true. */
  lemma KeepsTruth(s: State, ks: Kinds, s': State)
    requires Reaches(s, ks, s') && ks !! LIES && TruthInv(s)
    ensures TruthInv(s')
  {
    var xs :| Leads(s, xs, ks, s');
    NoLieRun(s, xs, ks);
  }

  lemma {:induction false} NoSpendRun(s: State, steps: seq<Step>, ks: Kinds, account: string)
    requires Legal(s, steps) && OfKinds(s, steps, ks) && Spending !in ks && Governing !in ks
    ensures AllKeepCap(steps, account)
    decreases |steps|
  {
    if steps != [] {
      NoSpendRun(Apply(s, steps[0]), steps[1..], ks, account);
      forall i | 0 <= i < |steps| ensures KeepsCap(steps[i], account) {
        assert i > 0 ==> steps[i] == steps[1..][i - 1];
      }
    }
  }

  /** Without a spent override and a changed policy, the counted notional stays within the cap. */
  lemma KeepsCeiling(s: State, ks: Kinds, s': State, account: string, cap: real)
    requires Reaches(s, ks, s') && Spending !in ks && Governing !in ks && CeilingInv(s, account, cap)
    ensures CeilingInv(s', account, cap)
  {
    var xs :| Leads(s, xs, ks, s');
    NoSpendRun(s, xs, ks, account);
    CeilingRun(s, xs, account, cap);
  }

  /** What a run of these kinds keeps: terminal rows idle, stored statuses true, and every account's exposure ceiling. */
  ghost predicate Keeps(s: State, ks: Kinds, s': State) {
    && (BlindClosing !in ks && IdleInv(s) ==> IdleInv(s'))
    && (ks !! LIES && TruthInv(s) ==> TruthInv(s'))
    && (Spending !in ks && Governing !in ks ==>
          forall account, cap | CeilingInv(s, account, cap) :: CeilingInv(s', account, cap))
  }

  lemma ReachedKeeps(s: State, ks: Kinds, s': State)
    requires Reaches(s, ks, s')
    ensures Keeps(s, ks, s')
  {
    if BlindClosing !in ks && IdleInv(s) {
      KeepsIdle(s, ks, s');
    }
    if ks !! LIES && TruthInv(s) {
      KeepsTruth(s, ks, s');
    }
    if Spending !in ks && Governing !in ks {
      forall account, cap | CeilingInv(s, account, cap) ensures CeilingInv(s', account, cap) {
        KeepsCeiling(s, ks, s', account, cap);
      }
    }
  }
}
