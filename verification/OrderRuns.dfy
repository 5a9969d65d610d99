/** Every order call of the service is a run of the order protocol, and keeps what such runs keep. */
module OrderRuns {
  import opened Basics
  import opened RiskRules
  import opened OrderRules
  import opened OrderProtocol
  import opened OrderPlacing
  import opened OrderSafety
  import opened OrderTruth
  import opened OrderExposure
  import opened OrderReach
  import opened OrderCalls

  // ---------- the work of one lock holder ----------

  /** The kinds that every call needs. */
  predicate Works(ks: Kinds) {
    {Moving, Finishing} <= ks
  }

  lemma GoPrep(s0: State, ks: Kinds, s: State, a: string, p: Prep)
    requires Reaches(s0, ks, s) && PrepEnabled(s, a, p) && (if p.Spend? then Spending else Moving) in ks
    ensures Reaches(s0, ks, ApplyPrep(s, a, p))
  {
    ReachedCoherent(s0, ks, s);
    GoStep(s0, ks, s, Prepare(a, p));
  }

  lemma GoDeal(s0: State, ks: Kinds, s: State, a: string, deal: Deal)
    requires Reaches(s0, ks, s) && DealEnabled(s, a, deal) && s.holds[a].task.key in s.rows
    requires KindOf(s, Settle(a, deal)) in ks
    ensures Reaches(s0, ks, ApplyDeal(s, a, deal))
  {
    ReachedCoherent(s0, ks, s);
    GoStep(s0, ks, s, Settle(a, deal));
  }

  /** A step that takes a lock, and the work of its holder. */
  ghost predicate Opens(s: State, step: Step, ks: Kinds, s': State) {
    Coherent(s) && Enabled(s, step) && Reaches(Apply(s, step), ks, s')
  }

  lemma OpenedReaches(s: State, step: Step, ks: Kinds, s': State)
    requires Opens(s, step, ks, s')
    ensures Reaches(s, ks + {KindOf(s, step)}, s')
  {
    var more := ks + {KindOf(s, step)};
    OneStep(s, step, more);
    ReachesMore(Apply(s, step), ks, more, s');
    ReachesOnward(s, Apply(s, step), s', more);
  }

  // ---------- the stages of one call ----------

  ghost function AtTask(s: State, a: string, t: Task): State
    requires a in s.holds
  {
    s.(holds := s.holds[a := s.holds[a].(task := t)])
  }

  ghost function Ended(s: State, a: string, reply: Reply): State
    requires a in s.holds
  {
    s.(holds := s.holds - {a}, replies := Deliver(s.replies, s.holds[a].caller, reply))
  }

  /** Only the last stage shows. */
  lemma AtTaskTwice(s: State, a: string, t: Task, t': Task)
    requires a in s.holds
    ensures AtTask(AtTask(s, a, t), a, t') == AtTask(s, a, t')
    ensures forall reply :: Ended(AtTask(s, a, t), a, reply) == Ended(s, a, reply)
  {
    assert s.holds[a := s.holds[a].(task := t)] - {a} == s.holds - {a};
  }

  lemma AcquiredThen(s: State, a: string, caller: Option<string>, t: Task, t': Task)
    ensures AtTask(Acquire(s, a, caller, t), a, t') == Acquire(s, a, caller, t')
  {
    assert s.holds[a := Hold(caller, t)][a := Hold(caller, t')] == s.holds[a := Hold(caller, t')];
  }

  lemma GoHalt(s0: State, ks: Kinds, s: State, a: string, h: Halt)
    requires Works(ks)
    requires Reaches(s0, ks, s) && a in s.holds && (h.Raised? ==> !HasRow(s.holds[a].task))
    ensures Reaches(s0, ks, Ended(s, a, HaltReply(h)))
  {
    ReachedCoherent(s0, ks, s);
    GoStep(s0, ks, s, Abort(a, if h.Raised? then Some(h.code) else None));
  }

  /** An override is spent only where spending is allowed. */
  predicate FitsKinds(cleared: Result<Origin>, ks: Kinds) {
    cleared.Ok? && cleared.value.Checked? && cleared.value.override.Some? ==> Spending in ks
  }

  /** Where the caps leave a drafted order: cleared, or refused. */
  ghost function Ruled(s: State, d: Draft, cleared: Result<Origin>, r': Risk): State
    requires d.key.account in s.holds
  {
    if cleared.Ok? then AtTask(s, d.key.account, Cleared(d, cleared.value)).(risk := r')
    else Ended(s, d.key.account, Refusal(cleared.error))
  }

  lemma GoRead(s0: State, ks: Kinds, s: State, d: Draft)
    requires Works(ks)
    requires Reaches(s0, ks, s) && d.key.account in s.holds && s.holds[d.key.account].task == Drafted(d)
    ensures var a := d.key.account;
            Reaches(s0, ks, AtTask(s, a, TotalRead(d, PolicyOf(s.risk, a), OpenTotal(s.rows, a))))
  {
    var a := d.key.account;
    var policy := PolicyOf(s.risk, a);
    GoPrep(s0, ks, s, a, ReadPolicy);
    var s1 := AtTask(s, a, PolicyRead(d, policy));
    GoPrep(s0, ks, s1, a, ReadTotal);
    AtTaskTwice(s, a, PolicyRead(d, policy), TotalRead(d, policy, OpenTotal(s.rows, a)));
  }

  lemma GoJudge(s0: State, ks: Kinds, s: State, d: Draft, policy: Policy, after: real, now: int,
                cleared: Result<Origin>, r': Risk)
    requires Works(ks) && FitsKinds(cleared, ks)
    requires Reaches(s0, ks, s)
    requires d.key.account in s.holds && s.holds[d.key.account].task == Weighed(d, policy, after)
    requires JudgedTo(s.risk, d, policy, after, now, cleared, r')
    ensures Reaches(s0, ks, Ruled(s, d, cleared, r')) && (cleared.Err? ==> r' == s.risk)
  {
    var a := d.key.account;
    if cleared.Err? {
      GoHalt(s0, ks, s, a, Raised(cleared.error));
    } else if cleared.value.override.Some? {
      GoPrep(s0, ks, s, a, Spend(cleared.value.override.value, now));
    } else {
      GoPrep(s0, ks, s, a, Clear);
    }
  }

  lemma GoHoldings(s0: State, ks: Kinds, s: State, d: Draft, policy: Policy, open: real, held: real)
    requires Works(ks)
    requires d.key.account in s.holds && held >= 0.0
    requires Reaches(s0, ks, AtTask(s, d.key.account, TotalRead(d, policy, open)))
    ensures Reaches(s0, ks, AtTask(s, d.key.account, Weighed(d, policy, open + held + d.notional)))
  {
    var a := d.key.account;
    var t := TotalRead(d, policy, open);
    GoPrep(s0, ks, AtTask(s, a, t), a, ReadHoldings(held));
    AtTaskTwice(s, a, t, Weighed(d, policy, open + held + d.notional));
  }

  lemma GoWeigh(s0: State, ks: Kinds, s: State, d: Draft, policy: Policy, open: real, held: real, after: real,
                now: int, cleared: Result<Origin>, r': Risk)
    requires Works(ks) && FitsKinds(cleared, ks)
    requires d.key.account in s.holds && held >= 0.0 && after == open + held + d.notional
    requires Reaches(s0, ks, AtTask(s, d.key.account, TotalRead(d, policy, open)))
    requires JudgedTo(s.risk, d, policy, after, now, cleared, r')
    ensures Reaches(s0, ks, Ruled(s, d, cleared, r')) && (cleared.Err? ==> r' == s.risk)
  {
    var t := Weighed(d, policy, after);
    GoHoldings(s0, ks, s, d, policy, open, held);
    GoJudge(s0, ks, AtTask(s, d.key.account, t), d, policy, after, now, cleared, r');
    RuledFromTask(s, d, t, cleared, r');
  }

  lemma GoStale(s0: State, ks: Kinds, s: State, d: Draft, t: Task, r': Risk)
    requires Works(ks)
    requires d.key.account in s.holds && !HasRow(t) && r' == s.risk
    requires Reaches(s0, ks, AtTask(s, d.key.account, t))
    ensures Reaches(s0, ks, Ruled(s, d, Err(StaleData), r'))
  {
    var a := d.key.account;
    GoHalt(s0, ks, AtTask(s, a, t), a, Raised(StaleData));
    AtTaskTwice(s, a, t, t);
  }

  lemma GoPriced(s0: State, ks: Kinds, s: State, d: Draft, held: real, after: real, now: int,
                 cleared: Result<Origin>, r': Risk)
    requires Works(ks) && FitsKinds(cleared, ks)
    requires Reaches(s0, ks, s) && d.key.account in s.holds && s.holds[d.key.account].task == Drafted(d)
    requires held >= 0.0 && after == OpenTotal(s.rows, d.key.account) + held + d.notional
    requires JudgedTo(s.risk, d, PolicyOf(s.risk, d.key.account), after, now, cleared, r')
    ensures Reaches(s0, ks, Ruled(s, d, cleared, r')) && (cleared.Err? ==> r' == s.risk)
  {
    var a := d.key.account;
    GoRead(s0, ks, s, d);
    GoWeigh(s0, ks, s, d, PolicyOf(s.risk, a), OpenTotal(s.rows, a), held, after, now, cleared, r');
  }

  lemma GoCaps(s0: State, ks: Kinds, s: State, d: Draft, w: World, cleared: Result<Origin>, r': Risk)
    requires Works(ks) && FitsKinds(cleared, ks)
    requires Reaches(s0, ks, s) && d.key.account in s.holds && s.holds[d.key.account].task == Drafted(d)
    requires NonNegative(w.balances) && CapsOutcome(s.rows, s.risk, d, w, cleared, r')
    ensures Reaches(s0, ks, Ruled(s, d, cleared, r')) && (cleared.Err? ==> r' == s.risk)
  {
    var a := d.key.account;
    if Priced(w.balances) {
      HeldIsNonNegative(w.balances);
      var held := HeldValue(w.balances);
      GoPriced(s0, ks, s, d, held, OpenTotal(s.rows, a) + held + d.notional, w.now, cleared, r');
    } else {
      GoRead(s0, ks, s, d);
      GoStale(s0, ks, s, d, TotalRead(d, PolicyOf(s.risk, a), OpenTotal(s.rows, a)), r');
    }
  }

  lemma RuledFromTask(s: State, d: Draft, t: Task, cleared: Result<Origin>, r': Risk)
    requires d.key.account in s.holds
    ensures Ruled(AtTask(s, d.key.account, t), d, cleared, r') == Ruled(s, d, cleared, r')
  {
    AtTaskTwice(s, d.key.account, t, if cleared.Ok? then Cleared(d, cleared.value) else t);
  }

  /** The exchange takes the order or not, and may finish it before it answers. */
  ghost function Submitted(s: State, d: Draft, p: Placement): State
    requires d.key.account in s.holds
  {
    AtTask(s, d.key.account, Sent(d.key)).(sent := s.sent + [d.key],
                                           fates := if p.fate.Some? then s.fates[d.key := p.fate.value] else s.fates)
  }

  lemma GoFinish(s0: State, ks: Kinds, s: State, key: Key, fate: Fate)
    requires Works(ks) && Reaches(s0, ks, s.(fates := s.fates[key := Alive])) && !fate.Alive?
    ensures Reaches(s0, ks, s.(fates := s.fates[key := fate]))
  {
    var s1 := s.(fates := s.fates[key := Alive]);
    ReachedCoherent(s0, ks, s1);
    GoStep(s0, ks, s1, Finish(key, fate));
    assert s1.fates[key := fate] == s.fates[key := fate];
  }

  lemma GoSubmit(s0: State, ks: Kinds, s: State, d: Draft, p: Placement)
    requires Works(ks) && Reaches(s0, ks, s) && d.key in s.rows
    requires d.key.account in s.holds && s.holds[d.key.account].task == Inserted(d.key)
    ensures Reaches(s0, ks, Submitted(s, d, p))
  {
    GoDeal(s0, ks, s, d.key.account, Submit(p.fate.Some?));
    if p.fate.Some? && !p.fate.value.Alive? {
      GoFinish(s0, ks, Submitted(s, d, p).(fates := s.fates), d.key, p.fate.value);
    }
  }

  lemma GoAnswer(s0: State, ks: Kinds, s: State, d: Draft, p: Placement)
    requires Works(ks) && Reaches(s0, ks, s)
    requires d.key.account in s.holds && s.holds[d.key.account].task == Sent(d.key)
    requires d.key in s.rows && s.rows[d.key].report == FRESH && s.rows[d.key].oco == d.oco
    requires FateOf(s.fates, d.key) == p.fate && TruthfulPlacement(d.oco, p) && !p.dies
    ensures Reaches(s0, ks, AtTask(s, d.key.account, Writing(d.key, PlacedReport(true, p), false)))
  {
    var a := d.key.account;
    GoDeal(s0, ks, s, a, Answer(p.answer));
    if p.answer.NoAnswer? {
      GoDeal(s0, ks, AtTask(s, a, TimedOut(d.key)), a, Found(p.found));
      AtTaskTwice(s, a, TimedOut(d.key), Writing(d.key, PlacedReport(true, p), false));
    }
  }

  /** The row carries the report, the lock is free and the caller has it too. */
  ghost function Recorded(s: State, a: string, key: Key, report: Report): State
    requires a in s.holds && key in s.rows
  {
    SetReport(Ended(s, a, RowReply(key, report)), key, report)
  }

  lemma GoWrite(s0: State, ks: Kinds, s: State, a: string, key: Key, report: Report, unverified: bool)
    requires Works(ks) && (LieWritten(s, key, report, unverified) ==> LyingMove in ks)
    requires a in s.holds && key in s.rows && Reaches(s0, ks, AtTask(s, a, Writing(key, report, unverified)))
    ensures Reaches(s0, ks, Recorded(s, a, key, report))
  {
    var t := Writing(key, report, unverified);
    GoDeal(s0, ks, AtTask(s, a, t), a, Write);
    AtTaskTwice(s, a, t, t);
  }

  /** What a whole call leaves of the state it started from; an outsider's reply goes nowhere. */
  ghost predicate CallEnds(s: State, s': State, rows': map<Key, Row>, r': Risk, caller: Option<string>, reply: Reply) {
    && s'.rows == rows' && s'.risk == r'
    && s'.holds == s.holds && s'.serving == s.serving && s'.fixup == s.fixup
    && s'.replies == Deliver(s.replies, caller, reply)
  }

  /** `s` is `idle` with the account's lock taken. */
  ghost predicate Taken(idle: State, s: State, a: string, caller: Option<string>, t: Task) {
    a !in idle.holds && s == idle.(holds := idle.holds[a := Hold(caller, t)])
  }

  lemma EndedIsIdle(idle: State, s: State, a: string, caller: Option<string>, t: Task, reply: Reply)
    requires Taken(idle, s, a, caller, t)
    ensures Ended(s, a, reply) == idle.(replies := Deliver(idle.replies, caller, reply))
  {
    assert idle.holds[a := Hold(caller, t)] - {a} == idle.holds;
  }

  /** The state in which the broker is called. */
  ghost function WithRow(idle: State, d: Draft, origin: Origin, caller: Option<string>): State {
    idle.(rows := idle.rows[d.key := RowFor(d, origin, New)],
          holds := idle.holds[d.key.account := Hold(caller, Inserted(d.key))])
  }

  lemma GoInsert(s0: State, ks: Kinds, s: State, d: Draft, origin: Origin, caller: Option<string>, idle: State)
    requires Works(ks) && Reaches(s0, ks, s) && d.key !in s.rows && d.isReal
    requires Taken(idle, s, d.key.account, caller, Cleared(d, origin))
    ensures Reaches(s0, ks, WithRow(idle, d, origin, caller))
  {
    GoPrep(s0, ks, s, d.key.account, Insert);
    assert ApplyPrep(s, d.key.account, Insert).holds == WithRow(idle, d, origin, caller).holds;
  }

  /** What is left of `idle` when a cleared order is done with. */
  ghost predicate PlacingEnds(idle: State, s': State, d: Draft, origin: Origin, p: Placement, caller: Option<string>) {
    && CallEnds(idle, s', PlacedRows(idle.rows, d, origin, p), idle.risk, caller, PlacedReply(d, p))
    && s'.fates == PlacedFates(idle.fates, d, p)
  }

  lemma GoPaper(s0: State, ks: Kinds, s: State, d: Draft, origin: Origin, p: Placement, caller: Option<string>,
                idle: State) returns (s': State)
    requires Works(ks) && Reaches(s0, ks, s) && d.key !in s.rows && !d.isReal && p.stop.None?
    requires Taken(idle, s, d.key.account, caller, Cleared(d, origin))
    ensures Reaches(s0, ks, s') && PlacingEnds(idle, s', d, origin, p, caller)
  {
    GoPrep(s0, ks, s, d.key.account, Insert);
    s' := ApplyPrep(s, d.key.account, Insert);
    assert s'.holds == idle.holds;
  }

  lemma DeathEnds(s: State, d: Draft, origin: Origin, p: Placement, caller: Option<string>, idle: State)
    requires d.key.account !in idle.holds && s == WithRow(idle, d, origin, caller)
    requires d.isReal && p.stop.None? && p.dies
    ensures PlacingEnds(idle, Ended(Submitted(s, d, p), d.key.account, Failure), d, origin, p, caller)
  {
    assert Ended(Submitted(s, d, p), d.key.account, Failure).holds == idle.holds;
  }

  /** An error after the insert: the row stays NEW, whether the exchange has the order or not. */
  lemma GoDeath(s0: State, ks: Kinds, s: State, d: Draft, origin: Origin, p: Placement, caller: Option<string>,
                idle: State) returns (s': State)
    requires d.key.account !in idle.holds && s == WithRow(idle, d, origin, caller) && Works(ks) && Reaches(s0, ks, s)
    requires d.isReal && p.stop.None? && p.dies
    ensures Reaches(s0, ks, s') && PlacingEnds(idle, s', d, origin, p, caller)
  {
    GoSubmit(s0, ks, s, d, p);
    GoHalt(s0, ks, Submitted(s, d, p), d.key.account, Died);
    s' := Ended(Submitted(s, d, p), d.key.account, Failure);
    DeathEnds(s, d, origin, p, caller, idle);
  }

  lemma GoReal(s0: State, ks: Kinds, s: State, d: Draft, origin: Origin, p: Placement, caller: Option<string>,
               idle: State) returns (s': State)
    requires Works(ks) && (PlacementMisreads(d, p) ==> LyingMove in ks)
    requires Reaches(s0, ks, s) && d.key !in s.rows && d.isReal && d.key !in s.fates && p.stop.None?
    requires Taken(idle, s, d.key.account, caller, Cleared(d, origin))
    requires TruthfulPlacement(d.oco, p) && (caller.Some? ==> !d.oco)
    ensures Reaches(s0, ks, s') && PlacingEnds(idle, s', d, origin, p, caller)
  {
    var a := d.key.account;
    GoInsert(s0, ks, s, d, origin, caller, idle);
    var s1 := WithRow(idle, d, origin, caller);
    if p.dies {
      s' := GoDeath(s0, ks, s1, d, origin, p, caller, idle);
    } else {
      GoSubmit(s0, ks, s1, d, p);
      var s2 := Submitted(s1, d, p);
      GoAnswer(s0, ks, s2, d, p);
      GoWrite(s0, ks, s2, a, d.key, PlacedReport(true, p), false);
      s' := Recorded(s2, a, d.key, PlacedReport(true, p));
      RecordedEnds(s1, d, p, origin, caller, idle);
    }
  }

  lemma RecordedEnds(s1: State, d: Draft, p: Placement, origin: Origin, caller: Option<string>, idle: State)
    requires d.key.account !in idle.holds && s1 == WithRow(idle, d, origin, caller)
    requires d.isReal && p.stop.None? && !p.dies && (caller.Some? ==> !d.oco)
    ensures PlacingEnds(idle, Recorded(Submitted(s1, d, p), d.key.account, d.key, PlacedReport(true, p)),
                        d, origin, p, caller)
  {
    var s' := Recorded(Submitted(s1, d, p), d.key.account, d.key, PlacedReport(true, p));
    assert s'.holds == idle.holds;
    assert s'.rows == PlacedRows(idle.rows, d, origin, p);
  }

  /** Whatever becomes of a cleared order, the lock holder's steps bring it about. */
  lemma ClearedWorks(s0: State, ks: Kinds, idle: State, d: Draft, origin: Origin, p: Placement, caller: Option<string>)
      returns (s': State)
    requires Works(ks) && (PlacementMisreads(d, p) ==> LyingMove in ks)
    requires d.key.account !in idle.holds && d.key !in idle.rows && d.key !in idle.fates
    requires Reaches(s0, ks, Acquire(idle, d.key.account, caller, Cleared(d, origin)))
    requires TruthfulPlacement(d.oco, p) && (caller.Some? ==> !d.oco)
    ensures Reaches(s0, ks, s') && PlacingEnds(idle, s', d, origin, p, caller)
  {
    var a := d.key.account;
    var s := Acquire(idle, a, caller, Cleared(d, origin));
    if p.stop.Some? {
      GoHalt(s0, ks, s, a, p.stop.value);
      EndedIsIdle(idle, s, a, caller, Cleared(d, origin), HaltReply(p.stop.value));
      s' := Ended(s, a, HaltReply(p.stop.value));
    } else if d.isReal {
      s' := GoReal(s0, ks, s, d, origin, p, caller, idle);
    } else {
      s' := GoPaper(s0, ks, s, d, origin, p, caller, idle);
    }
  }

  // ---------- one order call ----------

  /** The step that starts an order call. */
  function OpeningStep(s: State, d: Draft, caller: Option<string>): Step {
    if d.key in s.rows then BeginExisting(d.key, d.isReal, caller) else Begin(d, caller)
  }

  /** The broker's answers about the order are truthful at the moment they are given, and only calls from outside place
      OCO orders. */
  ghost predicate WorldFits(s: State, d: Draft, w: World, caller: Option<string>) {
    && NonNegative(w.balances)
    && (d.key in s.rows && !w.placement.dies ==> TruthfulFound(s, d.key, w.placement.found))
    && (d.key !in s.rows ==> TruthfulPlacement(d.oco, w.placement) && (caller.Some? ==> !d.oco))
  }

  /** A retry reads a cancelled OCO as FILLED. */
  predicate RetryMisreads(s: State, key: Key, isReal: bool, p: Placement) {
    && key in s.rows && Asked(s.rows[key].report, isReal) && !p.dies && p.found.Some?
    && Misread(s.rows[key].oco, p.found.value.status, FateOf(s.fates, key))
  }

  /** The call writes FILLED for an OCO that ended unfilled. */
  predicate CallMisreads(s: State, d: Draft, w: World, rows': map<Key, Row>) {
    if d.key in s.rows then RetryMisreads(s, d.key, d.isReal, w.placement)
    else d.key in rows' && PlacementMisreads(d, w.placement)
  }

  /** The exchange's side after the call: a recorded order is as the exchange left it. */
  function CallFates(s: State, d: Draft, w: World, rows': map<Key, Row>): map<Key, Fate> {
    if d.key !in s.rows && d.key in rows' then PlacedFates(s.fates, d, w.placement) else s.fates
  }

  /** The kinds of steps an order call is made of once it has the lock. */
  function CallKinds(s: State, d: Draft, w: World, rows': map<Key, Row>, r': Risk): Kinds {
    {Moving, Finishing} + (if r' == s.risk then {} else {Spending})
      + (if CallMisreads(s, d, w, rows') then {LyingMove} else {})
  }

  lemma LookupWorks(s: State, ks: Kinds, key: Key, p: Placement, caller: Option<string>) returns (s': State)
    requires Works(ks) && (RetryMisreads(s, key, true, p) ==> LyingMove in ks)
    requires Coherent(s) && Free(s, key.account) && key in s.rows && (!p.dies ==> TruthfulFound(s, key, p.found))
    requires Asked(s.rows[key].report, true)
    ensures Reaches(Acquire(s, key.account, caller, Lookup(key)), ks, s') && s'.fates == s.fates
    ensures var stored := s.rows[key].report;
            CallEnds(s, s', s.rows[key := s.rows[key].(report := RetriedReport(stored, true, p))], s.risk, caller,
                     RetriedReply(key, stored, true, p))
  {
    var a, stored := key.account, s.rows[key].report;
    var s1 := Acquire(s, a, caller, Lookup(key));
    CoherentStep(s, BeginExisting(key, true, caller));
    ReachesSelf(s1, ks);
    assert s.rows[key := s.rows[key].(report := stored)] == s.rows;
    if p.dies {
      GoHalt(s1, ks, s1, a, Died);
      s' := Ended(s1, a, Failure);
      EndedIsIdle(s, s1, a, caller, Lookup(key), Failure);
    } else {
      GoDeal(s1, ks, s1, a, Found(p.found));
      if p.found.Some? {
        GoWrite(s1, ks, s1, a, key, p.found.value, false);
        s' := Recorded(s1, a, key, p.found.value);
        EndedIsIdle(s, s1, a, caller, Lookup(key), RowReply(key, p.found.value));
      } else {
        s' := Ended(s1, a, RowReply(key, stored));
        EndedIsIdle(s, s1, a, caller, Lookup(key), RowReply(key, stored));
      }
    }
  }

  lemma RetryWorks(s: State, ks: Kinds, d: Draft, w: World, caller: Option<string>) returns (s': State)
    requires Works(ks) && (RetryMisreads(s, d.key, d.isReal, w.placement) ==> LyingMove in ks)
    requires Coherent(s) && Free(s, d.key.account) && d.key in s.rows && WorldFits(s, d, w, caller)
    ensures Opens(s, OpeningStep(s, d, caller), ks, s')
    ensures var stored := s.rows[d.key].report;
            CallEnds(s, s', s.rows[d.key := s.rows[d.key].(report := RetriedReport(stored, d.isReal, w.placement))],
                     s.risk, caller, RetriedReply(d.key, stored, d.isReal, w.placement))
    ensures s'.fates == s.fates
  {
    if Asked(s.rows[d.key].report, d.isReal) {
      s' := LookupWorks(s, ks, d.key, w.placement, caller);
    } else {
      s' := Apply(s, OpeningStep(s, d, caller));
      CoherentStep(s, OpeningStep(s, d, caller));
      ReachesSelf(s', ks);
      assert s.rows[d.key := s.rows[d.key].(report := s.rows[d.key].report)] == s.rows;
    }
  }

  lemma FreshWorks(s: State, ks: Kinds, d: Draft, w: World, caller: Option<string>, cleared: Result<Origin>,
                   rows': map<Key, Row>, r': Risk, reply: Reply) returns (s': State)
    requires Works(ks) && FitsKinds(cleared, ks)
    requires d.key in rows' && PlacementMisreads(d, w.placement) ==> LyingMove in ks
    requires Coherent(s) && SentInv(s) && Free(s, d.key.account) && Doable(d) && WorldFits(s, d, w, caller)
    requires d.key !in s.rows
    requires CapsOutcome(s.rows, s.risk, d, w, cleared, r') && ClearedOutcome(s.rows, d, w, cleared, rows', reply)
    ensures Opens(s, OpeningStep(s, d, caller), ks, s') && CallEnds(s, s', rows', r', caller, reply)
    ensures s'.fates == CallFates(s, d, w, rows')
  {
    var a := d.key.account;
    CoherentStep(s, Begin(d, caller));
    var s1 := Acquire(s, a, caller, Drafted(d));
    ReachesSelf(s1, ks);
    GoCaps(s1, ks, s1, d, w, cleared, r');
    if cleared.Err? {
      s' := Ended(s1, a, reply);
      EndedIsIdle(s, s1, a, caller, Drafted(d), reply);
    } else {
      AcquiredThen(s, a, caller, Drafted(d), Cleared(d, cleared.value));
      s' := ClearedWorks(s1, ks, s.(risk := r'), d, cleared.value, w.placement, caller);
    }
  }

  lemma PreflightWorks(s: State, ks: Kinds, d: Draft, caller: Option<string>, h: Halt) returns (s': State)
    requires Works(ks) && Coherent(s) && Free(s, d.key.account) && Doable(d) && d.key !in s.rows
    ensures Opens(s, OpeningStep(s, d, caller), ks, s') && CallEnds(s, s', s.rows, s.risk, caller, HaltReply(h))
    ensures s'.fates == s.fates
  {
    var a := d.key.account;
    CoherentStep(s, Begin(d, caller));
    var s1 := Acquire(s, a, caller, Drafted(d));
    ReachesSelf(s1, ks);
    GoHalt(s1, ks, s1, a, h);
    s' := Ended(s1, a, HaltReply(h));
    EndedIsIdle(s, s1, a, caller, Drafted(d), HaltReply(h));
  }

  /** Spending an override shows in the risk tables. */
  lemma SpendingShows(rows: map<Key, Row>, r: Risk, d: Draft, w: World, cleared: Result<Origin>, r': Risk)
    requires CapsOutcome(rows, r, d, w, cleared, r')
    requires cleared.Ok? && cleared.value.Checked? && cleared.value.override.Some?
    ensures r' != r
  {
    var i := cleared.value.override.value;
    assert r.overrides[i].state == Reserved && r'.overrides[i].state.Applied?;
  }

  /** Whatever one order call does to the tables, and whatever it answers, is a run of the protocol: it takes the lock,
      spends an override only if the risk tables show it, and writes nothing untrue unless it misreads an OCO. */
  lemma ExecuteIsARun(s: State, d: Draft, w: World, caller: Option<string>,
                      rows': map<Key, Row>, r': Risk, reply: Reply) returns (s': State)
    requires Coherent(s) && SentInv(s) && Free(s, d.key.account) && Doable(d) && WorldFits(s, d, w, caller)
    requires ExecuteOutcome(s.rows, s.risk, d, w, rows', r', reply)
    ensures Opens(s, OpeningStep(s, d, caller), CallKinds(s, d, w, rows', r'), s')
    ensures CallEnds(s, s', rows', r', caller, reply) && s'.fates == CallFates(s, d, w, rows')
  {
    var ks := CallKinds(s, d, w, rows', r');
    if d.key in s.rows {
      s' := RetryWorks(s, ks, d, w, caller);
    } else if w.preflight.Some? {
      s' := PreflightWorks(s, ks, d, caller, w.preflight.value);
    } else {
      var cleared :|
        CapsOutcome(s.rows, s.risk, d, w, cleared, r') && ClearedOutcome(s.rows, d, w, cleared, rows', reply);
      if !FitsKinds(cleared, ks) {
        SpendingShows(s.rows, s.risk, d, w, cleared, r');
      }
      s' := FreshWorks(s, ks, d, w, caller, cleared, rows', r', reply);
    }
  }

  lemma KindsOfCall(s: State, d: Draft, w: World, rows': map<Key, Row>, r': Risk)
    ensures var ks := CallKinds(s, d, w, rows', r') + {Opening};
            && BlindClosing !in ks && Governing !in ks
            && (Spending in ks <==> r' != s.risk)
            && (ks !! LIES <==> !CallMisreads(s, d, w, rows'))
  {
    assert LyingMove in LIES;
  }

  /** A misread OCO leaves a row that lies. */
  lemma MisreadShows(s: State, d: Draft, w: World, rows': map<Key, Row>, r': Risk, reply: Reply)
    requires ExecuteOutcome(s.rows, s.risk, d, w, rows', r', reply) && CallMisreads(s, d, w, rows')
    ensures d.key in rows' && !RowTrue(rows', CallFates(s, d, w, rows'), d.key)
  {
  }

  /** What an order call keeps: terminal rows idle, the exposure ceiling of every account unless it spends an override,
      and stored statuses true if and only if it misreads no OCO. */
  lemma ExecuteKeeps(s: State, d: Draft, w: World, caller: Option<string>, rows': map<Key, Row>, r': Risk, reply: Reply)
      returns (s': State)
    requires Coherent(s) && SentInv(s) && Free(s, d.key.account) && Doable(d) && WorldFits(s, d, w, caller)
    requires ExecuteOutcome(s.rows, s.risk, d, w, rows', r', reply)
    ensures Coherent(s') && SentInv(s') && CallEnds(s, s', rows', r', caller, reply)
    ensures IdleInv(s) ==> IdleInv(s')
    ensures r' == s.risk ==> forall account, cap | CeilingInv(s, account, cap) :: CeilingInv(s', account, cap)
    ensures TruthInv(s) ==> (TruthInv(s') <==> !CallMisreads(s, d, w, rows'))
  {
    s' := ExecuteIsARun(s, d, w, caller, rows', r', reply);
    OpenedReaches(s, OpeningStep(s, d, caller), CallKinds(s, d, w, rows', r'), s');
    var ks := CallKinds(s, d, w, rows', r') + {Opening};
    KindsOfCall(s, d, w, rows', r');
    ReachedKeeps(s, ks, s');
    ReachedCoherent(s, ks, s');
    ReachedIsSent(s, ks, s');
    if CallMisreads(s, d, w, rows') {
      MisreadShows(s, d, w, rows', r', reply);
    }
  }
}
