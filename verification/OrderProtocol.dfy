/** The order path of `storage/orders.py` as a state machine: one step for every durable write, broker call, broker
    answer and interleaving point, with crashes, restarts and an exchange that moves on its own. */
module OrderProtocol {
  import opened Basics
  import opened RiskRules
  import opened OrderRules

  // ---------- state ----------

  /** A request that passed its preflight; `isReal` is the caller's snapshot of the account mode and may be stale. */
  datatype Draft = Draft(
    key: Key,
    symbol: string,
    side: Side,
    oco: bool,
    quantity: real,
    notional: real,
    isReal: bool)

  /** Where the holder of an account lock stands. */
  datatype Task =
    | Drafted(draft: Draft)
    | PolicyRead(draft: Draft, policy: Policy)
    | TotalRead(draft: Draft, policy: Policy, open: real)
    | Weighed(draft: Draft, policy: Policy, after: real)
    | Cleared(draft: Draft, origin: Origin)
    | Inserted(key: Key)
    | Sent(key: Key)
    | TimedOut(key: Key)
    | Lookup(key: Key)
    | Cancelling(key: Key)
    | Writing(key: Key, report: Report, unverified: bool)

  /** A lock holder, and the pending order whose approval it serves, if any. */
  datatype Hold = Hold(caller: Option<string>, task: Task)

  /** What a call hands back to an approval handler. */
  datatype Reply =
    | RowReply(key: Key, report: Report)
    | Refusal(code: ErrorCode)
    | Failure

  datatype State = State(
    serving: bool,
    rows: map<Key, Row>,
    holds: map<string, Hold>,
    fixup: Option<(Key, Report)>,
    fates: map<Key, Fate>,
    sent: seq<Key>,
    risk: Risk,
    replies: map<string, Reply>)

  /** Every key the kill switch makes up starts like this. */
  const CLOSE_PREFIX := "close-"

  const INIT := State(false, map[], map[], None, map[], [], Risk(map[], []), map[])

  /** Moves of a lock holder whose row does not exist yet, up to the durable insert. */
  datatype Prep =
    | ReadPolicy
    | ReadTotal
    | ReadHoldings(held: real)
    | Clear
    | Spend(index: nat, now: int)
    | Insert

  /** Moves of a lock holder that works on an existing row. */
  datatype Deal =
    | Submit(accepted: bool)
    | Answer(answer: SubmitAnswer)
    | CancelAnswered(cancel: CancelAnswer)
    | Found(found: Option<Report>)
    | Write

  datatype Step =
    // a call takes the account lock, or answers at once from a stored row
    | Begin(draft: Draft, caller: Option<string>)
    | BeginExisting(key: Key, isReal: bool, caller: Option<string>)
    | BeginCancel(key: Key)
    | BeginSell(draft: Draft)
    | PaperCancel(key: Key)
    // the lock holder moves, or gives up
    | Prepare(account: string, prep: Prep)
    | Settle(account: string, deal: Deal)
    | Abort(account: string, refusal: Option<ErrorCode>)
    // process life
    | Crash
    | StartupFound(key: Key, found: Option<Report>)
    | StartupWrite
    | Serve
    // the exchange and the other writers
    | Finish(key: Key, fate: Fate)
    | Govern(risk: RiskStep)

  // ---------- guards ----------

  function FateOf(fates: map<Key, Fate>, key: Key): Option<Fate> {
    if key in fates then Some(fates[key]) else None
  }

  /** The exchange holds the order and may still fill it. */
  predicate Working(s: State, key: Key) {
    FateOf(s.fates, key) == Some(Alive)
  }

  function IsOco(s: State, key: Key): bool {
    key in s.rows && s.rows[key].oco
  }

  /** A truthful broker never calls a working order finished. */
  predicate Truthful(s: State, key: Key, report: Report) {
    TruthfulAbout(FateOf(s.fates, key), IsOco(s, key), report)
  }

  predicate TruthfulFound(s: State, key: Key, found: Option<Report>) {
    found.Some? ==> Truthful(s, key, found.value)
  }

  predicate TruthfulSubmit(s: State, key: Key, ans: SubmitAnswer) {
    match ans
    case Placed(report) => TruthfulAbout(FateOf(s.fates, key), false, report)
    case RefusedByExchange => StatusTrue(Rejected, FateOf(s.fates, key))
    case _ => true
  }

  predicate TruthfulCancel(s: State, key: Key, ans: CancelAnswer) {
    TruthfulCancelAbout(FateOf(s.fates, key), IsOco(s, key), ans)
  }

  predicate Free(s: State, account: string) {
    s.serving && account !in s.holds
  }

  predicate Doable(d: Draft) {
    d.notional > 0.0 && d.symbol != ""
  }

  /** The holder works on a row; otherwise it has only a draft, and an error still means that nothing was recorded. */
  predicate HasRow(t: Task) {
    t.Inserted? || t.Sent? || t.TimedOut? || t.Lookup? || t.Cancelling? || t.Writing?
  }

  function KeyOf(t: Task): Key {
    if HasRow(t) then t.key else t.draft.key
  }

  predicate PrepEnabled(s: State, a: string, p: Prep) {
    && a in s.holds
    && var t := s.holds[a].task;
       match p
       case ReadPolicy => t.Drafted?
       case ReadTotal => t.PolicyRead?
       case ReadHoldings(held) => t.TotalRead? && held >= 0.0
       case Clear => t.Weighed? && VerdictOf(t) == Within
       case Spend(i, now) =>
         t.Weighed? && Overridable(VerdictOf(t)) && Eldest(s.risk.overrides, i, a, t.policy.version, now)
       case Insert => t.Cleared? && t.draft.key !in s.rows
  }

  predicate DealEnabled(s: State, a: string, deal: Deal) {
    && a in s.holds
    && var t := s.holds[a].task;
       match deal
       case Submit(_) => t.Inserted?
       case Answer(ans) => t.Sent? && TruthfulSubmit(s, t.key, ans)
       case CancelAnswered(ans) => t.Cancelling? && TruthfulCancel(s, t.key, ans)
       case Found(found) => (t.TimedOut? || t.Lookup?) && TruthfulFound(s, t.key, found)
       case Write => t.Writing?
  }

  predicate Enabled(s: State, step: Step) {
    match step
    case Begin(d, _) => Free(s, d.key.account) && d.key !in s.rows && Doable(d)
    case BeginExisting(key, _, _) => Free(s, key.account) && key in s.rows
    case BeginCancel(key) => Free(s, key.account) && key in s.rows && Resting(s.rows[key].report.status)
    case BeginSell(d) => Free(s, d.key.account) && Doable(d) && d.isReal && d.side.Sell? && CLOSE_PREFIX <= d.key.idem
    case PaperCancel(key) => Free(s, key.account) && key in s.rows && Resting(s.rows[key].report.status)
    case Prepare(a, p) => PrepEnabled(s, a, p)
    case Settle(a, deal) => DealEnabled(s, a, deal)
    case Abort(a, refusal) => a in s.holds && (refusal.Some? ==> !HasRow(s.holds[a].task))
    case Crash => true
    case StartupFound(key, found) =>
      && !s.serving && s.fixup.None?
      && key in s.rows && Uncertain(s.rows[key].report.status) && TruthfulFound(s, key, found)
    case StartupWrite => s.fixup.Some?
    case Serve => !s.serving && s.fixup.None?
    case Finish(key, fate) => Working(s, key) && !fate.Alive?
    case Govern(r) => !r.Consuming? && RiskEnabled(s.risk, r)
  }

  /** The caps, weighed against the policy snapshot the holder read. */
  function VerdictOf(t: Task): Verdict
    requires t.Weighed?
  {
    EnforceCaps(t.policy, t.draft.symbol, t.draft.notional, t.after)
  }

  // ---------- exposure ----------

  /** `_open_order_notional` counts this much of a row. */
  function Counted(row: Row, checkedOnly: bool): real {
    if Uncertain(row.report.status) && (checkedOnly ==> row.origin.Checked?) then row.notional else 0.0
  }

  ghost function SumOver(rows: map<Key, Row>, keys: set<Key>, account: string, checkedOnly: bool): real
    requires keys <= rows.Keys
  {
    if keys == {} then 0.0
    else
      var k :| k in keys;
      (if k.account == account then Counted(rows[k], checkedOnly) else 0.0)
        + SumOver(rows, keys - {k}, account, checkedOnly)
  }

  /** The summed notional of an account's NEW, PARTIALLY_FILLED and UNKNOWN rows. */
  ghost function OpenTotal(rows: map<Key, Row>, account: string): real {
    SumOver(rows, rows.Keys, account, false)
  }

  /** The same, without the rows the kill switch wrote. */
  ghost function CheckedTotal(rows: map<Key, Row>, account: string): real {
    SumOver(rows, rows.Keys, account, true)
  }

  // ---------- effects ----------

  function WithTask(s: State, account: string, t: Task): State
    requires account in s.holds
  {
    s.(holds := s.holds[account := s.holds[account].(task := t)])
  }

  function Acquire(s: State, account: string, caller: Option<string>, t: Task): State {
    s.(holds := s.holds[account := Hold(caller, t)])
  }

  function Deliver(replies: map<string, Reply>, caller: Option<string>, reply: Reply): map<string, Reply> {
    if caller.Some? then replies[caller.value := reply] else replies
  }

  /** Give the lock up and answer the caller. */
  function Release(s: State, account: string, reply: Reply): State
    requires account in s.holds
  {
    s.(holds := s.holds - {account}, replies := Deliver(s.replies, s.holds[account].caller, reply))
  }

  function RowFor(d: Draft, origin: Origin, status: Status): Row {
    Row(d.symbol, d.side, d.oco, d.quantity, d.notional, FRESH.(status := status), origin)
  }

  function SetReport(s: State, key: Key, report: Report): State
    requires key in s.rows
  {
    s.(rows := s.rows[key := s.rows[key].(report := report)])
  }

  function DoBeginExisting(s: State, key: Key, isReal: bool, caller: Option<string>): State
    requires key in s.rows
  {
    if Uncertain(s.rows[key].report.status) && isReal then Acquire(s, key.account, caller, Lookup(key))
    else s.(replies := Deliver(s.replies, caller, RowReply(key, s.rows[key].report)))
  }

  /** Paper orders end here; a real order is durable as NEW before the broker is called. */
  function DoInsert(s: State, a: string, d: Draft, origin: Origin): State
    requires a in s.holds
  {
    if d.isReal then
      WithTask(s, a, Inserted(d.key)).(rows := s.rows[d.key := RowFor(d, origin, New)])
    else
      Release(s, a, RowReply(d.key, FRESH.(status := Paper))).(rows := s.rows[d.key := RowFor(d, origin, Paper)])
  }

  function DoSubmit(s: State, a: string, key: Key, accepted: bool): State
    requires a in s.holds
  {
    WithTask(s, a, Sent(key))
      .(sent := s.sent + [key], fates := if accepted then s.fates[key := Alive] else s.fates)
  }

  function DoFound(s: State, a: string, t: Task, found: Option<Report>): State
    requires a in s.holds && (t.TimedOut? || t.Lookup?) && t.key in s.rows
  {
    var stored := s.rows[t.key].report;
    if t.TimedOut? then WithTask(s, a, Writing(t.key, AfterTimeout(stored, found), false))
    else if found.Some? then WithTask(s, a, Writing(t.key, found.value, false))
    else Release(s, a, RowReply(t.key, stored))
  }

  ghost function ApplyPrep(s: State, a: string, p: Prep): State
    requires PrepEnabled(s, a, p)
  {
    var t := s.holds[a].task;
    match p
    case ReadPolicy => WithTask(s, a, PolicyRead(t.draft, PolicyOf(s.risk, a)))
    case ReadTotal => WithTask(s, a, TotalRead(t.draft, t.policy, OpenTotal(s.rows, a)))
    case ReadHoldings(held) => WithTask(s, a, Weighed(t.draft, t.policy, t.open + held + t.draft.notional))
    case Clear => WithTask(s, a, Cleared(t.draft, Checked(t.policy, t.after, None)))
    case Spend(i, now) =>
      WithTask(s, a, Cleared(t.draft, Checked(t.policy, t.after, Some(i))))
        .(risk := Consume(s.risk, i, t.draft.key.idem, now))
    case Insert => DoInsert(s, a, t.draft, t.origin)
  }

  function ApplyDeal(s: State, a: string, deal: Deal): State
    requires DealEnabled(s, a, deal) && s.holds[a].task.key in s.rows
  {
    var t := s.holds[a].task;
    var stored := s.rows[t.key].report;
    match deal
    case Submit(accepted) => DoSubmit(s, a, t.key, accepted)
    case Answer(ans) =>
      var next := AfterSubmit(stored, ans);
      WithTask(s, a, if next.Some? then Writing(t.key, next.value, false) else TimedOut(t.key))
    case CancelAnswered(ans) => WithTask(s, a, Writing(t.key, AfterCancel(stored, ans), Unverified(ans)))
    case Found(found) => DoFound(s, a, t, found)
    case Write => SetReport(Release(s, a, RowReply(t.key, t.report)), t.key, t.report)
  }

  ghost function Apply(s: State, step: Step): State
    requires Coherent(s) && Enabled(s, step)
  {
    match step
    case Begin(d, caller) => Acquire(s, d.key.account, caller, Drafted(d))
    case BeginExisting(key, isReal, caller) => DoBeginExisting(s, key, isReal, caller)
    case BeginCancel(key) => Acquire(s, key.account, None, Cancelling(key))
    case BeginSell(d) => Acquire(s, d.key.account, None, Cleared(d, KillSwitch))
    case PaperCancel(key) => SetReport(s, key, s.rows[key].report.(status := Canceled))
    case Prepare(a, p) => ApplyPrep(s, a, p)
    case Settle(a, deal) =>
      assert TaskCoherent(s, a, s.holds[a].task);
      ApplyDeal(s, a, deal)
    case Abort(a, refusal) => Release(s, a, if refusal.Some? then Refusal(refusal.value) else Failure)
    case Crash => s.(serving := false, holds := map[], fixup := None, replies := map[])
    case StartupFound(key, found) => s.(fixup := Some((key, AfterStartup(s.rows[key].report, found))))
    case StartupWrite => SetReport(s, s.fixup.value.0, s.fixup.value.1).(fixup := None)
    case Serve => s.(serving := true)
    case Finish(key, fate) => s.(fates := s.fates[key := fate])
    case Govern(r) => s.(risk := RiskApply(s.risk, r))
  }

  // ---------- coherence: what makes every step well defined ----------

  predicate TaskCoherent(s: State, account: string, t: Task) {
    if HasRow(t) then
      && t.key.account == account
      && t.key in s.rows
      && Uncertain(s.rows[t.key].report.status)
    else
      && t.draft.key.account == account
      && Doable(t.draft)
      && ((t.Cleared? && t.origin.KillSwitch? && CLOSE_PREFIX <= t.draft.key.idem) || t.draft.key !in s.rows)
  }

  /** Locks are held only while serving, each holder works on its own account, and its row is not terminal. */
  predicate Coherent(s: State) {
    && (s.holds != map[] ==> s.serving)
    && (s.fixup.Some? ==> !s.serving && s.fixup.value.0 in s.rows
                          && Uncertain(s.rows[s.fixup.value.0].report.status))
    && (forall a | a in s.holds :: TaskCoherent(s, a, s.holds[a].task))
  }

  /** The account whose lock a step takes, uses or gives up. */
  function Actor(step: Step): Option<string> {
    match step
    case Begin(d, _) => Some(d.key.account)
    case BeginExisting(key, _, _) => Some(key.account)
    case BeginCancel(key) => Some(key.account)
    case BeginSell(d) => Some(d.key.account)
    case PaperCancel(key) => Some(key.account)
    case Prepare(a, _) => Some(a)
    case Settle(a, _) => Some(a)
    case Abort(a, _) => Some(a)
    case _ => None
  }

  /** Nothing outside the account changes: neither its lock nor any row; and its own lock stays coherent. */
  predicate Local(s: State, s': State, account: string) {
    && s'.serving == s.serving
    && s'.fixup == s.fixup
    && s'.holds - {account} == s.holds - {account}
    && (forall k | k in s.rows :: k in s'.rows && (k.account != account ==> s'.rows[k] == s.rows[k]))
    && (forall k | k in s'.rows && k !in s.rows :: k.account == account)
    && (account in s'.holds ==> TaskCoherent(s', account, s'.holds[account].task))
  }

  lemma InsertIsLocal(s: State, a: string)
    requires PrepEnabled(s, a, Insert) && TaskCoherent(s, a, s.holds[a].task)
    ensures Local(s, ApplyPrep(s, a, Insert), a)
  {
  }

  lemma PrepIsLocal(s: State, a: string, p: Prep)
    requires PrepEnabled(s, a, p) && TaskCoherent(s, a, s.holds[a].task)
    ensures Local(s, ApplyPrep(s, a, p), a)
  {
    match p
    case Insert => InsertIsLocal(s, a);
    case _ =>
  }

  lemma DealIsLocal(s: State, a: string, deal: Deal)
    requires DealEnabled(s, a, deal) && TaskCoherent(s, a, s.holds[a].task)
    ensures Local(s, ApplyDeal(s, a, deal), a)
  {
  }

  lemma ActorIsLocal(s: State, step: Step)
    requires Coherent(s) && Enabled(s, step) && Actor(step).Some?
    ensures Local(s, Apply(s, step), Actor(step).value)
  {
    var a := Actor(step).value;
    assert a in s.holds ==> TaskCoherent(s, a, s.holds[a].task);
    match step
    case Prepare(_, p) => PrepIsLocal(s, a, p);
    case Settle(_, deal) => DealIsLocal(s, a, deal);
    case _ =>
  }

  /** A lock that is held after somebody else's step was held before it, at the same point. */
  lemma HoldKept(s: State, step: Step, a: string)
    requires Coherent(s) && Enabled(s, step) && Actor(step) != Some(a) && a in Apply(s, step).holds
    ensures a in s.holds && Apply(s, step).holds[a] == s.holds[a]
  {
    if Actor(step).Some? {
      ActorIsLocal(s, step);
      var b := Actor(step).value;
      assert a in Apply(s, step).holds - {b};
      assert (s.holds - {b})[a] == s.holds[a];
    }
  }

  lemma OthersStayCoherent(s: State, s': State, account: string)
    requires Coherent(s) && Local(s, s', account)
    ensures forall b | b in s'.holds :: TaskCoherent(s', b, s'.holds[b].task)
  {
    forall b | b in s'.holds && b != account ensures TaskCoherent(s', b, s'.holds[b].task) {
      assert b in s'.holds - {account};
      assert b in s.holds && (s.holds - {account})[b] == s.holds[b];
      assert TaskCoherent(s, b, s.holds[b].task);
    }
  }

  lemma CoherentStep(s: State, step: Step)
    requires Coherent(s) && Enabled(s, step)
    ensures Coherent(Apply(s, step))
  {
    var s' := Apply(s, step);
    if Actor(step).Some? {
      ActorIsLocal(s, step);
      OthersStayCoherent(s, s', Actor(step).value);
      assert s.serving;
    } else {
      forall a | a in s'.holds ensures TaskCoherent(s', a, s'.holds[a].task) {
        assert TaskCoherent(s, a, s.holds[a].task);
      }
    }
  }

  // ---------- runs ----------

  ghost predicate Legal(s: State, steps: seq<Step>)
    decreases |steps|
  {
    Coherent(s) && (steps == [] || (Enabled(s, steps[0]) && Legal(Apply(s, steps[0]), steps[1..])))
  }

  ghost function Run(s: State, steps: seq<Step>): (r: State)
    requires Legal(s, steps)
    ensures Coherent(r)
    decreases |steps|
  {
    if steps == [] then s else Run(Apply(s, steps[0]), steps[1..])
  }

  /** Runs compose. */
  lemma {:induction false} RunConcat(s: State, xs: seq<Step>, ys: seq<Step>)
    requires Legal(s, xs) && Legal(Run(s, xs), ys)
    ensures Legal(s, xs + ys) && Run(s, xs + ys) == Run(Run(s, xs), ys)
    decreases |xs|
  {
    if xs == [] {
      assert xs + ys == ys;
    } else {
      RunConcat(Apply(s, xs[0]), xs[1..], ys);
      assert (xs + ys)[1..] == xs[1..] + ys;
    }
  }

  /** One more step. */
  lemma RunExtend(s: State, xs: seq<Step>, step: Step)
    requires Legal(s, xs) && Enabled(Run(s, xs), step)
    ensures Legal(s, xs + [step]) && Run(s, xs + [step]) == Apply(Run(s, xs), step)
  {
    var s1 := Run(s, xs);
    CoherentStep(s1, step);
    assert [step][1..] == [];
    assert Legal(Apply(s1, step), []);
    RunConcat(s, xs, [step]);
  }
}
