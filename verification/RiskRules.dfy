/** Risk policies and one-shot overrides: `risk.py` and `storage/risk_policy.py` as transitions on values. */
module RiskRules {
  import opened Basics

  datatype Policy = Policy(
    maxNotional: Option<real>,
    maxExposure: Option<real>,
    symbols: seq<string>,
    version: nat)

  /** The policy of an account that never set one: no cap, every symbol, version 0. */
  const NO_POLICY := Policy(None, None, [], 0)

  // ---------- caps ----------

  datatype Verdict = Within | Refused(code: ErrorCode)

  /** `enforce_policy_caps`: the guards in the order the code tries them. */
  function EnforceCaps(policy: Policy, symbol: string, notional: real, aggregate: real): Verdict {
    if symbol == "" || notional <= 0.0 then Refused(InvalidRequest)
    else if policy.symbols != [] && symbol !in policy.symbols then Refused(SymbolNotAllowed)
    else if policy.maxNotional.Some? && notional > policy.maxNotional.value then Refused(RiskLimitExceeded)
    else if policy.maxExposure.Some? && aggregate > policy.maxExposure.value then Refused(RiskLimitExceeded)
    else Within
  }

  /** Only these two refusals may be lifted by an override. */
  predicate Overridable(v: Verdict) {
    v == Refused(RiskLimitExceeded) || v == Refused(SymbolNotAllowed)
  }

  /** The caps, all at once: an order is within the policy exactly when it meets every limit that is set, and an
      override can lift exactly the refusals of orders that are otherwise sound. */
  lemma CapsExactly(policy: Policy, symbol: string, notional: real, aggregate: real)
    ensures var verdict := EnforceCaps(policy, symbol, notional, aggregate);
            var sound := symbol != "" && notional > 0.0;
            var within := (policy.symbols == [] || symbol in policy.symbols)
                          && (policy.maxNotional == None || notional <= policy.maxNotional.value)
                          && (policy.maxExposure == None || aggregate <= policy.maxExposure.value);
            && (verdict == Within <==> sound && within)
            && (Overridable(verdict) <==> sound && !within)
  {
  }

  /** Which limit a refused order breaks, code by code. */
  lemma RefusalsExactly(policy: Policy, symbol: string, notional: real, aggregate: real)
    ensures var verdict := EnforceCaps(policy, symbol, notional, aggregate);
            var sound := symbol != "" && notional > 0.0;
            var listed := policy.symbols == [] || symbol in policy.symbols;
            && (verdict == Refused(InvalidRequest) <==> !sound)
            && (verdict == Refused(SymbolNotAllowed) <==> sound && !listed)
            && (verdict == Refused(RiskLimitExceeded) <==>
                  && sound && listed
                  && (|| (policy.maxNotional != None && notional > policy.maxNotional.value)
                      || (policy.maxExposure != None && aggregate > policy.maxExposure.value)))
  {
  }

  // ---------- overrides ----------

  datatype Reason = Expired | PolicyChanged

  datatype OverrideState =
    | Reserved
    | Applied(spender: string, at: int)
    | Reconciled(reason: Reason, when: int)

  datatype Override = Override(
    account: string,
    version: nat,
    idem: string,
    state: OverrideState,
    createdAt: int,
    expiresAt: int)

  /** The two tables; an override's position is its autoincrement id. */
  datatype Risk = Risk(policies: map<string, Policy>, overrides: seq<Override>)

  function PolicyOf(r: Risk, account: string): Policy {
    if account in r.policies then r.policies[account] else NO_POLICY
  }

  /** The row `consume_override` may take. */
  predicate Candidate(o: Override, account: string, version: nat, now: int) {
    o.account == account && o.state == Reserved && o.version == version && o.expiresAt > now
  }

  /** `ORDER BY created_at ASC, id ASC`. */
  predicate Before(os: seq<Override>, i: nat, j: nat)
    requires i < |os| && j < |os|
  {
    os[i].createdAt < os[j].createdAt || (os[i].createdAt == os[j].createdAt && i < j)
  }

  /** `i` is the row that `ORDER BY ... LIMIT 1` returns. */
  predicate Eldest(os: seq<Override>, i: nat, account: string, version: nat, now: int) {
    && i < |os|
    && Candidate(os[i], account, version, now)
    && forall j | 0 <= j < |os| && j != i && Candidate(os[j], account, version, now) :: Before(os, i, j)
  }

  function Consume(r: Risk, i: nat, spender: string, now: int): Risk
    requires i < |r.overrides|
  {
    r.(overrides := r.overrides[i := r.overrides[i].(state := Applied(spender, now))])
  }

  /** An override the account can spend on an order weighed against this version of its policy, and which of two goes
      first: the one created earlier, then the one with the smaller id. */
  ghost predicate SpendInFull(r: Risk, account: string, version: nat, spender: string, now: int, i: nat, r': Risk) {
    && i < |r.overrides| == |r'.overrides|
    && r'.policies == r.policies
    && var o := r.overrides[i];
       && o.account == account && o.version == version && o.state == Reserved && now < o.expiresAt
       && r'.overrides[i] == Override(account, version, o.idem, Applied(spender, now), o.createdAt, o.expiresAt)
       && forall j | 0 <= j < |r.overrides| && j != i ::
            && r'.overrides[j] == r.overrides[j]
            && (r.overrides[j].account == account && r.overrides[j].version == version
                && r.overrides[j].state == Reserved && now < r.overrides[j].expiresAt ==>
                  || o.createdAt < r.overrides[j].createdAt
                  || (o.createdAt == r.overrides[j].createdAt && i < j))
  }

  /** Spending the eldest candidate, in full. */
  lemma SpentExactly(r: Risk, account: string, version: nat, spender: string, now: int, i: nat)
    requires i < |r.overrides|
    ensures Eldest(r.overrides, i, account, version, now)
       <==> SpendInFull(r, account, version, spender, now, i, Consume(r, i, spender, now))
  {
    var r' := Consume(r, i, spender, now);
    if SpendInFull(r, account, version, spender, now, i, r') {
      forall j | 0 <= j < |r.overrides| && j != i && Candidate(r.overrides[j], account, version, now)
        ensures Before(r.overrides, i, j)
      {
        assert r'.overrides[j] == r.overrides[j];
      }
    }
  }

  predicate Stale(o: Override, account: string, keep: nat) {
    o.account == account && o.state == Reserved && o.version != keep
  }

  /** `_reconcile_stale_overrides` on the first `n` rows. */
  function CloseStale(os: seq<Override>, account: string, keep: nat, now: int, n: nat): seq<Override>
    requires n <= |os|
  {
    seq(|os|, i requires 0 <= i < |os| =>
      if i < n && Stale(os[i], account, keep) then os[i].(state := Reconciled(PolicyChanged, now)) else os[i])
  }

  predicate Overdue(o: Override, now: int) {
    o.state == Reserved && o.expiresAt <= now
  }

  /** `reconcile_overrides` on the first `n` rows. */
  function CloseOverdue(os: seq<Override>, now: int, n: nat): seq<Override>
    requires n <= |os|
  {
    seq(|os|, i requires 0 <= i < |os| =>
      if i < n && Overdue(os[i], now) then os[i].(state := Reconciled(Expired, now)) else os[i])
  }

  // ---------- setting a policy ----------

  /** One `set_risk_policy` request; symbols are already normalised, and empty means "not given". */
  datatype Patch = Patch(
    maxNotional: Option<real>,
    maxExposure: Option<real>,
    symbols: seq<string>,
    clearNotional: bool,
    clearExposure: bool,
    clearSymbols: bool)

  predicate ValidPatch(p: Patch) {
    && (p.maxNotional.Some? ==> p.maxNotional.value > 0.0)
    && (p.maxExposure.Some? ==> p.maxExposure.value > 0.0)
  }

  function MergeAmount(clear: bool, given: Option<real>, prev: Option<real>): Option<real> {
    if clear then None else if given.Some? then given else prev
  }

  /** The three caps after the patch, at the version the row had before. */
  function Merge(prev: Policy, p: Patch): Policy {
    prev.(maxNotional := MergeAmount(p.clearNotional, p.maxNotional, prev.maxNotional),
          maxExposure := MergeAmount(p.clearExposure, p.maxExposure, prev.maxExposure),
          symbols := if p.clearSymbols then [] else if p.symbols != [] then p.symbols else prev.symbols)
  }

  /** A first set always counts as a change. */
  predicate Changes(r: Risk, account: string, p: Patch) {
    account !in r.policies || Merge(r.policies[account], p) != r.policies[account]
  }

  function SetPolicy(r: Risk, account: string, p: Patch, now: int): Risk {
    var prev := PolicyOf(r, account);
    if Changes(r, account, p) then
      var next := Merge(prev, p).(version := prev.version + 1);
      Risk(r.policies[account := next], CloseStale(r.overrides, account, next.version, now, |r.overrides|))
    else r
  }

  /** Setting a policy, in full. Each cap is unset when its clear flag is set, else it is the given one, else the stored
      one, and no other account's policy changes. On a first set or a real change the version rises by one and the
      account's reserved overrides of other versions are closed; otherwise nothing changes at all. */
  ghost predicate SetInFull(r: Risk, account: string, p: Patch, now: int, r': Risk) {
    var prev := if account in r.policies then r.policies[account] else Policy(None, None, [], 0);
    && r'.policies.Keys == r.policies.Keys + {account}
    && (forall a | a in r.policies && a != account :: r'.policies[a] == r.policies[a])
    && |r'.overrides| == |r.overrides|
    && var next := r'.policies[account];
       var changed := account !in r.policies || next.maxNotional != prev.maxNotional
                      || next.maxExposure != prev.maxExposure || next.symbols != prev.symbols;
       && next.maxNotional == (if p.clearNotional then None
                               else if p.maxNotional != None then p.maxNotional else prev.maxNotional)
       && next.maxExposure == (if p.clearExposure then None
                               else if p.maxExposure != None then p.maxExposure else prev.maxExposure)
       && next.symbols == (if p.clearSymbols then [] else if p.symbols != [] then p.symbols else prev.symbols)
       && next.version == prev.version + (if changed then 1 else 0)
       && forall i | 0 <= i < |r.overrides| ::
            var o := r.overrides[i];
            r'.overrides[i] == if changed && o.account == account && o.state == Reserved && o.version != next.version
                               then o.(state := Reconciled(PolicyChanged, now)) else o
  }

  lemma SetExactly(r: Risk, account: string, p: Patch, now: int)
    ensures SetInFull(r, account, p, now, SetPolicy(r, account, p, now))
  {
  }

  /** Setting the same patch again is no change: the version stays and nothing more is closed. */
  lemma SetPolicyTwice(r: Risk, account: string, p: Patch, now: int, later: int)
    ensures SetPolicy(SetPolicy(r, account, p, now), account, p, later) == SetPolicy(r, account, p, now)
  {
    var prev := PolicyOf(r, account);
    var next := Merge(prev, p).(version := prev.version + 1);
    assert Merge(next, p) == next;
  }

  // ---------- creating an override ----------

  predicate Named(o: Override, account: string, idem: string) {
    o.account == account && o.idem == idem
  }

  predicate Exists(r: Risk, account: string, idem: string) {
    exists i | 0 <= i < |r.overrides| :: Named(r.overrides[i], account, idem)
  }

  /** A retry with a known (account, key) changes nothing. */
  function Create(r: Risk, account: string, idem: string, now: int, expiresAt: int): Risk {
    if Exists(r, account, idem) then r
    else r.(overrides := r.overrides + [Override(account, PolicyOf(r, account).version, idem, Reserved, now, expiresAt)])
  }

  /** Creating an override, in full: a known (account, key) is answered; a new one is added at the end, reserved, with the
      account's policy version of this moment. */
  ghost predicate CreateInFull(r: Risk, account: string, idem: string, now: int, expiresAt: int, r': Risk, o: Override) {
    && r'.policies == r.policies
    && o in r'.overrides && o.account == account && o.idem == idem
    && if exists i :: 0 <= i < |r.overrides| && r.overrides[i].account == account && r.overrides[i].idem == idem
       then r'.overrides == r.overrides
       else
         && r'.overrides == r.overrides + [o]
         && o.version == (if account in r.policies then r.policies[account].version else 0)
         && o.state == Reserved && o.createdAt == now && o.expiresAt == expiresAt
  }

  lemma CreatedExactly(r: Risk, account: string, idem: string, now: int, expiresAt: int, o: Override)
    requires o in Create(r, account, idem, now, expiresAt).overrides && Named(o, account, idem)
    ensures CreateInFull(r, account, idem, now, expiresAt, Create(r, account, idem, now, expiresAt), o)
  {
    if i :| 0 <= i < |r.overrides| && r.overrides[i].account == account && r.overrides[i].idem == idem {
      assert Named(r.overrides[i], account, idem);
    } else {
      assert forall x | x in r.overrides :: !Named(x, account, idem);
    }
  }

  /** The overdue reservations are closed, and nothing else changes. */
  ghost predicate ExpireInFull(r: Risk, now: int, r': Risk, closed: nat) {
    && r'.policies == r.policies && |r'.overrides| == |r.overrides|
    && (forall i | 0 <= i < |r.overrides| ::
          var o := r.overrides[i];
          r'.overrides[i] == if o.state == Reserved && o.expiresAt <= now
                             then o.(state := Reconciled(Expired, now)) else o)
    && closed == |set i | 0 <= i < |r.overrides| && r.overrides[i].state == Reserved && r.overrides[i].expiresAt <= now|
  }

  /** How many of the first `n` rows `reconcile_overrides` closes. */
  function OverdueCount(os: seq<Override>, now: int, n: nat): nat
    requires n <= |os|
  {
    if n == 0 then 0 else OverdueCount(os, now, n - 1) + (if Overdue(os[n - 1], now) then 1 else 0)
  }

  lemma {:induction false} OverdueCountIsSize(os: seq<Override>, now: int, n: nat)
    requires n <= |os|
    ensures OverdueCount(os, now, n) == |set i | 0 <= i < n && os[i].state == Reserved && os[i].expiresAt <= now|
  {
    if n > 0 {
      OverdueCountIsSize(os, now, n - 1);
      var before := set i | 0 <= i < n - 1 && os[i].state == Reserved && os[i].expiresAt <= now;
      var all := set i | 0 <= i < n && os[i].state == Reserved && os[i].expiresAt <= now;
      assert all == if Overdue(os[n - 1], now) then before + {n - 1} else before;
    }
  }

  lemma ExpiredExactly(r: Risk, now: int)
    ensures ExpireInFull(r, now, Expire(r, now), OverdueCount(r.overrides, now, |r.overrides|))
  {
    OverdueCountIsSize(r.overrides, now, |r.overrides|);
  }

  function Expire(r: Risk, now: int): Risk {
    r.(overrides := CloseOverdue(r.overrides, now, |r.overrides|))
  }

  // ---------- runs ----------

  datatype RiskStep =
    | Setting(account: string, patch: Patch, at: int)
    | Creating(account: string, idem: string, at: int, expiresAt: int)
    | Consuming(index: nat, version: nat, spender: string, at: int)
    | Expiring(at: int)

  predicate RiskEnabled(r: Risk, s: RiskStep) {
    match s
    case Setting(_, p, _) => ValidPatch(p)
    case Creating(_, _, now, expiresAt) => expiresAt > now
    case Consuming(i, v, _, now) => i < |r.overrides| && Eldest(r.overrides, i, r.overrides[i].account, v, now)
    case Expiring(_) => true
  }

  function RiskApply(r: Risk, s: RiskStep): Risk
    requires RiskEnabled(r, s)
  {
    match s
    case Setting(a, p, now) => SetPolicy(r, a, p, now)
    case Creating(a, idem, now, expiresAt) => Create(r, a, idem, now, expiresAt)
    case Consuming(i, _, spender, now) => Consume(r, i, spender, now)
    case Expiring(now) => Expire(r, now)
  }

  /** Every reserved override carries its account's current version; (account, key) is unique. */
  ghost predicate RiskInv(r: Risk) {
    && (forall i | 0 <= i < |r.overrides| :: CurrentIfReserved(r, r.overrides[i]))
    && (forall i, j | 0 <= i < j < |r.overrides| ::
          !(r.overrides[i].account == r.overrides[j].account && r.overrides[i].idem == r.overrides[j].idem))
  }

  predicate CurrentIfReserved(r: Risk, o: Override) {
    o.state == Reserved ==> o.version == PolicyOf(r, o.account).version
  }

  lemma RiskStepKeepsInv(r: Risk, s: RiskStep)
    requires RiskInv(r) && RiskEnabled(r, s)
    ensures RiskInv(RiskApply(r, s))
  {
    var r' := RiskApply(r, s);
    match s
    case Setting(a, p, now) =>
      forall i | 0 <= i < |r'.overrides| ensures CurrentIfReserved(r', r'.overrides[i]) {
        assert CurrentIfReserved(r, r.overrides[i]);
      }
    case Creating(a, idem, now, expiresAt) =>
      forall i | 0 <= i < |r'.overrides| ensures CurrentIfReserved(r', r'.overrides[i]) {
        assert i < |r.overrides| ==> CurrentIfReserved(r, r.overrides[i]);
      }
      if !Exists(r, a, idem) {
        assert forall i | 0 <= i < |r.overrides| :: !Named(r.overrides[i], a, idem);
      }
    case Consuming(i, _, spender, now) =>
      forall j | 0 <= j < |r'.overrides| ensures CurrentIfReserved(r', r'.overrides[j]) {
        assert CurrentIfReserved(r, r.overrides[j]);
      }
    case Expiring(now) =>
      forall j | 0 <= j < |r'.overrides| ensures CurrentIfReserved(r', r'.overrides[j]) {
        assert CurrentIfReserved(r, r.overrides[j]);
      }
  }

  /** What one step may do to the tables: overrides are never deleted, a settled one never changes, a live one keeps
      its identity, and an account's version rises by one exactly on a first set or a real change of its caps. */
  ghost predicate RiskStepFrame(r: Risk, s: RiskStep, r': Risk) {
    && |r.overrides| <= |r'.overrides|
    && (forall i | 0 <= i < |r.overrides| :: OverrideGrows(r.overrides[i], r'.overrides[i]))
    && (forall a: string :: PolicyOf(r', a).version ==
          PolicyOf(r, a).version + (if s.Setting? && s.account == a && Changes(r, a, s.patch) then 1 else 0))
    && (forall a: string ::
          (PolicyOf(r', a) != PolicyOf(r, a) <==> PolicyOf(r', a).version != PolicyOf(r, a).version))
  }

  predicate OverrideGrows(o: Override, o': Override) {
    && o' == o.(state := o'.state)
    && (o.state != Reserved ==> o' == o)
  }

  lemma RiskStepIsFramed(r: Risk, s: RiskStep)
    requires RiskEnabled(r, s)
    ensures RiskStepFrame(r, s, RiskApply(r, s))
  {
    var r' := RiskApply(r, s);
    forall a: string
      ensures PolicyOf(r', a).version ==
        PolicyOf(r, a).version + (if s.Setting? && s.account == a && Changes(r, a, s.patch) then 1 else 0)
    {
    }
  }

  ghost predicate RiskLegal(r: Risk, steps: seq<RiskStep>)
    decreases |steps|
  {
    steps == [] || (RiskEnabled(r, steps[0]) && RiskLegal(RiskApply(r, steps[0]), steps[1..]))
  }

  ghost function RiskRun(r: Risk, steps: seq<RiskStep>): Risk
    requires RiskLegal(r, steps)
    decreases |steps|
  {
    if steps == [] then r else RiskRun(RiskApply(r, steps[0]), steps[1..])
  }

  /** Over every run: the invariant holds, versions never fall, settled overrides stay as they are. */
  lemma {:induction false} RiskHistory(r: Risk, steps: seq<RiskStep>)
    requires RiskInv(r) && RiskLegal(r, steps)
    ensures RiskInv(RiskRun(r, steps))
    ensures |r.overrides| <= |RiskRun(r, steps).overrides|
    ensures forall i | 0 <= i < |r.overrides| :: OverrideGrows(r.overrides[i], RiskRun(r, steps).overrides[i])
    ensures forall a: string :: PolicyOf(r, a).version <= PolicyOf(RiskRun(r, steps), a).version
    decreases |steps|
  {
    if steps != [] {
      var r1 := RiskApply(r, steps[0]);
      RiskStepKeepsInv(r, steps[0]);
      RiskStepIsFramed(r, steps[0]);
      RiskHistory(r1, steps[1..]);
      forall i | 0 <= i < |r.overrides| ensures OverrideGrows(r.overrides[i], RiskRun(r, steps).overrides[i]) {
        assert OverrideGrows(r.overrides[i], r1.overrides[i]);
        assert OverrideGrows(r1.overrides[i], RiskRun(r1, steps[1..]).overrides[i]);
      }
    }
  }

  /** An override the account could still spend, whatever version it was stamped with. */
  predicate Spendable(o: Override, account: string, now: int) {
    o.account == account && o.state == Reserved && o.expiresAt > now
  }

  /** Consuming at the current version finds a row exactly when an unexpired reserved override exists at all;
      the version test in the query never hides one. */
  lemma ConsumeAtCurrentVersion(r: Risk, account: string, now: int)
    requires RiskInv(r)
    ensures (exists i: nat :: Eldest(r.overrides, i, account, PolicyOf(r, account).version, now))
       <==> (exists i | 0 <= i < |r.overrides| :: Spendable(r.overrides[i], account, now))
  {
    var v := PolicyOf(r, account).version;
    if i :| 0 <= i < |r.overrides| && Spendable(r.overrides[i], account, now) {
      assert CurrentIfReserved(r, r.overrides[i]);
      var e := EldestExists(r.overrides, i, account, v, now);
    }
  }

  /** The ordering always has a first candidate when it has one. */
  lemma EldestExists(os: seq<Override>, i: nat, account: string, version: nat, now: int) returns (e: nat)
    requires i < |os| && Candidate(os[i], account, version, now)
    ensures Eldest(os, e, account, version, now)
  {
    e := i;
    var n := 0;
    while n < |os|
      invariant 0 <= n <= |os|
      invariant e < |os| && Candidate(os[e], account, version, now)
      invariant forall j | 0 <= j < n && j != e && Candidate(os[j], account, version, now) :: Before(os, e, j)
    {
      if n != e && Candidate(os[n], account, version, now) && Before(os, n, e) {
        e := n;
      }
      n := n + 1;
    }
  }

  /** A stale version finds nothing: after a change, a call that read the old policy cannot spend an override. */
  lemma StaleVersionFindsNothing(r: Risk, account: string, version: nat, now: int)
    requires RiskInv(r) && version != PolicyOf(r, account).version
    ensures forall i: nat :: !Eldest(r.overrides, i, account, version, now)
  {
    forall i: nat ensures !Eldest(r.overrides, i, account, version, now) {
      assert i < |r.overrides| ==> CurrentIfReserved(r, r.overrides[i]);
    }
  }
}
