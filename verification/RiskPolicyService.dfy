/** `RiskPolicyService`: the policy and override tables, updated in place; each method is one transaction. */
module RiskPolicyTables {
  import opened Basics
  import opened RiskRules

  class RiskPolicyService {
    var accounts: set<string>
    var policies: map<string, Policy>
    var overrides: seq<Override>

    constructor ()
      ensures accounts == {} && policies == map[] && overrides == []
    {
      accounts, policies, overrides := {}, map[], [];
    }

    /** A new account has no policy yet: nothing else changes. */
    method AddAccount(account: string)
      modifies `accounts
      ensures accounts == old(accounts) + {account}
    {
      accounts := accounts + {account};
    }

    function Tables(): Risk
      reads this
    {
      Risk(policies, overrides)
    }

    method SetRiskPolicy(account: string, patch: Patch, now: int) returns (res: Result<Policy>)
      modifies `policies, `overrides
      ensures if (patch.maxNotional != None && patch.maxNotional.value <= 0.0)
                 || (patch.maxExposure != None && patch.maxExposure.value <= 0.0) then res == Err(InvalidRequest)
              else if account !in accounts then res == Err(AccountNotFound)
              else account in policies && res == Ok(policies[account])
      ensures res.Ok? ==> Tables() == SetPolicy(old(Tables()), account, patch, now)
      ensures res.Ok? ==> SetInFull(old(Tables()), account, patch, now, Tables())
      ensures res.Err? ==> Tables() == old(Tables())
    {
      SetExactly(Tables(), account, patch, now);
      if !ValidPatch(patch) {
        return Err(InvalidRequest);
      }
      if account !in accounts {
        return Err(AccountNotFound);
      }
      var prev := PolicyOf(Tables(), account);
      var merged := Merge(prev, patch);
      var changed := account !in policies || merged != prev;
      if changed {
        merged := merged.(version := prev.version + 1);
        policies := policies[account := merged];
        ReconcileStaleOverrides(account, merged.version, now);
      }
      return Ok(merged);
    }

    method ReconcileStaleOverrides(account: string, keep: nat, now: int)
      modifies `overrides
      ensures overrides == CloseStale(old(overrides), account, keep, now, |old(overrides)|)
    {
      var i := 0;
      while i < |overrides|
        invariant 0 <= i <= |overrides| == |old(overrides)|
        invariant overrides == CloseStale(old(overrides), account, keep, now, i)
      {
        if Stale(overrides[i], account, keep) {
          overrides := overrides[i := overrides[i].(state := Reconciled(PolicyChanged, now))];
        }
        i := i + 1;
      }
    }

    method CreateOverride(account: string, idem: string, now: int, expiresAt: int) returns (res: Result<Override>)
      modifies `overrides
      ensures res.Ok? <==> (expiresAt > now && account in accounts)
      ensures res.Ok? ==> Tables() == Create(old(Tables()), account, idem, now, expiresAt)
      ensures res.Ok? ==> CreateInFull(old(Tables()), account, idem, now, expiresAt, Tables(), res.value)
      ensures res.Err? ==> res.error == if expiresAt <= now then InvalidRequest else AccountNotFound
      ensures res.Err? ==> Tables() == old(Tables())
    {
      if expiresAt <= now {
        return Err(InvalidRequest);
      }
      if account !in accounts {
        return Err(AccountNotFound);
      }
      var i := 0;
      while i < |overrides|
        invariant 0 <= i <= |overrides|
        invariant forall j | 0 <= j < i :: !Named(overrides[j], account, idem)
      {
        if Named(overrides[i], account, idem) {
          CreatedExactly(Tables(), account, idem, now, expiresAt, overrides[i]);
          return Ok(overrides[i]);
        }
        i := i + 1;
      }
      var o := Override(account, PolicyOf(Tables(), account).version, idem, Reserved, now, expiresAt);
      CreatedExactly(Tables(), account, idem, now, expiresAt, o);
      overrides := overrides + [o];
      return Ok(o);
    }

    /** The row spent, if any: the eldest candidate. */
    method ConsumeOverride(account: string, version: nat, spender: string, now: int) returns (spent: Option<nat>)
      modifies `overrides
      ensures spent.Some? <==> exists i | 0 <= i < |old(overrides)| :: Candidate(old(overrides)[i], account, version, now)
      ensures spent.None? ==> forall o | o in overrides ::
                !(o.account == account && o.version == version && o.state == Reserved && now < o.expiresAt)
      ensures spent.Some? ==> Eldest(old(overrides), spent.value, account, version, now)
      ensures spent.Some? ==> Tables() == Consume(old(Tables()), spent.value, spender, now)
      ensures spent.Some? ==> SpendInFull(old(Tables()), account, version, spender, now, spent.value, Tables())
      ensures spent.None? ==> Tables() == old(Tables())
    {
      spent := None;
      var i := 0;
      while i < |overrides|
        invariant 0 <= i <= |overrides|
        invariant spent.Some? ==> spent.value < i && Candidate(overrides[spent.value], account, version, now)
        invariant forall j | 0 <= j < i && Candidate(overrides[j], account, version, now) ::
                    spent.Some? && (j == spent.value || Before(overrides, spent.value, j))
      {
        if Candidate(overrides[i], account, version, now) && (spent.None? || Before(overrides, i, spent.value)) {
          spent := Some(i);
        }
        i := i + 1;
      }
      if spent.Some? {
        SpentExactly(Tables(), account, version, spender, now, spent.value);
        overrides := overrides[spent.value := overrides[spent.value].(state := Applied(spender, now))];
      }
    }

    method ReconcileOverrides(now: int) returns (closed: nat)
      modifies `overrides
      ensures Tables() == Expire(old(Tables()), now)
      ensures closed == OverdueCount(old(overrides), now, |old(overrides)|)
      ensures ExpireInFull(old(Tables()), now, Tables(), closed)
    {
      ExpiredExactly(Tables(), now);
      closed := 0;
      var i := 0;
      while i < |overrides|
        invariant 0 <= i <= |overrides| == |old(overrides)|
        invariant overrides == CloseOverdue(old(overrides), now, i)
        invariant closed == OverdueCount(old(overrides), now, i)
      {
        if Overdue(overrides[i], now) {
          overrides := overrides[i := overrides[i].(state := Reconciled(Expired, now))];
          closed := closed + 1;
        }
        i := i + 1;
      }
    }
  }
}
