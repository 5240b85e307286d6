/** Account balances, and what they add up to. */
module Ledger {

  type Balances = map<nat, nat>

  function Of(b: Balances, account: nat): nat {
    if account in b then b[account] else 0
  }

  ghost function Total(b: Balances): nat
    decreases |b|
  {
    if b == map[] then 0
    else
      var a :| a in b;
      b[a] + Total(b - {a})
  }

  lemma {:induction false} TotalTake(b: Balances, a: nat)
    requires a in b
    ensures Total(b) == b[a] + Total(b - {a})
    decreases |b|
  {
    var x :| x in b && Total(b) == b[x] + Total(b - {x});
    if x != a {
      TotalTake(b - {x}, a);
      TotalTake(b - {a}, x);
      assert b - {x} - {a} == b - {a} - {x};
    }
  }

  /** Changing one balance changes the total by as much. */
  lemma TotalPut(b: Balances, a: nat, amount: nat)
    ensures Total(b[a := amount]) == Total(b) + amount - Of(b, a)
  {
    TotalTake(b[a := amount], a);
    if a in b {
      TotalTake(b, a);
      assert b[a := amount] - {a} == b - {a};
    } else {
      assert b[a := amount] - {a} == b;
    }
  }

  /** Balances, the core balances that mirror them, and the supply. */
  class Accounts {
    /** What an account has pledged or leased out and cannot spend. */
    const reserved: nat -> nat
    var balances: Balances
    var core: Balances
    var supply: int

    ghost predicate Valid()
      reads this
    {
      forall a :: Of(core, a) == Of(balances, a)
    }

    constructor (balances: Balances, supply: int, reserved: nat -> nat)
      ensures Valid() && this.balances == balances && this.supply == supply
    {
      this.balances, core, this.supply, this.reserved := balances, balances, supply, reserved;
    }

    ghost predicate CanAdjust(account: nat, delta: int)
      reads this
    {
      delta >= 0 || (Of(balances, account) + delta >= 0 && Of(core, account) - reserved(account) + delta >= 0)
    }

    /** Credits or debits an account; refused if it has not that much to spend. */
    method AdjustBalance(account: nat, delta: int) returns (ok: bool)
      requires Valid()
      modifies this`balances, this`core
      ensures Valid() && (ok <==> old(CanAdjust(account, delta)))
      ensures !ok ==>
        delta < 0 && (Of(balances, account) < 0 - delta || Of(balances, account) < reserved(account) - delta)
      ensures ok && delta < 0 ==> 0 <= Of(balances, account) && reserved(account) <= Of(balances, account)
      ensures forall a :: Of(balances, a) == Of(old(balances), a) + (if ok && a == account then delta else 0)
      ensures Total(balances) == Total(old(balances)) + (if ok then delta else 0)
    {
      hide Total;
      if delta == 0 {
        return true;
      }
      if account !in balances {
        if delta < 0 {
          return false;
        }
      } else if delta < 0 && balances[account] < -delta {
        return false;
      }
      if delta < 0 && Of(core, account) - reserved(account) < -delta {
        return false;
      }
      TotalPut(balances, account, Of(balances, account) + delta);
      balances := balances[account := Of(balances, account) + delta];
      core := core[account := Of(core, account) + delta];
      forall a ensures Of(core, a) == Of(balances, a) {
        assert Of(old(core), a) == Of(old(balances), a);
      }
      ok := true;
    }
  }
}
