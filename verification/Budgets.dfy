/** The allowance a query spends. */
module Budgets {
  import opened Options

  /** Spending fails for good once the allowance is gone; a budget that is not
  bounded stands for the engine's nil budget. pool is the least allowance left
  in a pool that encloses the budget and is charged with it, if there is one. */
  class SearchBudget {
    const bounded: bool
    var remaining: nat
    var pool: Option<nat>
    var exhausted: bool

    constructor (bounded: bool, limit: nat, pool: Option<nat>)
      ensures this.bounded == bounded && remaining == limit && this.pool == pool && !exhausted
    {
      this.bounded := bounded;
      remaining, this.pool, exhausted := limit, pool, false;
    }

    /** How many steps are left to spend. */
    function Allowance(): nat
      reads this
    {
      if pool.Some? && pool.value < remaining then pool.value else remaining
    }

    /** Only a bounded budget runs out, and then nothing is left to spend. */
    predicate Valid()
      reads this
    {
      exhausted ==> bounded && Allowance() == 0
    }

    /** A step is charged to the budget and to its pool, or to neither. */
    method Spend() returns (ok: bool)
      requires Valid()
      modifies this
      ensures Valid()
      ensures ok <==> !bounded || old(Allowance()) > 0
      ensures exhausted <==> old(exhausted) || !ok
      ensures !bounded || !ok ==> remaining == old(remaining) && pool == old(pool)
      ensures bounded && ok ==> remaining == old(remaining) - 1
      ensures bounded && ok ==> pool == if old(pool).Some? then Some(old(pool).value - 1) else None
    {
      if !bounded {
        return true;
      }
      if remaining == 0 {
        exhausted := true;
        return false;
      }
      if pool.Some? {
        if pool.value == 0 {
          exhausted := true;
          return false;
        }
        pool := Some(pool.value - 1);
      }
      remaining := remaining - 1;
      ok := true;
    }

    /** Spends a nested query's cost, all of it or until nothing is left. */
    method SpendAll(cost: nat) returns (ok: bool)
      requires Valid()
      modifies this
      ensures Valid() && Allowance() <= old(Allowance())
      ensures ok <==> !bounded || old(Allowance()) >= cost
      ensures exhausted <==> old(exhausted) || !ok
    {
      ok := true;
      var spent := 0;
      while spent < cost
        invariant Valid() && ok && spent <= cost
        invariant bounded ==> Allowance() + spent == old(Allowance())
        invariant !bounded ==> Allowance() == old(Allowance())
        invariant exhausted == old(exhausted)
      {
        ok := Spend();
        if !ok {
          return;
        }
        spent := spent + 1;
      }
    }
  }
}
