/** Amounts held per address, and their total. */
module Accounts {
  import opened Primitives
  import opened MapSums

  type Balances = map<Address, u128>

  function BalanceOf(b: Balances, a: Address): u128 {
    if a in b then b[a] else 0
  }

  ghost function AmountWeight(): (Address, u128) -> nat {
    (a: Address, v: u128) => v
  }

  ghost function TotalOf(b: Balances): nat {
    Sum(b, AmountWeight())
  }

  lemma TotalSet(b: Balances, a: Address, v: u128)
    ensures TotalOf(b[a := v]) == TotalOf(b) - BalanceOf(b, a) + v
    ensures BalanceOf(b, a) <= TotalOf(b)
  {
    SumSet(b, AmountWeight(), a, BalanceOf(b, a), v);
  }

  lemma BalanceCounted(b: Balances, a: Address)
    ensures BalanceOf(b, a) <= TotalOf(b)
  {
    SumElement(b, AmountWeight(), a);
  }
}
