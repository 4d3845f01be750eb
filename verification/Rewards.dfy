/** Paying a block producer's reward: commission to the validator, the rest to its stakers by
    floored shares, the dust back to the validator. */
module Rewards {
  import opened Primitives
  import opened Nonlinear
  import opened Accounts
  import opened Staking

  // ----- splitting

  /** Release-mode arithmetic: the product and the difference wrap. */
  function Commission(reward: u128, bps: u128): u128 {
    Divided(reward * bps % TWO128, 10_000)
  }

  function Divided(n: u128, d: u128): u128
    requires 0 < d
  {
    DivBounds(n, d);
    DivLe(n, d, U128_MAX);
    MulMono(1, d, U128_MAX + 1);
    n / d
  }

  function StakerPart(reward: u128, bps: u128): u128 {
    WrapSub(reward, Commission(reward, bps))
  }

  /** The two parts add up to the reward exactly when the wrapped product is less than 10000 times
      the next amount up; where it does not wrap that is a commission of at most 100%, or of so
      little more that it is rounded away. Otherwise they exceed the reward by 2^128. */
  lemma SplitExactIff(reward: u128, bps: u128)
    ensures Commission(reward, bps) + StakerPart(reward, bps) == reward
       <==> reward * bps % TWO128 < 10_000 * (reward + 1)
    ensures reward * bps <= U128_MAX ==>
              (Commission(reward, bps) + StakerPart(reward, bps) == reward
               <==> bps <= 10_000 || reward * (bps - 10_000) < 10_000)
    ensures Commission(reward, bps) + StakerPart(reward, bps) == reward
         || Commission(reward, bps) + StakerPart(reward, bps) == reward + TWO128
  {
    var n := reward * bps % TWO128;
    DivBounds(n, 10_000);
    if n < 10_000 * (reward + 1) {
      DivLe(n, 10_000, reward);
    } else {
      DivGe(n, 10_000, reward + 1);
    }
    if reward * bps <= U128_MAX {
      MulMono2(0, reward, 0, bps);
      DivUnique(reward * bps, TWO128, 0);
      assert reward * bps == reward * (bps - 10_000) + 10_000 * reward;
      if bps <= 10_000 {
        MulMono(bps, 10_000, reward);
      }
    }
  }

  /** A commission of at most 100% never exceeds the reward, even where the product wraps. */
  lemma SplitExact(reward: u128, bps: u128)
    requires bps <= 10_000
    ensures Commission(reward, bps) <= reward
    ensures Commission(reward, bps) + StakerPart(reward, bps) == reward
  {
    MulMono2(0, reward, 0, bps);
    MulMono(bps, 10_000, reward);
    Unwrapped(reward * bps);
    DivLe(reward * bps % TWO128, 10_000, reward);
  }

  // ----- percentages

  /** A percentage of an amount, floored; the product wraps. */
  function Percent(total: u128, pct: u128): u128 {
    Divided(total * pct % TWO128, 100)
  }

  lemma FloorsOfParts(x: nat, y: nat, total: nat)
    requires x + y <= 100 * total
    ensures x / 100 + y / 100 <= total
    ensures x + y == 100 * total ==> (x / 100 + y / 100 == total <==> x % 100 == 0)
    ensures x + y <= 100 * total - 100 ==> x / 100 + y / 100 < total
  {
  }

  lemma Unwrapped(n: nat)
    ensures n % TWO128 <= n
    ensures n < TWO128 ==> n % TWO128 == n
    ensures TWO128 <= n ==> n % TWO128 <= n - TWO128
  {
    DivBounds(n, TWO128);
    if n < TWO128 {
      DivUnique(n, TWO128, 0);
    } else {
      DivGe(n, TWO128, 1);
      MulMono(1, n / TWO128, TWO128);
    }
  }

  /** Splitting by complementary percentages (80 and 20 of a block reward, 70 and 30 of the gas
      fees) never hands out more than there is, and hands out all of it exactly when the division
      is even and neither product wraps. */
  lemma PercentSplitIff(total: u128, pct: u128)
    requires pct <= 100
    ensures Percent(total, pct) + Percent(total, 100 - pct) <= total
    ensures Percent(total, pct) + Percent(total, 100 - pct) == total
            <==> total * pct < TWO128 && total * (100 - pct) < TWO128 && total * pct % 100 == 0
  {
    var x, y := total * pct, total * (100 - pct);
    MulMono2(0, total, 0, pct);
    MulMono2(0, total, 0, 100 - pct);
    assert x + y == 100 * total;
    Unwrapped(x);
    Unwrapped(y);
    FloorsOfParts(x % TWO128, y % TWO128, total);
  }

  // ----- shares

  function SaturatingMul(a: u128, b: u128): u128 {
    MulMono2(0, a, 0, b);
    if a * b > U128_MAX then U128_MAX else a * b
  }

  function ShareOf(stake: u128, pool: u128, total: u128): u128
    requires 0 < total
  {
    Divided(SaturatingMul(stake, pool), total)
  }

  lemma ShareBelowFraction(stake: u128, pool: u128, total: u128)
    requires 0 < total
    ensures ShareOf(stake, pool, total) * total <= stake * pool
  {
    MulMono2(0, stake, 0, pool);
    DivBounds(SaturatingMul(stake, pool), total);
  }

  ghost function DelegatorShares(ds: seq<Delegation>, pool: u128, total: u128): nat
    requires 0 < total
  {
    if ds == [] then 0 else DelegatorShares(ds[..|ds| - 1], pool, total) + ShareOf(ds[|ds| - 1].amount, pool, total)
  }

  ghost function SharesTo(ds: seq<Delegation>, x: Address, pool: u128, total: u128): nat
    requires 0 < total
  {
    if ds == [] then 0
    else SharesTo(ds[..|ds| - 1], x, pool, total)
         + (if ds[|ds| - 1].delegator == x then ShareOf(ds[|ds| - 1].amount, pool, total) else 0)
  }

  lemma {:induction false} SharesBelowFraction(ds: seq<Delegation>, pool: u128, total: u128)
    requires 0 < total
    ensures DelegatorShares(ds, pool, total) * total <= Delegated(ds) * pool
    decreases |ds|
  {
    if ds != [] {
      var init, last := ds[..|ds| - 1], ds[|ds| - 1];
      assert ds == init + [last];
      DelegatedAppend(init, last);
      SharesBelowFraction(init, pool, total);
      ShareBelowFraction(last.amount, pool, total);
      AddFractions(DelegatorShares(init, pool, total), ShareOf(last.amount, pool, total), Delegated(init), last.amount, pool, total);
    }
  }

  lemma AddFractions(x: int, y: int, a: int, b: int, pool: int, total: int)
    requires x * total <= a * pool && y * total <= b * pool
    ensures (x + y) * total <= (a + b) * pool
  {
    assert (x + y) * total == x * total + y * total;
    assert (a + b) * pool == a * pool + b * pool;
  }

  /** Where the entries are within the total, as in sound books, the floored shares of validator and
      delegators fit in the pool. */
  lemma SharesFit(s: Stake, pool: u128)
    requires 0 < s.total && s.self + Delegated(s.delegations) <= s.total
    ensures ShareOf(s.self, pool, s.total) + DelegatorShares(s.delegations, pool, s.total) <= pool
  {
    var x, y := ShareOf(s.self, pool, s.total), DelegatorShares(s.delegations, pool, s.total);
    ShareBelowFraction(s.self, pool, s.total);
    SharesBelowFraction(s.delegations, pool, s.total);
    AddFractions(x, y, s.self, Delegated(s.delegations), pool, s.total);
    MulMono(s.self + Delegated(s.delegations), s.total, pool);
    MulCancel(x + y, pool, s.total);
  }

  lemma NoPoolNoShares(s: Stake)
    requires 0 < s.total
    ensures ShareOf(s.self, 0, s.total) == DelegatorShares(s.delegations, 0, s.total) == 0
    ensures forall x :: SharesTo(s.delegations, x, 0, s.total) == 0
  {
    SharesBelowFraction(s.delegations, 0, s.total);
    MulCancel(DelegatorShares(s.delegations, 0, s.total), 0, s.total);
    DivUnique(0, s.total, 0);
    forall x ensures SharesTo(s.delegations, x, 0, s.total) == 0 {
      SharesToBelow(s.delegations, x, 0, s.total);
    }
  }

  lemma {:induction false} SharesToBelow(ds: seq<Delegation>, x: Address, pool: u128, total: u128)
    requires 0 < total
    ensures SharesTo(ds, x, pool, total) <= DelegatorShares(ds, pool, total)
    decreases |ds|
  {
    if ds != [] {
      SharesToBelow(ds[..|ds| - 1], x, pool, total);
    }
  }

  // ----- the payout

  /** A credit whose error the caller drops: one that does not fit is skipped. */
  function Credit(b: Balances, a: Address, amount: u128): Balances {
    if BalanceOf(b, a) + amount <= U128_MAX then b[a := BalanceOf(b, a) + amount] else b
  }

  function CreditNonzero(b: Balances, a: Address, amount: u128): Balances {
    if amount == 0 then b else Credit(b, a, amount)
  }

  /** The delegators' loop: the balances, and the sum handed out so far (saturating). */
  function PayDelegators(b: Balances, start: u128, ds: seq<Delegation>, pool: u128, total: u128): (Balances, u128)
    requires 0 < total
  {
    if ds == [] then (b, start)
    else
      var (b', paid) := PayDelegators(b, start, ds[..|ds| - 1], pool, total);
      var last := ds[|ds| - 1];
      var share := ShareOf(last.amount, pool, total);
      (CreditNonzero(b', last.delegator, share), SaturatingAdd(paid, share))
  }

  function PayStakers(b: Balances, validator: Address, s: Stake, pool: u128): Balances
    requires 0 < s.total
  {
    var selfShare := ShareOf(s.self, pool, s.total);
    var (b', paid) :=
      PayDelegators(CreditNonzero(b, validator, selfShare), selfShare, s.delegations, pool, s.total);
    if paid < pool then Credit(b', validator, pool - paid) else b'
  }

  function Distribute(b: Balances, validator: Address, stake: Option<Stake>, reward: u128): Balances {
    if reward == 0 then b
    else if stake.None? || stake.value.total == 0 then Credit(b, validator, reward)
    else
      var s := stake.value;
      var b1 := CreditNonzero(b, validator, Commission(reward, s.commissionBps));
      var pool := StakerPart(reward, s.commissionBps);
      if pool == 0 then b1 else PayStakers(b1, validator, s, pool)
  }

  class RewardLedger {
    var balances: Balances

    method AddBalance(a: Address, amount: u128)
      modifies this
      ensures balances == Credit(old(balances), a, amount)
    {
      if BalanceOf(balances, a) + amount <= U128_MAX {
        balances := balances[a := BalanceOf(balances, a) + amount];
      }
    }

    method DistributeToStakers(validator: Address, s: Stake, pool: u128)
      requires 0 < s.total
      modifies this
      ensures balances == PayStakers(old(balances), validator, s, pool)
    {
      var distributed: u128 := ShareOf(s.self, pool, s.total);
      if distributed > 0 {
        AddBalance(validator, distributed);
      }
      ghost var b0, start := balances, distributed;
      var ds := s.delegations;
      for i := 0 to |ds|
        invariant (balances, distributed) == PayDelegators(b0, start, ds[..i], pool, s.total)
      {
        assert ds[..i + 1][..i] == ds[..i];
        var share := ShareOf(ds[i].amount, pool, s.total);
        if share != 0 {
          AddBalance(ds[i].delegator, share);
          distributed := SaturatingAdd(distributed, share);
        }
      }
      assert ds[..|ds|] == ds;
      if distributed < pool {
        AddBalance(validator, pool - distributed);
      }
    }

    method DistributeProducerReward(validator: Address, stake: Option<Stake>, reward: u128)
      modifies this
      ensures balances == Distribute(old(balances), validator, stake, reward)
    {
      if reward == 0 {
        return;
      }
      if stake.None? || stake.value.total == 0 {
        AddBalance(validator, reward);
        return;
      }
      var s := stake.value;
      var commission := Commission(reward, s.commissionBps);
      if commission > 0 {
        AddBalance(validator, commission);
      }
      var pool := StakerPart(reward, s.commissionBps);
      if pool == 0 {
        return;
      }
      DistributeToStakers(validator, s, pool);
    }
  }

  // ----- what is paid

  lemma CreditPays(b: Balances, a: Address, amount: u128)
    requires TotalOf(b) + amount <= U128_MAX
    ensures forall x: Address :: BalanceOf(Credit(b, a, amount), x) == BalanceOf(b, x) + if x == a then amount else 0
    ensures forall x: Address :: BalanceOf(CreditNonzero(b, a, amount), x) == BalanceOf(b, x) + if x == a then amount else 0
    ensures TotalOf(Credit(b, a, amount)) == TotalOf(CreditNonzero(b, a, amount)) == TotalOf(b) + amount
  {
    BalanceCounted(b, a);
    TotalSet(b, a, BalanceOf(b, a) + amount);
  }

  lemma {:induction false} DelegatorsPaid(b: Balances, start: u128, ds: seq<Delegation>, pool: u128, total: u128)
    requires 0 < total
    requires TotalOf(b) + DelegatorShares(ds, pool, total) <= U128_MAX
    ensures var (b', paid) := PayDelegators(b, start, ds, pool, total);
            && (forall x: Address :: BalanceOf(b', x) == BalanceOf(b, x) + SharesTo(ds, x, pool, total))
            && TotalOf(b') == TotalOf(b) + DelegatorShares(ds, pool, total)
            && paid == Min(U128_MAX, start + DelegatorShares(ds, pool, total))
    decreases |ds|
  {
    if ds != [] {
      var init, last := ds[..|ds| - 1], ds[|ds| - 1];
      DelegatorsPaid(b, start, init, pool, total);
      var b' := PayDelegators(b, start, init, pool, total).0;
      CreditPays(b', last.delegator, ShareOf(last.amount, pool, total));
    }
  }

  /** The sum of the floored shares. */
  ghost function Shares(s: Stake, pool: u128): nat
    requires 0 < s.total
  {
    ShareOf(s.self, pool, s.total) + DelegatorShares(s.delegations, pool, s.total)
  }

  /** What the payout hands out in all: the commission, and the larger of the pool and the shares. */
  ghost function Payout(stake: Option<Stake>, reward: u128): nat {
    if stake.None? || stake.value.total == 0 then reward
    else
      var s := stake.value;
      var pool := StakerPart(reward, s.commissionBps);
      Commission(reward, s.commissionBps) + if Shares(s, pool) < pool then pool else Shares(s, pool)
  }

  /** What one address receives when the shares fit in the pool: a delegator its floored shares,
      the validator everything the delegators do not get, its own shares included. */
  ghost function Receives(x: Address, validator: Address, stake: Option<Stake>, reward: u128): int {
    if stake.None? || stake.value.total == 0 then
      if x == validator then reward else 0
    else
      var s := stake.value;
      var pool := StakerPart(reward, s.commissionBps);
      SharesTo(s.delegations, x, pool, s.total)
      + if x == validator then reward - DelegatorShares(s.delegations, pool, s.total) else 0
  }

  lemma StakersPaid(b: Balances, validator: Address, s: Stake, pool: u128)
    requires 0 < s.total
    requires TotalOf(b) + (if Shares(s, pool) < pool then pool else Shares(s, pool)) <= U128_MAX
    ensures var b' := PayStakers(b, validator, s, pool);
            && TotalOf(b') == TotalOf(b) + (if Shares(s, pool) < pool then pool else Shares(s, pool))
            && (Shares(s, pool) <= pool ==>
                  forall x: Address ::
                    BalanceOf(b', x) == BalanceOf(b, x) + SharesTo(s.delegations, x, pool, s.total)
                                   + if x == validator then pool - DelegatorShares(s.delegations, pool, s.total) else 0)
  {
    var selfShare := ShareOf(s.self, pool, s.total);
    var b1 := CreditNonzero(b, validator, selfShare);
    CreditPays(b, validator, selfShare);
    DelegatorsPaid(b1, selfShare, s.delegations, pool, s.total);
    var (b2, paid) := PayDelegators(b1, selfShare, s.delegations, pool, s.total);
    if paid < pool {
      CreditPays(b2, validator, pool - paid);
    }
  }

  /** The payout adds `Payout` to the supply, and `Receives` to each address when the shares fit. */
  lemma RewardPaid(b: Balances, validator: Address, stake: Option<Stake>, reward: u128)
    requires TotalOf(b) + Payout(stake, reward) <= U128_MAX
    ensures TotalOf(Distribute(b, validator, stake, reward)) == TotalOf(b) + Payout(stake, reward)
    ensures Payout(stake, reward) == reward ==>
              forall x: Address ::
                BalanceOf(Distribute(b, validator, stake, reward), x) == BalanceOf(b, x) + Receives(x, validator, stake, reward)
  {
    if stake.None? || stake.value.total == 0 {
      CreditPays(b, validator, reward);
    } else {
      var s := stake.value;
      var commission, pool := Commission(reward, s.commissionBps), StakerPart(reward, s.commissionBps);
      CreditPays(b, validator, commission);
      if pool == 0 {
        NoPoolNoShares(s);
      } else {
        StakersPaid(CreditNonzero(b, validator, commission), validator, s, pool);
      }
    }
  }

  /** Exactly the reward is paid when the split adds up and the floored shares fit in the stakers'
      pool. */
  lemma PayoutExactWhen(s: Stake, reward: u128)
    requires 0 < s.total
    ensures Payout(Some(s), reward) == reward
       <==> Commission(reward, s.commissionBps) + StakerPart(reward, s.commissionBps) == reward
            && Shares(s, StakerPart(reward, s.commissionBps)) <= StakerPart(reward, s.commissionBps)
  {
    SplitExactIff(reward, s.commissionBps);
  }

  // ----- when every payout is exact

  /** The products of a payout of the size of the total stay within 128 bits. */
  ghost predicate Fits(s: Stake) {
    && s.self * s.total <= U128_MAX && 100_000_000 * s.total <= U128_MAX
    && forall i :: 0 <= i < |s.delegations| ==> s.delegations[i].amount * s.total <= U128_MAX
  }

  lemma WholeTotal(s: Stake)
    requires 0 < s.total && Fits(s)
    ensures Shares(s, s.total) == s.self + Delegated(s.delegations)
  {
    WholeShare(s.self, s.total);
    WholeShares(s.delegations, s.total);
  }

  /** The shares fit in every pool exactly when the entries are within the total. */
  lemma SharesFitIff(s: Stake)
    requires 0 < s.total && Fits(s)
    ensures (forall pool: u128 :: Shares(s, pool) <= pool) <==> s.self + Delegated(s.delegations) <= s.total
  {
    if s.self + Delegated(s.delegations) <= s.total {
      forall pool: u128 ensures Shares(s, pool) <= pool {
        SharesFit(s, pool);
      }
    } else {
      WholeTotal(s);
    }
  }

  /** A reward that leaves the stakers exactly `pool`. */
  lemma RewardFor(pool: u128, bps: u128) returns (reward: u128)
    requires bps < 10_000 && 100_000_000 * pool <= U128_MAX
    ensures StakerPart(reward, bps) == pool
  {
    var keep := 10_000 - bps;
    var n := 10_000 * pool;
    DivBounds(n, keep);
    var r := n / keep;
    DivLe(n, keep, n);
    MulMono(1, keep, n + 1);
    reward := r;
    var paid := r - pool;
    assert r * keep == 10_000 * r - r * bps;
    MulMono2(0, r, 0, bps);
    MulMono(bps, 10_000, r);
    DivUnique(r * bps, TWO128, 0);
    DivUnique(r * bps, 10_000, paid);
  }

  /** Over 100%, a reward of 10000 units is split into more than itself. */
  lemma OverFullSplit(bps: u128)
    requires 10_000 < bps <= 65_535
    ensures Commission(10_000, bps) + StakerPart(10_000, bps) != 10_000
  {
    SplitExactIff(10_000, bps);
  }

  /** Every reward is paid exactly, dust included, when the commission is below 100% and the entries
      are within the total; where the products fit, only then. */
  lemma PayoutExactIff(s: Stake)
    requires 0 < s.total && s.commissionBps <= 65_535 && s.commissionBps != 10_000
    ensures s.commissionBps < 10_000 && s.self + Delegated(s.delegations) <= s.total ==> PaysExactly(s)
    ensures Fits(s) ==> (PaysExactly(s) <==> s.commissionBps < 10_000 && s.self + Delegated(s.delegations) <= s.total)
  {
    if s.commissionBps > 10_000 {
      OverFullSplit(s.commissionBps);
      PayoutExactWhen(s, 10_000);
    } else if s.self + Delegated(s.delegations) <= s.total {
      forall reward: u128 ensures Payout(Some(s), reward) == reward {
        SplitExact(reward, s.commissionBps);
        SharesFit(s, StakerPart(reward, s.commissionBps));
        PayoutExactWhen(s, reward);
      }
    } else if Fits(s) {
      var reward := RewardFor(s.total, s.commissionBps);
      WholeTotal(s);
      PayoutExactWhen(s, reward);
    }
  }

  ghost predicate PaysExactly(s: Stake) {
    forall reward: u128 :: Payout(Some(s), reward) == reward
  }

  /** At 100% the stakers get nothing, as long as the product fits. */
  lemma FullCommission(s: Stake, reward: u128)
    requires s.commissionBps == 10_000 && 10_000 * reward <= U128_MAX
    ensures Payout(Some(s), reward) == reward
  {
    if 0 < s.total {
      DivUnique(reward * 10_000, TWO128, 0);
      DivUnique(reward * 10_000, 10_000, reward);
      NoPoolNoShares(s);
    }
  }

  /** After a slash of sound books every reward is still paid exactly when the self-stake covered
      the slash, nothing is delegated, or nothing is left. Otherwise some reward is overpaid. */
  lemma SlashedPaysExactlyIff(s: Stake, amount: u128)
    requires Sound(s) && s.commissionBps < 10_000 && Fits(Slashed(s, amount))
    ensures PaysExactly(Slashed(s, amount))
       <==> amount <= s.self || Delegated(s.delegations) == 0 || s.total <= amount
  {
    if 0 < Slashed(s, amount).total {
      PayoutExactIff(Slashed(s, amount));
    }
  }

  // ----- what a share is

  /** A share is the floored fraction exactly when its product fits 128 bits, or exceeds them within
      the last unit of the cut quotient. */
  lemma ShareExactIff(stake: u128, pool: u128, total: u128)
    requires 0 < total
    ensures ShareOf(stake, pool, total) <= stake * pool / total
    ensures ShareOf(stake, pool, total) == stake * pool / total
       <==> stake * pool <= U128_MAX || stake * pool < (U128_MAX / total + 1) * total
  {
    MulMono2(0, stake, 0, pool);
    DivLe(stake * pool, total, U128_MAX / total);
    if stake * pool > U128_MAX {
      DivMono(U128_MAX, stake * pool, total);
    }
  }

  /** At 18 decimals the cut is real: of a reward of one token, a delegator with a million of two
      million staked tokens gets less than a thousandth instead of a half; the rest is dust and
      goes to the validator. */
  lemma LargeStakesCut(d: Address, validator: Address)
    requires d != validator
    ensures var million, one := 1_000_000_000_000_000_000_000_000, 1_000_000_000_000_000_000;
            var s := Stake(2 * million, million, 0, [Delegation(d, million)]);
            && Sound(s) && million * one / (2 * million) == one / 2
            && 1000 * Receives(d, validator, Some(s), one) < one
  {
    var million: u128, one: u128 := 1_000_000_000_000_000_000_000_000, 1_000_000_000_000_000_000;
    var ds := [Delegation(d, million)];
    assert ds[1..] == [] && ds[..0] == [];
    assert Delegated(ds) == million;
    NoCommission(one);
    assert ShareOf(million, one, 2 * million) == U128_MAX / (2 * million);
    assert SharesTo(ds, d, one, 2 * million) == ShareOf(million, one, 2 * million);
  }

  /** By how much: after a slash past the self-stake a zero-commission reward of the size of the
      remaining stake pays every delegator its whole entry, together more than the reward. */
  lemma OverSlashOverpays(s: Stake, amount: u128)
    requires Sound(s) && s.commissionBps == 0 && s.self < amount < s.total
    requires forall i :: 0 <= i < |s.delegations| ==> s.delegations[i].amount * (s.total - amount) <= U128_MAX
    ensures Payout(Some(Slashed(s, amount)), s.total - amount) == Delegated(s.delegations) > s.total - amount
  {
    var reward: u128 := s.total - amount;
    assert Slashed(s, amount) == Stake(reward, 0, 0, s.delegations);
    NoCommission(reward);
    WholeShare(0, reward);
    WholeShares(s.delegations, reward);
  }

  lemma {:induction false} WholeShares(ds: seq<Delegation>, pool: u128)
    requires 0 < pool && forall i :: 0 <= i < |ds| ==> ds[i].amount * pool <= U128_MAX
    ensures DelegatorShares(ds, pool, pool) == Delegated(ds)
    decreases |ds|
  {
    if ds != [] {
      var init, last := ds[..|ds| - 1], ds[|ds| - 1];
      WholeShares(init, pool);
      WholeShare(last.amount, pool);
      assert ds == init + [last];
      DelegatedAppend(init, last);
    }
  }

  lemma NoCommission(reward: u128)
    ensures Commission(reward, 0) == 0 && StakerPart(reward, 0) == reward
  {
    SplitExact(reward, 0);
    assert reward * 0 == 0;
  }

  lemma WholeShare(stake: u128, pool: u128)
    requires 0 < pool && stake * pool <= U128_MAX
    ensures ShareOf(stake, pool, pool) == stake
  {
    DivUnique(stake * pool, pool, stake);
  }
}
