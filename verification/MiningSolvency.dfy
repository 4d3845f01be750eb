/** Total mining payouts never exceed what was accrued, whatever the interleaving of updates and
    claims, and exactly when that is the rewards of the epochs that passed. */
module MiningSolvency {
  import opened Primitives
  import opened Nonlinear
  import opened PoolMath
  import opened MapSums
  import opened Accounts
  import opened Mining

  datatype Event = Advance(epoch: nat) | Take(user: Address)

  /** A ledger with what everybody was paid and the rewards of the epochs it advanced over, an
      epoch counting each time. */
  datatype History = History(state: Ledger, paid: map<Address, nat>, accrued: nat)

  ghost function PaidTo(h: History, user: Address): nat {
    if user in h.paid then h.paid[user] else 0
  }

  ghost function Step(h: History, positions: Balances, supply: u128, ev: Event): History {
    match ev
    case Advance(epoch) => History(Updated(h.state, epoch, supply), h.paid, h.accrued + Rewards(h.state, h.state.last, epoch))
    case Take(user) =>
      var lp := BalanceOf(positions, user);
      History(Claimed(h.state, lp, user), h.paid[user := PaidTo(h, user) + Pending(h.state, lp, user)], h.accrued)
  }

  ghost function Play(h: History, positions: Balances, supply: u128, evs: seq<Event>): History {
    if evs == [] then h
    else Step(Play(h, positions, supply, evs[..|evs| - 1]), positions, supply, evs[|evs| - 1])
  }

  ghost function Rewards(s: Ledger, from: nat, upto: nat): nat
    decreases upto
  {
    if upto <= from then 0 else Rewards(s, from, upto - 1) + Reward(s, upto)
  }

  ghost function PaidWeight(): (Address, nat) -> nat {
    (a: Address, v: nat) => v
  }

  ghost function TotalPaid(h: History): nat {
    Sum(h.paid, PaidWeight())
  }

  // ----- the invariant

  /** The accumulator is covered by the rewards accrued. */
  ghost predicate Covered(s0: Ledger, h: History, supply: u128) {
    && h.state.phases == s0.phases && h.state.start == s0.start
    && h.state.perShare * supply <= PRECISION * h.accrued
  }

  /** Each user was paid no more than their share of the accumulator, and the recorded debt is
      what they were paid, unless the product no longer fits and claims pay nothing. */
  ghost predicate Accounted(h: History, lp: u128, user: Address) {
    && PaidTo(h, user) * PRECISION <= lp * h.state.perShare
    && Mining.ClaimOf(h.state, user).unclaimed == 0
    && (Mining.ClaimOf(h.state, user).debt == PaidTo(h, user) || lp * h.state.perShare / PRECISION > U128_MAX)
  }

  ghost predicate Inv(s0: Ledger, h: History, positions: Balances, supply: u128) {
    && Covered(s0, h, supply)
    && (forall user: Address :: Accounted(h, BalanceOf(positions, user), user))
    && h.state.distributed == Min(TotalPaid(h), U128_MAX)
  }

  // ----- updates

  lemma DeltaCovered(s: Ledger, epoch: nat, supply: u128)
    ensures Delta(s, epoch, supply) * supply <= Reward(s, epoch) * PRECISION
  {
    MulNonNegative(Reward(s, epoch), PRECISION);
    if supply != 0 {
      DivBounds(Reward(s, epoch) * PRECISION, supply);
    }
  }

  lemma {:induction false} AccruedCovered(s: Ledger, from: nat, upto: nat, supply: u128)
    ensures s.perShare <= Accrued(s, from, upto, supply)
    ensures Accrued(s, from, upto, supply) * supply <= s.perShare * supply + PRECISION * Rewards(s, from, upto)
    decreases upto
  {
    if from < upto {
      AccruedCovered(s, from, upto - 1, supply);
      DeltaCovered(s, upto, supply);
      AddCovered(Accrued(s, from, upto - 1, supply), Delta(s, upto, supply), Accrued(s, from, upto, supply), supply,
                 s.perShare * supply, Rewards(s, from, upto - 1), Reward(s, upto));
    }
  }

  lemma AddCovered(a: int, d: int, t: int, supply: int, base: int, r: int, reward: int)
    requires 0 <= supply && t <= a + d
    requires a * supply <= base + PRECISION * r && d * supply <= reward * PRECISION
    ensures t * supply <= base + PRECISION * (r + reward)
  {
    MulMono(t, a + d, supply);
    assert (a + d) * supply == a * supply + d * supply;
  }

  lemma {:induction false} RewardsSplit(s: Ledger, from: nat, mid: nat, upto: nat)
    requires from <= mid <= upto
    ensures Rewards(s, from, upto) == Rewards(s, from, mid) + Rewards(s, mid, upto)
    decreases upto
  {
    if mid < upto {
      RewardsSplit(s, from, mid, upto - 1);
    }
  }

  lemma {:induction false} RewardsSame(s: Ledger, s': Ledger, from: nat, upto: nat)
    requires s'.phases == s.phases && s'.start == s.start
    ensures Rewards(s', from, upto) == Rewards(s, from, upto)
    decreases upto
  {
    if from < upto {
      RewardsSame(s, s', from, upto - 1);
      assert Reward(s', upto) == Reward(s, upto);
    }
  }

  lemma AdvanceCovered(s0: Ledger, h: History, positions: Balances, supply: u128, epoch: nat)
    requires Covered(s0, h, supply)
    ensures Covered(s0, Step(h, positions, supply, Advance(epoch)), supply)
    ensures h.state.perShare <= Step(h, positions, supply, Advance(epoch)).state.perShare
  {
    var s := h.state;
    AccruedCovered(s, s.last, epoch, supply);
    var r := Rewards(s, s.last, epoch);
    assert PRECISION * (h.accrued + r) == PRECISION * h.accrued + PRECISION * r;
  }

  lemma AdvanceAccounted(h: History, h': History, lp: u128, user: Address)
    requires Accounted(h, lp, user) && h'.paid == h.paid && h'.state.claims == h.state.claims
    requires h.state.perShare <= h'.state.perShare
    ensures Accounted(h', lp, user)
  {
    var a, a' := h.state.perShare, h'.state.perShare;
    MulMono(a, a', lp);
    MulNonNegative(lp, a);
    DivMono(lp * a, lp * a', PRECISION);
  }

  // ----- claims

  lemma PendingIsTheRest(h: History, lp: u128, user: Address)
    requires Accounted(h, lp, user)
    ensures var paid := PaidTo(h, user) + Pending(h.state, lp, user);
            && paid * PRECISION <= lp * h.state.perShare
            && (Earned(h.state, lp) == paid || lp * h.state.perShare / PRECISION > U128_MAX)
  {
    var x := lp * h.state.perShare;
    MulNonNegative(lp, h.state.perShare);
    DivBounds(x, PRECISION);
    DivGe(x, PRECISION, PaidTo(h, user));
  }

  lemma TakeAccounted(h: History, positions: Balances, supply: u128, user: Address, other: Address)
    requires Accounted(h, BalanceOf(positions, user), user) && Accounted(h, BalanceOf(positions, other), other)
    ensures Accounted(Step(h, positions, supply, Take(user)), BalanceOf(positions, other), other)
  {
    PendingIsTheRest(h, BalanceOf(positions, user), user);
  }

  lemma TakeDistributed(h: History, positions: Balances, supply: u128, user: Address)
    requires h.state.distributed == Min(TotalPaid(h), U128_MAX)
    ensures var h' := Step(h, positions, supply, Take(user));
            h'.state.distributed == Min(TotalPaid(h'), U128_MAX)
  {
    var pending := Pending(h.state, BalanceOf(positions, user), user);
    var total: nat := PaidTo(h, user) + pending;
    SumSet(h.paid, PaidWeight(), user, PaidTo(h, user), total);
  }

  lemma StepKeeps(s0: Ledger, h: History, positions: Balances, supply: u128, ev: Event)
    requires Inv(s0, h, positions, supply)
    ensures Inv(s0, Step(h, positions, supply, ev), positions, supply)
  {
    var h' := Step(h, positions, supply, ev);
    match ev {
      case Advance(epoch) =>
        AdvanceCovered(s0, h, positions, supply, epoch);
        forall user: Address
          ensures Accounted(h', BalanceOf(positions, user), user)
        {
          assert Accounted(h, BalanceOf(positions, user), user);
          AdvanceAccounted(h, h', BalanceOf(positions, user), user);
        }
      case Take(user) =>
        forall other: Address
          ensures Accounted(h', BalanceOf(positions, other), other)
        {
          assert Accounted(h, BalanceOf(positions, user), user) && Accounted(h, BalanceOf(positions, other), other);
          TakeAccounted(h, positions, supply, user, other);
        }
        TakeDistributed(h, positions, supply, user);
    }
  }

  ghost predicate Fresh(s0: Ledger) {
    s0.perShare == 0 && s0.claims == map[] && s0.distributed == 0
  }

  ghost function Started(s0: Ledger): History {
    History(s0, map[], 0)
  }

  lemma {:induction false} PlayKeeps(s0: Ledger, positions: Balances, supply: u128, evs: seq<Event>)
    requires Fresh(s0)
    ensures Inv(s0, Play(Started(s0), positions, supply, evs), positions, supply)
  {
    if evs == [] {
      assert forall user: Address :: Accounted(Started(s0), BalanceOf(positions, user), user);
    } else {
      PlayKeeps(s0, positions, supply, evs[..|evs| - 1]);
      StepKeeps(s0, Play(Started(s0), positions, supply, evs[..|evs| - 1]), positions, supply, evs[|evs| - 1]);
    }
  }

  // ----- adding everybody up

  lemma {:induction false} SumOfShares(paid: map<Address, nat>, positions: Balances, acc: nat)
    requires forall user :: user in paid ==> paid[user] * PRECISION <= BalanceOf(positions, user) * acc
    ensures Sum(paid, PaidWeight()) * PRECISION <= TotalOf(positions) * acc
    decreases |paid|
  {
    if paid == map[] {
      MulNonNegative(TotalOf(positions), acc);
    } else {
      var user :| user in paid;
      SumPick(paid, PaidWeight(), user);
      SizeDrops(paid, user);
      var rest := Sum(paid - {user}, PaidWeight());
      if user in positions {
        SumPick(positions, AmountWeight(), user);
        SumOfShares(paid - {user}, positions - {user}, acc);
        AddShares(paid[user], rest, positions[user], TotalOf(positions - {user}), acc);
      } else {
        SumOfShares(paid - {user}, positions, acc);
        AddShares(paid[user], rest, 0, TotalOf(positions), acc);
      }
    }
  }

  lemma AddShares(x: int, rest: int, y: int, others: int, acc: int)
    requires x * PRECISION <= y * acc && rest * PRECISION <= others * acc
    ensures (x + rest) * PRECISION <= (y + others) * acc
  {
    assert (y + others) * acc == y * acc + others * acc;
  }

  /** Mining is solvent: with share positions fixed and summing to at most the supply, over any
      interleaving of updates, forward or back, and claims the total paid is at most the rewards
      of the epochs accrued, and `total_distributed` records it. */
  lemma PayoutsCovered(s0: Ledger, positions: Balances, supply: u128, evs: seq<Event>)
    requires Fresh(s0) && TotalOf(positions) <= supply
    ensures var h := Play(Started(s0), positions, supply, evs);
            TotalPaid(h) <= h.accrued && h.state.distributed == Min(TotalPaid(h), U128_MAX)
  {
    PlayKeeps(s0, positions, supply, evs);
    var h := Play(Started(s0), positions, supply, evs);
    assert forall user: Address :: user in h.paid ==> Accounted(h, BalanceOf(positions, user), user);
    SumOfShares(h.paid, positions, h.state.perShare);
    MulMono(TotalOf(positions), supply, h.state.perShare);
    MulCancel(TotalPaid(h), h.accrued, PRECISION);
  }

  // ----- counting an epoch once

  /** The epoch an update last went to. */
  ghost function LastOf(s0: Ledger, evs: seq<Event>): nat {
    if evs == [] then s0.last
    else if evs[|evs| - 1].Advance? then evs[|evs| - 1].epoch
    else LastOf(s0, evs[..|evs| - 1])
  }

  /** The highest epoch ever reached. */
  ghost function Mark(s0: Ledger, evs: seq<Event>): (m: nat)
    ensures LastOf(s0, evs) <= m && s0.last <= m
  {
    if evs == [] then s0.last
    else
      var m := Mark(s0, evs[..|evs| - 1]);
      if evs[|evs| - 1].Advance? && m < evs[|evs| - 1].epoch then evs[|evs| - 1].epoch else m
  }

  /** Up to where an event passes epochs that were already passed. */
  ghost function Again(s0: Ledger, evs: seq<Event>, ev: Event): nat {
    if !ev.Advance? then 0 else if ev.epoch < Mark(s0, evs) then ev.epoch else Mark(s0, evs)
  }

  ghost function Repeated(s0: Ledger, evs: seq<Event>): nat {
    if evs == [] then 0
    else
      var init := evs[..|evs| - 1];
      Repeated(s0, init) + Rewards(s0, LastOf(s0, init), Again(s0, init, evs[|evs| - 1]))
  }

  lemma MarkMoves(s0: Ledger, last: nat, mark: nat, epoch: nat)
    requires s0.last <= mark && last <= mark
    ensures var again := if epoch < mark then epoch else mark;
            Rewards(s0, s0.last, mark) + Rewards(s0, last, epoch)
            == Rewards(s0, s0.last, if mark < epoch then epoch else mark) + Rewards(s0, last, again)
  {
    if mark < epoch {
      RewardsSplit(s0, last, mark, epoch);
      RewardsSplit(s0, s0.last, mark, epoch);
    }
  }

  /** What is accrued is the rewards of the epochs passed, and once more those passed again. */
  lemma {:induction false} AccruedIs(s0: Ledger, positions: Balances, supply: u128, evs: seq<Event>)
    ensures var h := Play(Started(s0), positions, supply, evs);
            && h.state.phases == s0.phases && h.state.start == s0.start && h.state.last == LastOf(s0, evs)
            && h.accrued == Rewards(s0, s0.last, Mark(s0, evs)) + Repeated(s0, evs)
    decreases |evs|
  {
    if evs != [] {
      var init, ev := evs[..|evs| - 1], evs[|evs| - 1];
      AccruedIs(s0, positions, supply, init);
      if ev.Advance? {
        RewardsSame(s0, Play(Started(s0), positions, supply, init).state, LastOf(s0, init), ev.epoch);
        MarkMoves(s0, LastOf(s0, init), Mark(s0, init), ev.epoch);
      }
    }
  }

  /** No update passes an epoch with a reward that was passed before. */
  ghost predicate NoRewardTwice(s0: Ledger, evs: seq<Event>) {
    forall i :: 0 <= i < |evs| ==> NoneAgain(s0, evs[..i], evs[i])
  }

  ghost predicate NoneAgain(s0: Ledger, evs: seq<Event>, ev: Event) {
    forall e: nat :: LastOf(s0, evs) < e <= Again(s0, evs, ev) ==> Reward(s0, e) == 0
  }

  lemma {:induction false} RewardsZeroIff(s: Ledger, from: nat, upto: nat)
    ensures Rewards(s, from, upto) == 0 <==> forall e: nat :: from < e <= upto ==> Reward(s, e) == 0
    decreases upto
  {
    if from < upto {
      RewardsZeroIff(s, from, upto - 1);
    }
  }

  lemma NoRewardTwiceSnoc(s0: Ledger, init: seq<Event>, ev: Event)
    ensures NoRewardTwice(s0, init + [ev]) <==> NoRewardTwice(s0, init) && NoneAgain(s0, init, ev)
  {
    var evs := init + [ev];
    assert evs[..|init|] == init && evs[|init|] == ev;
    forall i | 0 <= i < |init| ensures NoneAgain(s0, evs[..i], evs[i]) <==> NoneAgain(s0, init[..i], init[i]) {
      assert init[..i] == evs[..i] && init[i] == evs[i];
    }
  }

  lemma {:induction false} RepeatedZeroIff(s0: Ledger, evs: seq<Event>)
    ensures Repeated(s0, evs) == 0 <==> NoRewardTwice(s0, evs)
    decreases |evs|
  {
    if evs != [] {
      var init, ev := evs[..|evs| - 1], evs[|evs| - 1];
      assert evs == init + [ev];
      RepeatedZeroIff(s0, init);
      RewardsZeroIff(s0, LastOf(s0, init), Again(s0, init, ev));
      NoRewardTwiceSnoc(s0, init, ev);
    }
  }

  // ----- a supply of PRECISION shares

  lemma WholeDelta(s: Ledger, epoch: nat)
    ensures Delta(s, epoch, PRECISION) == Reward(s, epoch)
  {
    DivUnique(Reward(s, epoch) * PRECISION, PRECISION, Reward(s, epoch));
  }

  lemma {:induction false} WholeAccrual(s: Ledger, from: nat, upto: nat)
    ensures Accrued(s, from, upto, PRECISION) == Min(s.perShare + Rewards(s, from, upto), U128_MAX)
    decreases upto
  {
    if from < upto {
      WholeAccrual(s, from, upto - 1);
      WholeDelta(s, upto);
    }
  }

  /** With `PRECISION` shares the accumulator is what was accrued, as far as 128 bits go. */
  lemma {:induction false} WholePerShare(s0: Ledger, positions: Balances, evs: seq<Event>)
    requires Fresh(s0)
    ensures var h := Play(Started(s0), positions, PRECISION, evs); h.state.perShare == Min(h.accrued, U128_MAX)
    decreases |evs|
  {
    if evs != [] {
      var init, ev := evs[..|evs| - 1], evs[|evs| - 1];
      WholePerShare(s0, positions, init);
      var h := Play(Started(s0), positions, PRECISION, init);
      if ev.Advance? {
        WholeAccrual(h.state, h.state.last, ev.epoch);
      }
    }
  }

  lemma PaidCounted(h: History, user: Address)
    ensures PaidTo(h, user) <= TotalPaid(h)
  {
    if user in h.paid {
      SumPick(h.paid, PaidWeight(), user);
    }
  }

  lemma TakesAll(h: History, positions: Balances, user: Address)
    requires Accounted(h, PRECISION, user) && BalanceOf(positions, user) == PRECISION
    ensures PaidTo(Step(h, positions, PRECISION, Take(user)), user) == h.state.perShare
  {
    var p := h.state.perShare;
    assert PRECISION * p == p * PRECISION;
    DivUnique(p * PRECISION, PRECISION, p);
    MulCancel(PaidTo(h, user), p, PRECISION);
  }

  /** The only holder, of `PRECISION` shares, can be paid all that was accrued. */
  lemma SoleHolderPaid(s0: Ledger, positions: Balances, evs: seq<Event>, user: Address)
    requires Fresh(s0) && TotalOf(positions) <= PRECISION == BalanceOf(positions, user)
    ensures Min(Rewards(s0, s0.last, Mark(s0, evs)) + Repeated(s0, evs), U128_MAX)
            <= TotalPaid(Play(Started(s0), positions, PRECISION, evs + [Take(user)]))
  {
    SoleTakes(s0, positions, evs, user);
    AccruedIs(s0, positions, PRECISION, evs);
    WholePerShare(s0, positions, evs);
    PaidCounted(Play(Started(s0), positions, PRECISION, evs + [Take(user)]), user);
  }

  lemma SoleTakes(s0: Ledger, positions: Balances, evs: seq<Event>, user: Address)
    requires Fresh(s0) && TotalOf(positions) <= PRECISION == BalanceOf(positions, user)
    ensures PaidTo(Play(Started(s0), positions, PRECISION, evs + [Take(user)]), user)
            == Play(Started(s0), positions, PRECISION, evs).state.perShare
  {
    SoleAccounted(s0, positions, evs, user);
    TakesAll(Play(Started(s0), positions, PRECISION, evs), positions, user);
    assert (evs + [Take(user)])[..|evs|] == evs;
  }

  lemma SoleAccounted(s0: Ledger, positions: Balances, evs: seq<Event>, user: Address)
    requires Fresh(s0) && TotalOf(positions) <= PRECISION
    ensures Accounted(Play(Started(s0), positions, PRECISION, evs), BalanceOf(positions, user), user)
  {
    PlayKeeps(s0, positions, PRECISION, evs);
  }

  lemma SoleTotal(positions: Balances, user: Address)
    requires positions.Keys == {user}
    ensures TotalOf(positions) == positions[user]
  {
    SumPick(positions, AmountWeight(), user);
    assert positions - {user} == map[];
  }

  // ----- payouts and the epochs passed

  ghost predicate PaidWithin(s0: Ledger, positions: Balances, supply: u128, evs: seq<Event>, user: Address) {
    TotalPaid(Play(Started(s0), positions, supply, evs + [Take(user)])) <= Rewards(s0, s0.last, Mark(s0, evs))
  }

  /** Whoever holds how much, after these events and one more claim no more is paid than the rewards
      of the epochs passed. */
  ghost predicate AlwaysPaidWithin(s0: Ledger, evs: seq<Event>) {
    forall positions: Balances, supply: u128, user: Address ::
      TotalOf(positions) <= supply ==> PaidWithin(s0, positions, supply, evs, user)
  }

  lemma OnceIsWithin(s0: Ledger, positions: Balances, supply: u128, evs: seq<Event>, user: Address)
    requires Fresh(s0) && TotalOf(positions) <= supply && NoRewardTwice(s0, evs)
    ensures PaidWithin(s0, positions, supply, evs, user)
  {
    var all := evs + [Take(user)];
    assert all[..|evs|] == evs;
    AccruedIs(s0, positions, supply, all);
    RepeatedZeroIff(s0, all);
    NoRewardTwiceSnoc(s0, evs, Take(user));
    PayoutsCovered(s0, positions, supply, all);
  }

  lemma TwiceIsOver(s0: Ledger, evs: seq<Event>)
    requires Fresh(s0) && Rewards(s0, s0.last, Mark(s0, evs)) < U128_MAX && !NoRewardTwice(s0, evs)
    ensures !AlwaysPaidWithin(s0, evs)
  {
    var user: Address := 7;
    var positions: Balances := map[user := PRECISION];
    SoleTotal(positions, user);
    RepeatedZeroIff(s0, evs);
    SoleHolderOver(s0, positions, evs, user);
  }

  lemma SoleHolderOver(s0: Ledger, positions: Balances, evs: seq<Event>, user: Address)
    requires Fresh(s0) && TotalOf(positions) <= PRECISION == BalanceOf(positions, user)
    requires Rewards(s0, s0.last, Mark(s0, evs)) < U128_MAX && 0 < Repeated(s0, evs)
    ensures !PaidWithin(s0, positions, PRECISION, evs, user)
  {
    var passed, again := Rewards(s0, s0.last, Mark(s0, evs)), Repeated(s0, evs);
    SoleHolderPaid(s0, positions, evs, user);
    assert passed < Min(passed + again, U128_MAX);
  }

  /** Payouts stay within the rewards of the epochs passed, for all holdings, exactly when no update
      passes an epoch with a reward a second time (as far as these rewards fit 128 bits); then they
      are within the phases' budget if accrual began no earlier than the epoch ahead of the start. */
  lemma PayoutsWithinIff(s0: Ledger, evs: seq<Event>)
    requires Fresh(s0) && Rewards(s0, s0.last, Mark(s0, evs)) < U128_MAX
    ensures AlwaysPaidWithin(s0, evs) <==> NoRewardTwice(s0, evs)
    ensures s0.start <= s0.last + 1 ==> Rewards(s0, s0.last, Mark(s0, evs)) <= Budget(s0.phases)
  {
    if NoRewardTwice(s0, evs) {
      forall positions: Balances, supply: u128, user: Address | TotalOf(positions) <= supply
        ensures PaidWithin(s0, positions, supply, evs, user)
      {
        OnceIsWithin(s0, positions, supply, evs, user);
      }
    } else {
      TwiceIsOver(s0, evs);
    }
    if s0.start <= s0.last + 1 {
      RewardsBounded(s0, s0.last, Mark(s0, evs));
    }
  }

  const EXAMPLE := Ledger([Phase(10, 100)], 0, 0, 0, 0, map[])

  lemma ExampleAdvances(s: Ledger)
    requires s.phases == EXAMPLE.phases && s.start == 0 && s.last == 0 && s.perShare <= 100 * PRECISION
    ensures Updated(s, 1, 1) == s.(perShare := s.perShare + 100 * PRECISION, last := 1)
  {
    assert RewardIn(s.phases, 1) == 100;
    assert Delta(s, 1, 1) == 100 * PRECISION;
    assert Accrued(s, 0, 1, 1) == SaturatingAdd(Accrued(s, 0, 0, 1), Delta(s, 1, 1));
  }

  lemma PlayFour(h: History, positions: Balances, supply: u128, a: Event, b: Event, c: Event, d: Event)
    ensures Play(h, positions, supply, [a, b, c, d])
         == Step(Step(Step(Step(h, positions, supply, a), positions, supply, b), positions, supply, c), positions, supply, d)
  {
    assert [a, b, c, d][..3] == [a, b, c] && [a, b, c][..2] == [a, b] && [a, b][..1] == [a] && [a][..0] == [];
    assert Play(h, positions, supply, [a]) == Step(Play(h, positions, supply, []), positions, supply, a);
    assert Play(h, positions, supply, [a, b]) == Step(Play(h, positions, supply, [a]), positions, supply, b);
    assert Play(h, positions, supply, [a, b, c]) == Step(Play(h, positions, supply, [a, b]), positions, supply, c);
  }

  lemma OnePayment(h: History, user: Address)
    requires h.paid.Keys == {user}
    ensures TotalPaid(h) == h.paid[user]
  {
    SumPick(h.paid, PaidWeight(), user);
    assert h.paid - {user} == map[];
  }

  /** One share and 100 per epoch: after an update to epoch 1, one back to 0 and one to 1 again,
      the holder is paid 200 for the one epoch. */
  lemma BackAndForthOverpays()
    ensures var h := Play(Started(EXAMPLE), map[7 := 1], 1, [Advance(1), Advance(0), Advance(1), Take(7)]);
            Fresh(EXAMPLE) && TotalPaid(h) == 200 && Rewards(EXAMPLE, EXAMPLE.last, h.state.last) == 100
  {
    PlayFour(Started(EXAMPLE), map[7 := 1], 1, Advance(1), Advance(0), Advance(1), Take(7));
    ExampleAdvances(EXAMPLE);
    var h1 := Step(Started(EXAMPLE), map[7 := 1], 1, Advance(1));
    var h2 := Step(h1, map[7 := 1], 1, Advance(0));
    ExampleAdvances(h2.state);
    var h3 := Step(h2, map[7 := 1], 1, Advance(1));
    assert h3.state.perShare == 200 * PRECISION;
    assert Pending(h3.state, 1, 7) == 200;
    OnePayment(Step(h3, map[7 := 1], 1, Take(7)), 7);
    assert Rewards(EXAMPLE, 0, 1) == Rewards(EXAMPLE, 0, 0) + Reward(EXAMPLE, 1);
  }

  // ----- the budget

  ghost function Budget(phases: seq<Phase>): nat {
    if phases == [] then 0 else
      MulNonNegative(phases[0].duration, phases[0].reward);
      phases[0].duration * phases[0].reward + Budget(phases[1..])
  }

  ghost function Duration(phases: seq<Phase>): nat {
    if phases == [] then 0 else phases[0].duration + Duration(phases[1..])
  }

  /** The rewards of the first `n` epochs of the schedule. */
  ghost function Schedule(phases: seq<Phase>, n: nat): nat {
    if n == 0 then 0 else Schedule(phases, n - 1) + RewardIn(phases, n - 1)
  }

  lemma {:induction false} ScheduleUnfold(phases: seq<Phase>, n: nat)
    requires phases != []
    ensures Schedule(phases, n)
         == if n <= phases[0].duration then n * phases[0].reward
            else phases[0].duration * phases[0].reward + Schedule(phases[1..], n - phases[0].duration)
    decreases n
  {
    if n > 0 {
      ScheduleUnfold(phases, n - 1);
      var r := phases[0].reward;
      assert n * r == (n - 1) * r + r;
    }
  }

  lemma {:induction false} ScheduleWithinBudget(phases: seq<Phase>, n: nat)
    ensures Schedule(phases, n) <= Budget(phases)
    ensures Duration(phases) <= n ==> Schedule(phases, n) == Budget(phases)
    decreases |phases|, n
  {
    if phases == [] {
      if n > 0 {
        ScheduleWithinBudget(phases, n - 1);
      }
    } else {
      ScheduleUnfold(phases, n);
      var d, r := phases[0].duration, phases[0].reward;
      if n <= d {
        MulMono(n, d, r);
        ScheduleWithinBudget(phases[1..], 0);
      } else {
        ScheduleWithinBudget(phases[1..], n - d);
      }
    }
  }

  /** Epochs before the start already pay the first phase's reward. */
  lemma {:induction false} RewardsAreSchedule(s: Ledger, from: nat, upto: nat)
    requires s.start <= upto + 1 && from <= upto
    ensures from + 1 < s.start ==>
              Rewards(s, from, upto) == (s.start - 1 - from) * RewardIn(s.phases, 0) + Schedule(s.phases, upto + 1 - s.start)
    ensures s.start <= from + 1 ==>
              Rewards(s, from, upto) == Schedule(s.phases, upto + 1 - s.start) - Schedule(s.phases, from + 1 - s.start)
    decreases upto
  {
    if from < upto {
      if s.start <= upto {
        RewardsAreSchedule(s, from, upto - 1);
      } else {
        EarlyRewards(s, from, upto);
      }
    }
  }

  lemma {:induction false} EarlyRewards(s: Ledger, from: nat, upto: nat)
    requires from <= upto < s.start
    ensures Rewards(s, from, upto) == (upto - from) * RewardIn(s.phases, 0)
    decreases upto
  {
    if from < upto {
      EarlyRewards(s, from, upto - 1);
      var r := RewardIn(s.phases, 0);
      assert (upto - from) * r == (upto - 1 - from) * r + r;
    }
  }

  /** The rewards of all later epochs stay within the phases' budget exactly when accrual does
      not begin before the epoch ahead of `start` (or the first reward is zero); begun earlier,
      every epoch before the start is paid on top of the full budget. */
  lemma BudgetKeptIff(s: Ledger, from: nat)
    requires Duration(s.phases) > 0
    ensures (forall upto: nat :: Rewards(s, from, upto) <= Budget(s.phases))
       <==> s.start <= from + 1 || RewardIn(s.phases, 0) == 0
  {
    if s.start <= from + 1 || RewardIn(s.phases, 0) == 0 {
      forall upto: nat
        ensures Rewards(s, from, upto) <= Budget(s.phases)
      {
        RewardsBounded(s, from, upto);
      }
    } else {
      var end := s.start + Duration(s.phases);
      RewardsAreSchedule(s, from, end);
      ScheduleWithinBudget(s.phases, end + 1 - s.start);
      MulMono2(1, s.start - 1 - from, 1, RewardIn(s.phases, 0));
      assert Rewards(s, from, end) > Budget(s.phases);
    }
  }

  lemma RewardsBounded(s: Ledger, from: nat, upto: nat)
    requires s.start <= from + 1 || RewardIn(s.phases, 0) == 0
    ensures Rewards(s, from, upto) <= Budget(s.phases)
  {
    if from < upto {
      if s.start <= upto + 1 {
        RewardsAreSchedule(s, from, upto);
        ScheduleWithinBudget(s.phases, upto + 1 - s.start);
      } else {
        EarlyRewards(s, from, upto);
      }
    }
  }
}
