/** Liquidity mining: an accumulator of reward per share, and per-user claims against it. */
module Mining {
  import opened Primitives
  import opened Nonlinear
  import opened Wide

  const PRECISION: u128 := 1_000_000_000_000_000_000

  datatype Phase = Phase(duration: nat, reward: u128)

  datatype MiningClaim = MiningClaim(debt: u128, unclaimed: u128)

  /** The value of a MiningState. */
  datatype Ledger = Ledger(
    phases: seq<Phase>,
    start: nat,
    perShare: u128,
    last: nat,
    distributed: u128,
    claims: map<Address, MiningClaim>)

  // ----- what the operations compute

  function RewardIn(phases: seq<Phase>, elapsed: nat): u128 {
    if phases == [] then 0
    else if elapsed < phases[0].duration then phases[0].reward
    else RewardIn(phases[1..], elapsed - phases[0].duration)
  }

  function Elapsed(s: Ledger, epoch: nat): nat {
    if epoch < s.start then 0 else epoch - s.start
  }

  function Reward(s: Ledger, epoch: nat): u128 {
    RewardIn(s.phases, Elapsed(s, epoch))
  }

  /** What one epoch adds to the accumulator; a quotient beyond u128 adds nothing. */
  ghost function Delta(s: Ledger, epoch: nat, supply: u128): u128 {
    var q := Quotient(Reward(s, epoch) * PRECISION, supply);
    if q.Ok? then q.value else 0
  }

  lemma NoReward(s: Ledger, epoch: nat, supply: u128)
    requires Reward(s, epoch) == 0 && supply > 0
    ensures Delta(s, epoch, supply) == 0
  {
    DivUnique(0, supply, 0);
  }

  ghost function Accrued(s: Ledger, from: nat, upto: nat, supply: u128): u128
    decreases upto
  {
    if upto <= from then s.perShare
    else SaturatingAdd(Accrued(s, from, upto - 1, supply), Delta(s, upto, supply))
  }

  ghost function Updated(s: Ledger, epoch: nat, supply: u128): Ledger {
    if epoch <= s.last || supply == 0 then s.(last := epoch)
    else s.(perShare := Accrued(s, s.last, epoch, supply), last := epoch)
  }

  ghost function Earned(s: Ledger, lp: u128): u128 {
    var q := Quotient(lp * s.perShare, PRECISION);
    if q.Ok? then q.value else 0
  }

  function ClaimOf(s: Ledger, user: Address): MiningClaim {
    if user in s.claims then s.claims[user] else MiningClaim(0, 0)
  }

  ghost function Pending(s: Ledger, lp: u128, user: Address): u128 {
    WrapAdd(SaturatingSub(Earned(s, lp), ClaimOf(s, user).debt), ClaimOf(s, user).unclaimed)
  }

  ghost function Claimed(s: Ledger, lp: u128, user: Address): Ledger {
    s.(claims := s.claims[user := MiningClaim(Earned(s, lp), 0)],
       distributed := SaturatingAdd(s.distributed, Pending(s, lp, user)))
  }

  // ----- the object

  class MiningState {
    const phases: seq<Phase>
    const startEpoch: nat
    var rewardPerLp: u128
    var lastUpdateEpoch: nat
    var totalDistributed: u128
    var claims: map<Address, MiningClaim>

    function View(): Ledger
      reads this
    {
      Ledger(phases, startEpoch, rewardPerLp, lastUpdateEpoch, totalDistributed, claims)
    }

    constructor (ps: seq<Phase>, start: nat, last: nat)
      ensures View() == Ledger(ps, start, 0, last, 0, map[])
    {
      phases, startEpoch := ps, start;
      rewardPerLp, lastUpdateEpoch, totalDistributed, claims := 0, last, 0, map[];
    }

    method RewardAtEpoch(epoch: nat) returns (r: u128)
      ensures r == Reward(View(), epoch)
    {
      var elapsed := if epoch < startEpoch then 0 else epoch - startEpoch;
      var boundary := 0;
      for i := 0 to |phases|
        invariant boundary <= elapsed
        invariant RewardIn(phases, elapsed) == RewardIn(phases[i..], elapsed - boundary)
      {
        assert phases[i..][1..] == phases[i + 1..];
        boundary := boundary + phases[i].duration;
        if elapsed < boundary {
          return phases[i].reward;
        }
      }
      return 0;
    }

    /** One epoch of the update loop. */
    method AccrueEpoch(ghost s: Ledger, epoch: nat, supply: u128)
      requires s.phases == phases && s.start == startEpoch && supply > 0
      modifies this`rewardPerLp
      ensures rewardPerLp == SaturatingAdd(old(rewardPerLp), Delta(s, epoch, supply))
    {
      var reward := RewardAtEpoch(epoch);
      assert reward == Reward(s, epoch);
      if reward > 0 && supply > 0 {
        var q := DivU128(MulU128(reward, PRECISION), supply);
        var delta: u128 := if q.Ok? then q.value else 0;
        rewardPerLp := SaturatingAdd(rewardPerLp, delta);
      } else {
        NoReward(s, epoch, supply);
      }
    }

    method UpdateToEpoch(epoch: nat, supply: u128)
      modifies this`rewardPerLp, this`lastUpdateEpoch
      ensures View() == Updated(old(View()), epoch, supply)
    {
      if epoch <= lastUpdateEpoch || supply == 0 {
        lastUpdateEpoch := epoch;
        return;
      }
      ghost var s := View();
      for e := lastUpdateEpoch + 1 to epoch + 1
        modifies this`rewardPerLp
        invariant rewardPerLp == Accrued(s, s.last, e - 1, supply)
      {
        AccrueEpoch(s, e, supply);
      }
      lastUpdateEpoch := epoch;
    }

    method PendingRewards(lp: u128, user: Address) returns (r: u128)
      ensures r == Pending(View(), lp, user)
    {
      var claim := if user in claims then claims[user] else MiningClaim(0, 0);
      var q := DivU128(MulU128(lp, rewardPerLp), PRECISION);
      var earned: u128 := if q.Ok? then q.value else 0;
      return WrapAdd(SaturatingSub(earned, claim.debt), claim.unclaimed);
    }

    method Claim(lp: u128, user: Address) returns (pending: u128)
      modifies this`claims, this`totalDistributed
      ensures View() == Claimed(old(View()), lp, user)
      ensures pending == Pending(old(View()), lp, user)
    {
      pending := PendingRewards(lp, user);
      var q := DivU128(MulU128(lp, rewardPerLp), PRECISION);
      var debt: u128 := if q.Ok? then q.value else 0;
      claims := claims[user := MiningClaim(debt, 0)];
      totalDistributed := SaturatingAdd(totalDistributed, pending);
    }
  }

  // ----- stepping

  /** The accumulator takes the same value in one jump as in two forward steps. */
  lemma {:induction false} AccruedSplit(s: Ledger, from: nat, mid: nat, upto: nat, supply: u128)
    requires from <= mid <= upto
    ensures Accrued(s, from, upto, supply)
         == Accrued(s.(perShare := Accrued(s, from, mid, supply)), mid, upto, supply)
    decreases upto
  {
    if mid < upto {
      AccruedSplit(s, from, mid, upto - 1, supply);
      var s' := s.(perShare := Accrued(s, from, mid, supply));
      assert Reward(s', upto) == Reward(s, upto);
    }
  }

  lemma JumpEqualsSteps(s: Ledger, mid: nat, upto: nat, supply: u128)
    requires s.last <= mid <= upto
    ensures Updated(Updated(s, mid, supply), upto, supply) == Updated(s, upto, supply)
  {
    if supply != 0 {
      AccruedSplit(s, s.last, mid, upto, supply);
      AccruedFrom(s, s.(last := mid), s.last, mid, supply);
      var s' := s.(perShare := Accrued(s, s.last, mid, supply));
      if mid < upto {
        AccruedFrom(s', s'.(last := mid), mid, upto, supply);
      }
    }
  }

  /** The accumulator does not depend on the bookkeeping fields. */
  lemma {:induction false} AccruedFrom(s: Ledger, s': Ledger, from: nat, upto: nat, supply: u128)
    requires s'.phases == s.phases && s'.start == s.start && s'.perShare == s.perShare
    ensures Accrued(s', from, upto, supply) == Accrued(s, from, upto, supply)
    decreases upto
  {
    if from < upto {
      AccruedFrom(s, s', from, upto - 1, supply);
      assert Reward(s', upto) == Reward(s, upto);
    }
  }

  /** An epoch adds nothing exactly when its reward is too small for one unit per share, or so
      large that the quotient does not fit and is dropped. */
  lemma DeltaZeroIff(s: Ledger, epoch: nat, supply: u128)
    requires 0 < supply
    ensures Delta(s, epoch, supply) == 0
       <==> Reward(s, epoch) * PRECISION < supply || Reward(s, epoch) * PRECISION / supply > U128_MAX
  {
    var n := Reward(s, epoch) * PRECISION;
    MulMono2(0, Reward(s, epoch), 0, PRECISION);
    DivBounds(n, supply);
    if n < supply {
      DivUnique(n, supply, 0);
    } else {
      DivGe(n, supply, 1);
    }
  }

  lemma {:induction false} AccruedGrows(s: Ledger, from: nat, upto: nat, supply: u128)
    ensures s.perShare <= Accrued(s, from, upto, supply)
    decreases upto
  {
    if from < upto {
      AccruedGrows(s, from, upto - 1, supply);
    }
  }

  /** The epochs from which no accrual comes. */
  ghost predicate NoAccrual(s: Ledger, from: nat, upto: nat, supply: u128) {
    forall e: nat :: from < e <= upto ==> Delta(s, e, supply) == 0
  }

  lemma {:induction false} AccruedSameIff(s: Ledger, from: nat, upto: nat, supply: u128)
    ensures Accrued(s, from, upto, supply) == s.perShare
       <==> s.perShare == U128_MAX || NoAccrual(s, from, upto, supply)
    decreases upto
  {
    if from < upto {
      AccruedSameIff(s, from, upto - 1, supply);
      AccruedGrows(s, from, upto - 1, supply);
      assert NoAccrual(s, from, upto, supply) <==> NoAccrual(s, from, upto - 1, supply) && Delta(s, upto, supply) == 0;
    }
  }

  /** An update to an earlier epoch winds `last` back, so the next update accrues the epochs in
      between a second time. Going back and forth changes nothing exactly when the accumulator
      is full or none of those epochs accrues anything. */
  lemma BackwardUpdateAccruesTwice(s: Ledger, back: nat, supply: u128)
    requires back < s.last && 0 < supply
    ensures Updated(Updated(s, back, supply), s.last, supply) == s.(perShare := Accrued(s, back, s.last, supply))
    ensures Updated(Updated(s, back, supply), s.last, supply) == s
        <==> s.perShare == U128_MAX || NoAccrual(s, back, s.last, supply)
  {
    AccruedFrom(s, s.(last := back), back, s.last, supply);
    AccruedSameIff(s, back, s.last, supply);
  }
}
