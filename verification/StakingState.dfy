/** The staking part of the state database, updated in place. */
module StakingState {
  import opened Primitives
  import opened MapSums
  import opened Accounts
  import S = Staking

  class StakingLedger {
    var balances: Balances
    var stakes: map<Address, S.Stake>
    var unbonding: map<Address, seq<S.Unbonding>>

    function View(): S.Book
      reads this
    {
      S.Book(balances, stakes, unbonding)
    }

    constructor (b: S.Book)
      ensures View() == b
    {
      balances, stakes, unbonding := b.balances, b.stakes, b.unbonding;
    }

    method ExecuteStake(sender: Address, validator: Address, amount: u128) returns (r: Result<(), S.ExecError>)
      modifies this
      ensures S.Outcome(View(), r) == S.ExecuteStake(old(View()), sender, validator, amount)
    {
      var balance := BalanceOf(balances, sender);
      if balance < amount {
        return Err(S.InsufficientBalance);
      }
      balances := balances[sender := balance - amount];
      var s := S.StakeOf(View(), validator);
      if sender == validator {
        if s.self + amount > U128_MAX {
          return Err(S.StakeOverflow);
        }
        s := S.Stake(s.total, s.self + amount, s.commissionBps, s.delegations);
      } else {
        if s.self == 0 {
          return Err(S.NoSelfStake);
        }
        var i := S.Find(s.delegations, sender);
        if i < |s.delegations| {
          var was := s.delegations[i].amount;
          if was + amount > U128_MAX {
            return Err(S.StakeOverflow);
          }
          s := S.Stake(s.total, s.self, s.commissionBps, s.delegations[i := S.Delegation(sender, was + amount)]);
        } else {
          s := S.Stake(s.total, s.self, s.commissionBps, s.delegations + [S.Delegation(sender, amount)]);
        }
      }
      if s.total + amount > U128_MAX {
        return Err(S.StakeOverflow);
      }
      stakes := stakes[validator := S.Stake(s.total + amount, s.self, s.commissionBps, s.delegations)];
      return Ok(());
    }

    method ExecuteUnstake(sender: Address, validator: Address, amount: u128, now: nat, period: nat)
      returns (r: Result<(), S.ExecError>)
      modifies this
      ensures S.Outcome(View(), r) == S.ExecuteUnstake(old(View()), sender, validator, amount, now, period)
    {
      var s := S.StakeOf(View(), validator);
      if sender == validator {
        if s.self < amount {
          return Err(S.UnstakeExceedsStake(s.self, amount));
        }
        s := S.Stake(s.total, s.self - amount, s.commissionBps, s.delegations);
      } else {
        var i := S.Find(s.delegations, sender);
        if i == |s.delegations| {
          return Err(S.UnstakeExceedsStake(0, amount));
        }
        var was := s.delegations[i].amount;
        if was < amount {
          return Err(S.UnstakeExceedsStake(was, amount));
        }
        s := S.Stake(s.total, s.self, s.commissionBps, S.Nonzero(s.delegations[i := S.Delegation(sender, was - amount)]));
      }
      if s.total < amount {
        return Err(S.Panicked);
      }
      stakes := stakes[validator := S.Stake(s.total - amount, s.self, s.commissionBps, s.delegations)];
      var pending := S.PendingOf(View(), sender);
      unbonding := unbonding[sender := pending + [S.Unbonding(amount, now + period, validator)]];
      return Ok(());
    }

    /** One address of the release pass. */
    method ReleaseFor(a: Address, now: nat) returns (released: nat)
      requires a in unbonding
      modifies this`balances, this`unbonding
      ensures View() == S.ReleaseFor(old(View()), a, now)
      ensures released == S.Matured(old(unbonding)[a], now)
    {
      var es := unbonding[a];
      released := 0;
      var kept: seq<S.Unbonding> := [];
      for i := 0 to |es|
        invariant released == S.Matured(es[..i], now) && kept == S.StillPending(es[..i], now)
      {
        assert es[..i + 1][..i] == es[..i];
        if es[i].completion <= now {
          released := released + es[i].amount;
        } else {
          kept := kept + [es[i]];
        }
      }
      assert es[..|es|] == es;
      var balance := BalanceOf(balances, a);
      if released > 0 && balance + released <= U128_MAX {
        balances := balances[a := balance + released];
      }
      unbonding := if kept == [] then unbonding - {a} else unbonding[a := kept];
    }

    /** What a release pass adds up; `None` when it no longer fits in an Amount. */
    method SumMatured(now: nat) returns (total: Option<u128>)
      ensures total.None? <==> S.TotalMatured(unbonding, now) > U128_MAX
      ensures total.Some? ==> total.value == S.TotalMatured(unbonding, now)
    {
      var rest := unbonding;
      var sum: u128 := 0;
      while rest != map[]
        invariant sum + S.TotalMatured(rest, now) == S.TotalMatured(unbonding, now)
        decreases |rest|
      {
        var a :| a in rest;
        SumPick(rest, S.MaturedWeight(now), a);
        SizeDrops(rest, a);
        var here := S.Matured(rest[a], now);
        if sum + here > U128_MAX {
          return None;
        }
        sum := sum + here;
        rest := rest - {a};
      }
      return Some(sum);
    }

    /** Visits every address with pending entries once, in whatever order; `None` when what is
        released no longer fits in an Amount and the node aborts. */
    method ProcessUnbonding(now: nat) returns (released: Option<u128>, ghost order: seq<Address>)
      modifies this`balances, this`unbonding
      ensures released.None? <==> S.TotalMatured(old(unbonding), now) > U128_MAX
      ensures released.Some? ==>
                && released.value == S.TotalMatured(old(unbonding), now)
                && View() == S.ReleaseAll(old(View()), order, now)
                && (set a | a in order) == old(unbonding.Keys)
                && forall i, j :: 0 <= i < j < |order| ==> order[i] != order[j]
    {
      order := [];
      released := SumMatured(now);
      if released.Some? {
        order := ReleaseEach(now);
      }
    }

    method ReleaseEach(now: nat) returns (ghost order: seq<Address>)
      modifies this`balances, this`unbonding
      ensures View() == S.ReleaseAll(old(View()), order, now)
      ensures (set a | a in order) == old(unbonding.Keys)
      ensures forall i, j :: 0 <= i < j < |order| ==> order[i] != order[j]
    {
      order := [];
      var todo := unbonding.Keys;
      while todo != {}
        invariant View() == S.ReleaseAll(old(View()), order, now)
        invariant todo <= unbonding.Keys && (set a | a in order) + todo == old(unbonding.Keys)
        invariant forall i :: 0 <= i < |order| ==> order[i] !in todo
        invariant forall i, j :: 0 <= i < j < |order| ==> order[i] != order[j]
        decreases todo
      {
        var a :| a in todo;
        var _ := ReleaseFor(a, now);
        todo := todo - {a};
        assert (order + [a])[..|order|] == order;
        order := order + [a];
      }
    }
  }
}
