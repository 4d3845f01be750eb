/** The governance operations as the executor runs them, in place on the chain state. */
module GovernanceState {
  import opened Primitives
  import opened MapSums
  import opened Accounts
  import opened Governance
  import opened Ascent

  /** The proposals when the execution loop has visited `seen`. */
  ghost function PartlyExecuted(ps: map<H256, Proposal>, seen: seq<H256>, block: nat): map<H256, Proposal> {
    map id | id in ps :: if id in seen then Matured(ps[id], block) else ps[id]
  }

  ghost predicate Visited(e0: Effects, ps: map<H256, Proposal>, block: nat, seen: seq<H256>, effects: Effects, executed: nat) {
    && (forall x :: x in seen ==> x in ps)
    && effects == AppliedAll(e0, DueAmong(seen, ps, block), ps)
    && executed == |DueAmong(seen, ps, block)|
  }

  lemma PartlyStep(ps: map<H256, Proposal>, block: nat, seen: seq<H256>, id: H256)
    requires id in ps && id !in seen
    ensures PartlyExecuted(ps, seen, block)[id] == ps[id]
    ensures PartlyExecuted(ps, seen + [id], block) == PartlyExecuted(ps, seen, block)[id := Matured(ps[id], block)]
  {
  }

  lemma VisitStep(e0: Effects, ps: map<H256, Proposal>, block: nat, seen: seq<H256>, id: H256, effects: Effects, executed: nat)
    requires id in ps
    requires Visited(e0, ps, block, seen, effects, executed)
    ensures Due(ps[id], block) ==> Visited(e0, ps, block, seen + [id], Applied(effects, ps[id].action), executed + 1)
    ensures !Due(ps[id], block) ==> Visited(e0, ps, block, seen + [id], effects, executed)
  {
    VisitOne(e0, seen, id, ps, block);
  }

  /** Where the execution loop stands once it has visited `seen`. */
  ghost predicate Progress(
    e0: Effects, ps: map<H256, Proposal>, block: nat, seen: seq<H256>,
    proposals: map<H256, Proposal>, effects: Effects, executed: nat)
  {
    proposals == PartlyExecuted(ps, seen, block) && Visited(e0, ps, block, seen, effects, executed)
  }

  lemma ProgressStep(
    e0: Effects, ps: map<H256, Proposal>, block: nat, seen: seq<H256>, id: H256,
    proposals: map<H256, Proposal>, effects: Effects, executed: nat)
    requires id in ps && id !in seen && Progress(e0, ps, block, seen, proposals, effects, executed)
    ensures id in proposals
    ensures var p := proposals[id];
            var more := proposals[id := Matured(p, block)];
            if Due(p, block) then Progress(e0, ps, block, seen + [id], more, Applied(effects, p.action), executed + 1)
            else Progress(e0, ps, block, seen + [id], more, effects, executed)
  {
    PartlyStep(ps, block, seen, id);
    VisitStep(e0, ps, block, seen, id, effects, executed);
  }

  class GovernanceBook {
    const rules: Rules
    var proposals: map<H256, Proposal>
    var nextId: nat
    var stakes: Balances
    var effects: Effects

    constructor (rules: Rules, effects: Effects)
      ensures View() == Gov(map[], 0, map[], effects) && this.rules == rules
    {
      this.rules := rules;
      this.effects := effects;
      proposals := map[];
      nextId := 0;
      stakes := map[];
    }

    ghost function View(): Gov
      reads this
    {
      Gov(proposals, nextId, stakes, effects)
    }

    /** The stake of all accounts, summed in whatever order they come; `None` when it overflows. */
    method SumStakes() returns (total: Option<u128>)
      ensures total.Some? <==> TotalOf(stakes) <= U128_MAX
      ensures total.Some? ==> total.value == TotalOf(stakes)
    {
      var rest := stakes;
      var sum: u128 := 0;
      while rest != map[]
        invariant sum + TotalOf(rest) == TotalOf(stakes)
        decreases |rest|
      {
        var k :| k in rest;
        SumPick(rest, AmountWeight(), k);
        SizeDrops(rest, k);
        if sum + rest[k] > U128_MAX {
          return None;
        }
        sum := sum + rest[k];
        rest := rest - {k};
      }
      return Some(sum);
    }

    method SubmitProposal(sender: Address, action: Action, block: nat) returns (r: Result<H256, GovError>)
      modifies this
      ensures match Propose(rules, old(View()), sender, action, block)
              case Ok(g) => r == Ok(rules.hash(old(nextId), sender, block)) && View() == g
              case Err(e) => r == Err(e) && View() == old(View())
    {
      if BalanceOf(stakes, sender) == 0 {
        return Err(NoStake);
      }
      var total := SumStakes();
      if total.None? {
        return Err(Panicked);
      }
      var id := rules.hash(nextId, sender, block);
      nextId := nextId + 1;
      proposals := proposals[id := Proposal(sender, action, block, block + rules.votingPeriod, Active, 0, 0, 0, [], total.value)];
      return Ok(id);
    }

    method Vote(sender: Address, id: H256, choice: Choice, block: nat) returns (r: Result<(), GovError>)
      modifies this
      ensures match CastVote(old(View()), sender, id, choice, block)
              case Ok(g) => r == Ok(()) && View() == g
              case Err(e) => r == Err(e) && View() == old(View())
    {
      if id !in proposals {
        return Err(UnknownProposal);
      }
      var p := proposals[id];
      if p.status != Active {
        return Err(NotActive);
      }
      if p.votingEnd <= block {
        return Err(VotingEnded);
      }
      if sender in p.voters {
        return Err(AlreadyVoted);
      }
      var stake := BalanceOf(stakes, sender);
      if stake == 0 {
        return Err(NoStake);
      }
      match Voted(p, sender, choice, Weight(p, stake)) {
        case Err(e) =>
          return Err(e);
        case Ok(p') =>
          proposals := proposals[id := p'];
          return Ok(());
      }
    }

    /** Visits the proposals in ascending order of their ids; `false` when a tally overflows. */
    method FinalizeProposals(block: nat, totalStaked: u128) returns (ok: bool)
      modifies this`proposals
      ensures ok <==> TallyFits(old(proposals), block)
      ensures ok ==> proposals == FinalizeAll(rules, old(proposals), block, totalStaked)
    {
      ghost var ps := proposals;
      var todo := proposals.Keys;
      while todo != {}
        invariant proposals.Keys == ps.Keys && todo <= ps.Keys
        invariant forall id :: id in ps && id !in todo && Ended(ps[id], block) ==> Votes(ps[id]) <= U128_MAX
        invariant forall id :: id in ps && id !in todo ==> proposals[id] == Finalized(rules, ps[id], block, totalStaked)
        invariant forall id :: id in todo ==> proposals[id] == ps[id]
        decreases todo
      {
        var id := Least(todo);
        todo := todo - {id};
        var p := proposals[id];
        if Ended(p, block) {
          if Votes(p) > U128_MAX {
            return false;
          }
          proposals := proposals[id := Finalized(rules, p, block, totalStaked)];
        }
      }
      return true;
    }

    method ExecuteIfDue(id: H256, block: nat) returns (ran: bool)
      requires id in proposals
      modifies this`proposals, this`effects
      ensures ran == Due(old(proposals)[id], block)
      ensures proposals == old(proposals)[id := Matured(old(proposals)[id], block)]
      ensures effects == if ran then Applied(old(effects), old(proposals)[id].action) else old(effects)
    {
      var p := proposals[id];
      ran := Due(p, block);
      if ran {
        effects := Applied(effects, p.action);
        proposals := proposals[id := p.(status := Executed)];
      } else {
        assert proposals == proposals[id := p];
      }
    }

    method ExecuteInOrder(ids: seq<H256>, block: nat) returns (executed: nat)
      requires forall x :: x in ids ==> x in proposals
      requires forall i, j :: 0 <= i < j < |ids| ==> ids[i] != ids[j]
      modifies this`proposals, this`effects
      ensures proposals == PartlyExecuted(old(proposals), ids, block)
      ensures Visited(old(effects), old(proposals), block, ids, effects, executed)
    {
      ghost var ps, e0, seen := proposals, effects, [];
      executed := 0;
      for i := 0 to |ids|
        invariant seen == ids[..i]
        invariant Progress(e0, ps, block, seen, proposals, effects, executed)
      {
        assert ids[..i + 1] == seen + [ids[i]];
        ProgressStep(e0, ps, block, seen, ids[i], proposals, effects, executed);
        seen := seen + [ids[i]];
        var ran := ExecuteIfDue(ids[i], block);
        if ran {
          executed := executed + 1;
        }
      }
      assert seen == ids;
    }

    /** Visits the proposals in ascending order of their ids; returns how many were executed. */
    method ExecuteQueued(block: nat) returns (executed: nat)
      modifies this`proposals, this`effects
      ensures proposals == ExecuteAll(old(proposals), block)
      ensures effects == AppliedAll(old(effects), DueIds(old(proposals), block), old(proposals))
      ensures executed == |DueIds(old(proposals), block)|
    {
      AscendingSorted(proposals.Keys);
      executed := ExecuteInOrder(Ascending(proposals.Keys), block);
    }

    method SettleBlock(block: nat, totalStaked: u128) returns (r: Result<nat, GovError>)
      modifies this
      ensures match Settle(rules, old(View()), block, totalStaked)
              case Ok(g) => r.Ok? && View() == g
              case Err(e) => r == Err(e)
    {
      var ok := FinalizeProposals(block, totalStaked);
      if !ok {
        return Err(Panicked);
      }
      var executed := ExecuteQueued(block);
      return Ok(executed);
    }
  }
}
