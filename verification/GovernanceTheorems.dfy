/** The promises of governance, over every run from an empty book: each voter counts once and in
    time, decisions are final, an action takes effect exactly once, and only after it earned it. */
module GovernanceTheorems {
  import opened Primitives
  import opened Nonlinear
  import opened MapSums
  import opened Accounts
  import opened Governance
  import opened Ascent
  import opened GovernanceRuns

  // ----- every ballot counts once

  /** A vote with the voter's stake at the time, and what of it counted. */
  datatype Ballot = Ballot(voter: Address, choice: Choice, stake: u128, weight: u128, block: nat)

  /** The ballot on `id`, if any, that one step accepts. */
  ghost function BallotOf(g: Gov, op: Op, id: H256): seq<Ballot> {
    if op.VoteTx? && op.id == id && CastVote(g, op.sender, id, op.choice, op.block).Ok?
    then
      var stake := BalanceOf(g.stakes, op.sender);
      [Ballot(op.sender, op.choice, stake, Weight(g.proposals[id], stake), op.block)]
    else []
  }

  /** The votes on `id` that a run accepted, each with the weight it carried when cast. */
  ghost function Ballots(rules: Rules, g: Gov, ops: seq<Op>, id: H256): seq<Ballot> {
    if ops == [] then []
    else
      var init := ops[..|ops| - 1];
      Ballots(rules, g, init, id) + BallotOf(Run(rules, g, init), ops[|ops| - 1], id)
  }

  ghost function Cast(bs: seq<Ballot>, choice: Choice): nat {
    if bs == [] then 0
    else Cast(bs[..|bs| - 1], choice) + if bs[|bs| - 1].choice == choice then bs[|bs| - 1].weight else 0
  }

  ghost predicate InTime(p: Proposal, b: Ballot) {
    b.block < p.votingEnd && 0 < b.weight <= p.snapshot && b.weight == Min(b.stake, p.snapshot)
  }

  /** The tally of `p` is what the ballots say. */
  ghost predicate Tallied(p: Proposal, bs: seq<Ballot>) {
    && p.yes == Cast(bs, Yes) && p.no == Cast(bs, No) && p.abstain == Cast(bs, Abstain)
    && |p.voters| == |bs|
    && (forall i :: 0 <= i < |bs| ==> p.voters[i] == bs[i].voter && InTime(p, bs[i]))
  }

  lemma TallyOneMore(rules: Rules, p: Proposal, bs: seq<Ballot>, voter: Address, choice: Choice, stake: u128, block: nat)
    requires Shaped(rules, p) && Tallied(p, bs) && 0 < stake && block < p.votingEnd
    ensures match Voted(p, voter, choice, Weight(p, stake))
            case Ok(p') => Tallied(p', bs + [Ballot(voter, choice, stake, Weight(p, stake), block)])
            case Err(_) => true
  {
    var b := Ballot(voter, choice, stake, Weight(p, stake), block);
    assert (bs + [b])[..|bs|] == bs;
  }

  /** In every run, a proposal's tally is the sum of the accepted ballots on it; no one voted
      twice; every ballot came before the end of voting and weighed no more than all the stake
      there was at creation. */
  lemma {:induction false} CountedOnce(rules: Rules, g: Gov, ops: seq<Op>, id: H256)
    requires CollisionFree(rules) && Fresh(g)
    ensures var ps := Run(rules, g, ops).proposals;
            if id in ps then Tallied(ps[id], Ballots(rules, g, ops, id)) && NoRepeats(ps[id].voters)
            else Ballots(rules, g, ops, id) == []
    decreases |ops|
  {
    if ops != [] {
      var init, op := ops[..|ops| - 1], ops[|ops| - 1];
      var before := Run(rules, g, init);
      CountedOnce(rules, g, init, id);
      RunKeeps(rules, g, init);
      RunKeeps(rules, g, ops);
      StepTallies(rules, before, Ballots(rules, g, init, id), op, id);
    }
  }

  lemma SettledTally(rules: Rules, p: Proposal, bs: seq<Ballot>, block: nat, totalStaked: u128)
    requires Tallied(p, bs) && (Ended(p, block) ==> Votes(p) <= U128_MAX)
    ensures Tallied(Settled(rules, p, block, totalStaked), bs)
  {
  }

  lemma VoteTallies(rules: Rules, g: Gov, bs: seq<Ballot>, op: Op, id: H256)
    requires Inv(rules, g) && op.VoteTx? && id in g.proposals && Tallied(g.proposals[id], bs)
    ensures id in Step(rules, g, op).proposals
            && Tallied(Step(rules, g, op).proposals[id], bs + BallotOf(g, op, id))
  {
    assert bs + [] == bs;
    if BallotOf(g, op, id) != [] {
      TallyOneMore(rules, g.proposals[id], bs, op.sender, op.choice, BalanceOf(g.stakes, op.sender), op.block);
    }
  }

  lemma StepTallies(rules: Rules, g: Gov, bs: seq<Ballot>, op: Op, id: H256)
    requires CollisionFree(rules) && Inv(rules, g)
    requires if id in g.proposals then Tallied(g.proposals[id], bs) else bs == []
    ensures var ps := Step(rules, g, op).proposals;
            if id in ps then Tallied(ps[id], bs + BallotOf(g, op, id)) else bs + BallotOf(g, op, id) == []
  {
    assert bs + [] == bs;
    match op
    case SubmitTx(sender, action, block) =>
      FreshId(rules, g, sender, block);
    case VoteTx(_, _, _, _) =>
      if id in g.proposals {
        VoteTallies(rules, g, bs, op, id);
      }
    case SettleBlock(block, totalStaked) =>
      if Settle(rules, g, block, totalStaked).Ok? {
        SettleIsPointwise(rules, g, block, totalStaked);
        if id in g.proposals {
          SettledTally(rules, g.proposals[id], bs, block, totalStaked);
        }
      }
    case Restake(_, _) =>
  }

  // ----- the tally and the snapshot

  ghost function Weights(bs: seq<Ballot>): nat {
    if bs == [] then 0 else Weights(bs[..|bs| - 1]) + bs[|bs| - 1].weight
  }

  /** The stake behind the ballots, each at the time of its vote. */
  ghost function Staked(bs: seq<Ballot>): nat {
    if bs == [] then 0 else Staked(bs[..|bs| - 1]) + bs[|bs| - 1].stake
  }

  lemma {:induction false} CastAddsUp(bs: seq<Ballot>)
    ensures Cast(bs, Yes) + Cast(bs, No) + Cast(bs, Abstain) == Weights(bs)
    decreases |bs|
  {
    if bs != [] {
      CastAddsUp(bs[..|bs| - 1]);
    }
  }

  ghost predicate Capped(b: Ballot, snapshot: u128) {
    0 < b.weight == Min(b.stake, snapshot)
  }

  lemma {:induction false} WeightsWithin(bs: seq<Ballot>, snapshot: u128)
    requires forall i :: 0 <= i < |bs| ==> Capped(bs[i], snapshot)
    ensures Staked(bs) <= snapshot ==> Weights(bs) == Staked(bs)
    ensures |bs| == 1 ==> Weights(bs) <= snapshot
    ensures 1 < |bs| && snapshot < Staked(bs) ==> snapshot < Weights(bs)
    ensures bs != [] ==> 0 < Weights(bs) && Min(Staked(bs), snapshot) <= Weights(bs)
    decreases |bs|
  {
    if bs != [] {
      WeightsWithin(bs[..|bs| - 1], snapshot);
    }
  }

  /** The cap is on each ballot, so stake that was not there at creation can count: in every run a
      tally is within the snapshot exactly when at most one voted, or the stake of those who did,
      each at their vote, is within it. */
  lemma TallyWithinIff(rules: Rules, g: Gov, ops: seq<Op>, id: H256)
    requires CollisionFree(rules) && Fresh(g) && id in Run(rules, g, ops).proposals
    ensures var p, bs := Run(rules, g, ops).proposals[id], Ballots(rules, g, ops, id);
            Votes(p) <= p.snapshot <==> |bs| <= 1 || Staked(bs) <= p.snapshot
  {
    CountedOnce(rules, g, ops, id);
    var p, bs := Run(rules, g, ops).proposals[id], Ballots(rules, g, ops, id);
    CastAddsUp(bs);
    forall i | 0 <= i < |bs| ensures Capped(bs[i], p.snapshot) {
      assert InTime(p, bs[i]);
    }
    WeightsWithin(bs, p.snapshot);
  }

  lemma RunFour(rules: Rules, g: Gov, a: Op, b: Op, c: Op, d: Op)
    ensures Run(rules, g, [a, b, c, d]) == Step(rules, Step(rules, Step(rules, Step(rules, g, a), b), c), d)
  {
    assert [a, b, c, d][..3] == [a, b, c] && [a, b, c][..2] == [a, b] && [a, b][..1] == [a] && [a][..0] == [];
    assert Run(rules, g, [a]) == Step(rules, Run(rules, g, []), a);
    assert Run(rules, g, [a, b]) == Step(rules, Run(rules, g, [a]), b);
    assert Run(rules, g, [a, b, c]) == Step(rules, Run(rules, g, [a, b]), c);
  }

  lemma OneStaker(stakes: Balances, a: Address)
    requires stakes.Keys == {a}
    ensures TotalOf(stakes) == stakes[a]
  {
    SumPick(stakes, AmountWeight(), a);
    assert stakes - {a} == map[];
  }

  /** One unit is staked when the proposal is made; another, staked after that, votes too, and the
      tally is twice the snapshot. */
  lemma LateStakeCounts(rules: Rules, e: Effects)
    requires 0 < rules.votingPeriod
    ensures var id := rules.hash(0, 1, 0);
            var ops := [SubmitTx(1, Signal(""), 0), VoteTx(1, id, Yes, 0), Restake(2, 1), VoteTx(2, id, Yes, 0)];
            var ps := Run(rules, Gov(map[], 0, map[1 := 1], e), ops).proposals;
            id in ps && ps[id].snapshot == 1 && Votes(ps[id]) == 2
  {
    var id := rules.hash(0, 1, 0);
    var a, b, c, d := SubmitTx(1, Signal(""), 0), VoteTx(1, id, Yes, 0), Restake(2, 1), VoteTx(2, id, Yes, 0);
    var g := Gov(map[], 0, map[1 := 1], e);
    RunFour(rules, g, a, b, c, d);
    OneStaker(g.stakes, 1);
    var g1 := Step(rules, g, a);
    assert g1.proposals[id] == Proposal(1, Signal(""), 0, rules.votingPeriod, Active, 0, 0, 0, [], 1);
    var g2 := Step(rules, g1, b);
    assert g2.proposals[id].voters == [1] && g2.proposals[id].yes == 1;
  }

  // ----- decisions are final

  ghost predicate Decided(p: Proposal) {
    p.status == Rejected || p.status == Executed
  }

  lemma StepKeepsDecided(rules: Rules, g: Gov, op: Op, id: H256)
    requires CollisionFree(rules) && Inv(rules, g) && id in g.proposals && Decided(g.proposals[id])
    ensures id in Step(rules, g, op).proposals && Step(rules, g, op).proposals[id] == g.proposals[id]
  {
    match op
    case SubmitTx(sender, action, block) =>
      FreshId(rules, g, sender, block);
    case VoteTx(_, _, _, _) =>
    case SettleBlock(block, totalStaked) =>
      if Settle(rules, g, block, totalStaked).Ok? {
        SettleIsPointwise(rules, g, block, totalStaked);
      }
    case Restake(_, _) =>
  }

  /** A rejected or executed proposal never changes again. */
  lemma {:induction false} DecidedIsFinal(rules: Rules, g: Gov, ops: seq<Op>, id: H256)
    requires CollisionFree(rules) && Inv(rules, g) && id in g.proposals && Decided(g.proposals[id])
    ensures Inv(rules, Run(rules, g, ops))
    ensures id in Run(rules, g, ops).proposals && Run(rules, g, ops).proposals[id] == g.proposals[id]
    decreases |ops|
  {
    if ops != [] {
      var init, op := ops[..|ops| - 1], ops[|ops| - 1];
      DecidedIsFinal(rules, g, init, id);
      StepKeeps(rules, Run(rules, g, init), op);
      StepKeepsDecided(rules, Run(rules, g, init), op, id);
    }
  }

  // ----- executed means earned

  /** The proposals one step executes, in order. */
  ghost function ExecutedBy(rules: Rules, g: Gov, op: Op): seq<H256> {
    if op.SettleBlock? && TallyFits(g.proposals, op.block)
    then DueIds(FinalizeAll(rules, g.proposals, op.block, op.totalStaked), op.block)
    else []
  }

  /** Settlement `i` found `p`'s final tally closed, with quorum and threshold. */
  ghost predicate QueuedBy(rules: Rules, g: Gov, ops: seq<Op>, id: H256, p: Proposal, i: nat)
    requires i < |ops|
  {
    ops[i].SettleBlock?
    && var q := Run(rules, g, ops[..i]).proposals;
       id in q && Ended(q[id], ops[i].block) && p == q[id].(status := p.status)
       && Votes(p) <= U128_MAX && HasQuorum(p, ops[i].totalStaked) && PassesThreshold(p)
  }

  /** Settlement `j` executed the proposal, the delay or more after settlement `i`. */
  ghost predicate ExecutedAt(rules: Rules, g: Gov, ops: seq<Op>, id: H256, i: nat, j: nat)
    requires i < |ops| && j < |ops|
  {
    && i <= j && ops[i].SettleBlock? && ops[j].SettleBlock?
    && id in ExecutedBy(rules, Run(rules, g, ops[..j]), ops[j])
    && ops[i].block + rules.executionDelay <= ops[j].block
  }

  ghost predicate EarnedBy(rules: Rules, g: Gov, ops: seq<Op>, id: H256, p: Proposal, i: nat, j: nat)
    requires i < |ops| && j < |ops|
  {
    QueuedBy(rules, g, ops, id, p, i) && ExecutedAt(rules, g, ops, id, i, j)
  }

  ghost predicate Earned(rules: Rules, g: Gov, ops: seq<Op>, id: H256, p: Proposal) {
    match p.status
    case Queued(after) =>
      exists i :: 0 <= i < |ops| && QueuedBy(rules, g, ops, id, p, i) && after == ops[i].block + rules.executionDelay
    case Executed =>
      exists i, j :: 0 <= i < |ops| && 0 <= j < |ops| && EarnedBy(rules, g, ops, id, p, i, j)
    case _ => true
  }

  lemma QueuedStays(rules: Rules, g: Gov, ops: seq<Op>, op: Op, id: H256, p: Proposal, i: nat)
    requires i < |ops| && QueuedBy(rules, g, ops, id, p, i)
    ensures QueuedBy(rules, g, ops + [op], id, p, i)
  {
    assert (ops + [op])[..i] == ops[..i];
  }

  lemma ExecutedStays(rules: Rules, g: Gov, ops: seq<Op>, op: Op, id: H256, i: nat, j: nat)
    requires i < |ops| && j < |ops| && ExecutedAt(rules, g, ops, id, i, j)
    ensures ExecutedAt(rules, g, ops + [op], id, i, j)
  {
    assert (ops + [op])[..j] == ops[..j];
  }

  lemma EarnedStays(rules: Rules, g: Gov, ops: seq<Op>, op: Op, id: H256, p: Proposal)
    requires Earned(rules, g, ops, id, p)
    ensures Earned(rules, g, ops + [op], id, p)
  {
    match p.status
    case Queued(after) =>
      var i :| 0 <= i < |ops| && QueuedBy(rules, g, ops, id, p, i) && after == ops[i].block + rules.executionDelay;
      QueuedStays(rules, g, ops, op, id, p, i);
    case Executed =>
      var i, j :| 0 <= i < |ops| && 0 <= j < |ops| && EarnedBy(rules, g, ops, id, p, i, j);
      QueuedStays(rules, g, ops, op, id, p, i);
      ExecutedStays(rules, g, ops, op, id, i, j);
      assert EarnedBy(rules, g, ops + [op], id, p, i, j);
    case _ =>
  }

  /** Tally and counting rules do not look at the status. */
  lemma StatusAside(p: Proposal, s: Status, totalStaked: u128)
    requires Votes(p) <= U128_MAX
    ensures HasQuorum(p.(status := s), totalStaked) == HasQuorum(p, totalStaked)
    ensures PassesThreshold(p.(status := s)) == PassesThreshold(p)
  {
  }

  lemma DueIsExecuted(rules: Rules, g: Gov, block: nat, totalStaked: u128, id: H256)
    requires id in g.proposals && TallyFits(g.proposals, block)
    ensures id in ExecutedBy(rules, g, SettleBlock(block, totalStaked))
            <==> Due(Finalized(rules, g.proposals[id], block, totalStaked), block)
  {
  }

  /** A queued proposal comes due. */
  lemma DueEarned(rules: Rules, g: Gov, ops: seq<Op>, block: nat, totalStaked: u128, id: H256)
    requires id in Run(rules, g, ops).proposals && TallyFits(Run(rules, g, ops).proposals, block)
    requires var p := Run(rules, g, ops).proposals[id];
             Due(p, block) && Earned(rules, g, ops, id, p)
    ensures Earned(rules, g, ops + [SettleBlock(block, totalStaked)], id, Run(rules, g, ops).proposals[id].(status := Executed))
  {
    var op := SettleBlock(block, totalStaked);
    var more, n := ops + [op], |ops|;
    assert more[..n] == ops && more[n] == op;
    var p := Run(rules, g, ops).proposals[id];
    var i :| 0 <= i < |ops| && QueuedBy(rules, g, ops, id, p, i) && p.status.executeAfter == ops[i].block + rules.executionDelay;
    DueIsExecuted(rules, Run(rules, g, ops), block, totalStaked, id);
    QueuedStays(rules, g, ops, op, id, p, i);
    StatusAside(p, Executed, ops[i].totalStaked);
    assert EarnedBy(rules, g, more, id, p.(status := Executed), i, n);
  }

  /** An active proposal is queued, and executed at once if there is no delay. */
  lemma EndedEarned(rules: Rules, g: Gov, ops: seq<Op>, block: nat, totalStaked: u128, id: H256)
    requires id in Run(rules, g, ops).proposals && TallyFits(Run(rules, g, ops).proposals, block)
    requires var p := Run(rules, g, ops).proposals[id];
             Ended(p, block) && HasQuorum(p, totalStaked) && PassesThreshold(p)
    ensures Earned(rules, g, ops + [SettleBlock(block, totalStaked)], id,
                   Settled(rules, Run(rules, g, ops).proposals[id], block, totalStaked))
  {
    var op := SettleBlock(block, totalStaked);
    var more, n := ops + [op], |ops|;
    assert more[..n] == ops && more[n] == op;
    var p := Run(rules, g, ops).proposals[id];
    var p' := Settled(rules, p, block, totalStaked);
    StatusAside(p, p'.status, totalStaked);
    DueIsExecuted(rules, Run(rules, g, ops), block, totalStaked, id);
    assert QueuedBy(rules, g, more, id, p', n);
    if p'.status == Executed {
      assert EarnedBy(rules, g, more, id, p', n, n);
    }
  }

  lemma SettledEarned(rules: Rules, g: Gov, ops: seq<Op>, block: nat, totalStaked: u128, id: H256)
    requires id in Run(rules, g, ops).proposals && TallyFits(Run(rules, g, ops).proposals, block)
    requires Earned(rules, g, ops, id, Run(rules, g, ops).proposals[id])
    ensures Earned(rules, g, ops + [SettleBlock(block, totalStaked)], id,
                   Settled(rules, Run(rules, g, ops).proposals[id], block, totalStaked))
  {
    var p := Run(rules, g, ops).proposals[id];
    EarnedStays(rules, g, ops, SettleBlock(block, totalStaked), id, p);
    if Due(p, block) {
      DueEarned(rules, g, ops, block, totalStaked, id);
    } else if Ended(p, block) && HasQuorum(p, totalStaked) && PassesThreshold(p) {
      EndedEarned(rules, g, ops, block, totalStaked, id);
    }
  }

  /** In every run, a queued proposal was queued by a settlement at or after the end of its
      voting that found its tally with quorum and threshold, and an executed one was executed by
      a settlement no earlier than the delay after that; the tally is still the one counted. */
  lemma {:induction false} ExecutedMeansEarned(rules: Rules, g: Gov, ops: seq<Op>, id: H256)
    requires CollisionFree(rules) && Fresh(g)
    ensures id in Run(rules, g, ops).proposals ==> Earned(rules, g, ops, id, Run(rules, g, ops).proposals[id])
    decreases |ops|
  {
    if ops != [] {
      var init, op := ops[..|ops| - 1], ops[|ops| - 1];
      assert ops == init + [op];
      var before := Run(rules, g, init);
      ExecutedMeansEarned(rules, g, init, id);
      RunKeeps(rules, g, init);
      StepEarns(rules, g, init, op, id);
    }
  }

  lemma StepEarns(rules: Rules, g: Gov, ops: seq<Op>, op: Op, id: H256)
    requires CollisionFree(rules) && Inv(rules, Run(rules, g, ops))
    requires id in Run(rules, g, ops).proposals ==> Earned(rules, g, ops, id, Run(rules, g, ops).proposals[id])
    ensures var ps := Step(rules, Run(rules, g, ops), op).proposals;
            id in ps ==> Earned(rules, g, ops + [op], id, ps[id])
  {
    var before := Run(rules, g, ops);
    if id in before.proposals {
      EarnedStays(rules, g, ops, op, id, before.proposals[id]);
    }
    match op
    case SubmitTx(sender, action, block) =>
      FreshId(rules, before, sender, block);
    case VoteTx(_, _, _, _) =>
    case SettleBlock(block, totalStaked) =>
      SettleEarns(rules, g, ops, block, totalStaked, id);
    case Restake(_, _) =>
  }

  lemma SettleEarns(rules: Rules, g: Gov, ops: seq<Op>, block: nat, totalStaked: u128, id: H256)
    requires id in Run(rules, g, ops).proposals ==> Earned(rules, g, ops, id, Run(rules, g, ops).proposals[id])
    ensures var op := SettleBlock(block, totalStaked);
            var ps := Step(rules, Run(rules, g, ops), op).proposals;
            id in ps ==> Earned(rules, g, ops + [op], id, ps[id])
  {
    var before := Run(rules, g, ops);
    if Settle(rules, before, block, totalStaked).Ok? {
      SettleIsPointwise(rules, before, block, totalStaked);
      if id in before.proposals {
        SettledEarned(rules, g, ops, block, totalStaked, id);
      }
    } else if id in before.proposals {
      EarnedStays(rules, g, ops, SettleBlock(block, totalStaked), id, before.proposals[id]);
    }
  }

  // ----- every action takes effect once

  ghost function History(rules: Rules, g: Gov, ops: seq<Op>): seq<H256> {
    if ops == [] then []
    else
      var init := ops[..|ops| - 1];
      History(rules, g, init) + ExecutedBy(rules, Run(rules, g, init), ops[|ops| - 1])
  }

  lemma {:induction false} DueNoRepeats(ids: seq<H256>, ps: map<H256, Proposal>, block: nat)
    requires NoRepeats(ids) && forall x :: x in ids ==> x in ps
    ensures NoRepeats(DueAmong(ids, ps, block))
    decreases |ids|
  {
    if ids != [] {
      var init, last := ids[..|ids| - 1], ids[|ids| - 1];
      assert last !in init;
      DueNoRepeats(init, ps, block);
    }
  }

  lemma {:induction false} AppliedAppend(e: Effects, a: seq<H256>, b: seq<H256>, ps: map<H256, Proposal>)
    requires forall x :: x in a + b ==> x in ps
    requires forall x :: x in a ==> x in ps
    requires forall x :: x in b ==> x in ps
    ensures AppliedAll(e, a + b, ps) == AppliedAll(AppliedAll(e, a, ps), b, ps)
    decreases |b|
  {
    if b == [] {
      assert a + b == a;
    } else {
      var init := b[..|b| - 1];
      assert (a + b)[..|a + b| - 1] == a + init;
      AppliedAppend(e, a, init, ps);
    }
  }

  lemma {:induction false} AppliedSame(e: Effects, ids: seq<H256>, ps: map<H256, Proposal>, ps': map<H256, Proposal>)
    requires forall x :: x in ids ==> x in ps && x in ps' && ps[x].action == ps'[x].action
    ensures AppliedAll(e, ids, ps) == AppliedAll(e, ids, ps')
    decreases |ids|
  {
    if ids != [] {
      AppliedSame(e, ids[..|ids| - 1], ps, ps');
    }
  }

  /** A history fits a book: its members are exactly the executed proposals, none twice, and the
      effects are theirs, in that order. */
  ghost predicate Recorded(e: Effects, g: Gov, history: seq<H256>) {
    && NoRepeats(history)
    && (forall id :: id in history <==> id in g.proposals && g.proposals[id].status == Executed)
    && g.effects == AppliedAll(e, history, g.proposals)
  }

  lemma RecordedSame(e: Effects, g: Gov, g': Gov, history: seq<H256>)
    requires Recorded(e, g, history) && g'.effects == g.effects
    requires forall id :: id in g.proposals && g.proposals[id].status == Executed ==>
               id in g'.proposals && g'.proposals[id] == g.proposals[id]
    requires forall id :: id in g'.proposals && g'.proposals[id].status == Executed ==>
               id in g.proposals && g.proposals[id].status == Executed
    ensures Recorded(e, g', history)
  {
    AppliedSame(e, history, g.proposals, g'.proposals);
  }

  lemma FinalizeRecords(rules: Rules, e: Effects, g: Gov, history: seq<H256>, block: nat, totalStaked: u128)
    requires Recorded(e, g, history) && TallyFits(g.proposals, block)
    ensures Recorded(e, Gov(FinalizeAll(rules, g.proposals, block, totalStaked), g.nextId, g.stakes, g.effects), history)
  {
    RecordedSame(e, g, Gov(FinalizeAll(rules, g.proposals, block, totalStaked), g.nextId, g.stakes, g.effects), history);
  }

  lemma NoRepeatsJoin<T>(a: seq<T>, b: seq<T>)
    requires NoRepeats(a) && NoRepeats(b) && forall x :: x in a ==> x !in b
    ensures NoRepeats(a + b)
  {
    forall i, j | 0 <= i < j < |a + b| ensures (a + b)[i] != (a + b)[j] {
      if i < |a| <= j {
        assert a[i] in a && b[j - |a|] in b;
      }
    }
  }

  lemma ExecuteMembers(g: Gov, history: seq<H256>, block: nat)
    requires NoRepeats(history)
    requires forall id :: id in history <==> id in g.proposals && g.proposals[id].status == Executed
    ensures var all, ps := history + DueIds(g.proposals, block), ExecuteAll(g.proposals, block);
            NoRepeats(all) && forall id :: id in all <==> id in ps && ps[id].status == Executed
  {
    AscendingSorted(g.proposals.Keys);
    DueNoRepeats(Ascending(g.proposals.Keys), g.proposals, block);
    NoRepeatsJoin(history, DueIds(g.proposals, block));
  }

  lemma ExecuteEffects(e: Effects, g: Gov, history: seq<H256>, block: nat)
    requires forall id :: id in history ==> id in g.proposals
    requires g.effects == AppliedAll(e, history, g.proposals)
    ensures var due := DueIds(g.proposals, block);
            && (forall id :: id in history + due ==> id in g.proposals)
            && AppliedAll(g.effects, due, g.proposals) == AppliedAll(e, history + due, ExecuteAll(g.proposals, block))
  {
    var due := DueIds(g.proposals, block);
    AppliedAppend(e, history, due, g.proposals);
    AppliedSame(e, history + due, g.proposals, ExecuteAll(g.proposals, block));
  }

  lemma SettleRecords(rules: Rules, e: Effects, g: Gov, history: seq<H256>, block: nat, totalStaked: u128)
    requires Recorded(e, g, history) && Settle(rules, g, block, totalStaked).Ok?
    ensures Recorded(e, Settle(rules, g, block, totalStaked).value,
                     history + ExecutedBy(rules, g, SettleBlock(block, totalStaked)))
  {
    FinalizeRecords(rules, e, g, history, block, totalStaked);
    var g1 := Gov(FinalizeAll(rules, g.proposals, block, totalStaked), g.nextId, g.stakes, g.effects);
    ExecuteMembers(g1, history, block);
    ExecuteEffects(e, g1, history, block);
  }

  /** In every run, each executed proposal took effect exactly once, nothing else did, and the
      treasury, the pause switches and the records are the result of those actions in order. */
  lemma {:induction false} EffectsAreHistory(rules: Rules, g: Gov, ops: seq<Op>)
    requires CollisionFree(rules) && Fresh(g)
    ensures Recorded(g.effects, Run(rules, g, ops), History(rules, g, ops))
    decreases |ops|
  {
    if ops != [] {
      var init, op := ops[..|ops| - 1], ops[|ops| - 1];
      var before := Run(rules, g, init);
      EffectsAreHistory(rules, g, init);
      RunKeeps(rules, g, init);
      StepRecords(rules, g.effects, before, History(rules, g, init), op);
    }
  }

  lemma VoteRecords(e: Effects, g: Gov, history: seq<H256>, sender: Address, id: H256, choice: Choice, block: nat)
    requires Recorded(e, g, history) && CastVote(g, sender, id, choice, block).Ok?
    ensures Recorded(e, CastVote(g, sender, id, choice, block).value, history)
  {
    var g' := CastVote(g, sender, id, choice, block).value;
    assert g'.proposals[id].status == Active;
    RecordedSame(e, g, g', history);
  }

  lemma StepRecords(rules: Rules, e: Effects, g: Gov, history: seq<H256>, op: Op)
    requires CollisionFree(rules) && Inv(rules, g) && Recorded(e, g, history)
    ensures Recorded(e, Step(rules, g, op), history + ExecutedBy(rules, g, op))
  {
    assert history + [] == history;
    if Outcome(rules, g, op).Ok? {
      match op
      case SettleBlock(block, totalStaked) =>
        SettleRecords(rules, e, g, history, block, totalStaked);
      case VoteTx(sender, id, choice, block) =>
        VoteRecords(e, g, history, sender, id, choice, block);
      case SubmitTx(sender, _, block) =>
        FreshId(rules, g, sender, block);
        RecordedSame(e, g, Step(rules, g, op), history);
      case Restake(_, _) =>
        RecordedSame(e, g, Step(rules, g, op), history);
    }
  }

  // ----- treasury spending moves money and makes none

  ghost function Money(e: Effects): nat {
    TotalOf(e.balances)
  }

  lemma TransferConserves(b: Balances, from: Address, recipient: Address, amount: u128)
    requires TotalOf(b) <= U128_MAX && amount <= BalanceOf(b, from)
    ensures TotalOf(Transfer(b, from, recipient, amount)) == TotalOf(b)
  {
    if amount > 0 {
      var less: u128 := BalanceOf(b, from) - amount;
      TotalSet(b, from, less);
      var b1 := b[from := less];
      BalanceCounted(b1, recipient);
      TotalSet(b1, recipient, BalanceOf(b1, recipient) + amount);
    }
  }

  lemma AppliedConserves(e: Effects, a: Action)
    requires Money(e) <= U128_MAX
    ensures Money(Applied(e, a)) == Money(e)
  {
    if a.TreasurySpend? && a.amount <= BalanceOf(e.balances, e.treasury) {
      TransferConserves(e.balances, e.treasury, a.recipient, a.amount);
    }
  }

  lemma {:induction false} AllConserve(e: Effects, ids: seq<H256>, ps: map<H256, Proposal>)
    requires Money(e) <= U128_MAX && forall x :: x in ids ==> x in ps
    ensures Money(AppliedAll(e, ids, ps)) == Money(e)
    decreases |ids|
  {
    if ids != [] {
      var init := ids[..|ids| - 1];
      AllConserve(e, init, ps);
      AppliedConserves(AppliedAll(e, init, ps), ps[ids[|ids| - 1]].action);
    }
  }

  /** No run of governance creates or destroys money. */
  lemma MoneyConserved(rules: Rules, g: Gov, ops: seq<Op>)
    requires CollisionFree(rules) && Fresh(g) && Money(g.effects) <= U128_MAX
    ensures Money(Run(rules, g, ops).effects) == Money(g.effects)
  {
    EffectsAreHistory(rules, g, ops);
    AllConserve(g.effects, History(rules, g, ops), Run(rules, g, ops).proposals);
  }

  // ----- what quorum and threshold mean

  /** The counted products stay below 2^128 (they are computed with wrap-around). */
  ghost predicate InRange(p: Proposal) {
    10_000 * Votes(p) <= U128_MAX && 10_000 * p.snapshot <= U128_MAX
  }

  lemma NoWrap(n: u128, k: u128)
    requires k <= 10_000 && 10_000 * n <= U128_MAX
    ensures Times(n, k) == n * k
  {
    MulMono(k, 10_000, n);
    MulMono2(0, n, 0, k);
    DivUnique(n * k, TWO128, 0);
  }

  /** In range, quorum is 33% of the stake at creation; the threshold is 5001 yes votes in 10000
      yes and no votes, which is more than a strict majority. */
  lemma CountingMeans(rules: Rules, p: Proposal, totalStaked: u128)
    requires Shaped(rules, p) && InRange(p)
    ensures HasQuorum(p, totalStaked) <==> 10_000 * Votes(p) >= 3300 * p.snapshot
    ensures PassesThreshold(p) <==> 0 < p.yes + p.no && 4999 * p.yes >= 5001 * p.no
    ensures PassesThreshold(p) ==> p.yes > p.no
  {
    NoWrap(Votes(p), 10_000);
    NoWrap(p.snapshot, QUORUM_BPS);
    NoWrap(p.yes, 10_000);
    NoWrap(p.yes + p.no, PASS_THRESHOLD_BPS);
  }

  /** Voters times stake bounds the tally, so it bounds the range too. */
  lemma InRangeByVoters(rules: Rules, p: Proposal)
    requires Shaped(rules, p) && 10_000 * ((|p.voters| + 1) * p.snapshot) <= U128_MAX
    ensures InRange(p)
  {
    OneMoreVoter(|p.voters|, p.snapshot, Votes(p), 0);
    MulMono(1, |p.voters| + 1, p.snapshot);
  }

  /** A bare majority is not enough, whatever the documentation's "50% + 1" suggests. */
  lemma SlimMajorityFails(p: Proposal)
    requires p.yes == 5000 && p.no == 4999
    ensures !PassesThreshold(p)
  {
    NoWrap(p.yes, 10_000);
    NoWrap(p.yes + p.no, PASS_THRESHOLD_BPS);
  }

  /** Out of range the wrapped products can meet the quorum with next to no votes. */
  lemma QuorumWrapsOutOfRange(p: Proposal, totalStaked: u128)
    requires p.snapshot == 0x4000_0000_0000_0000_0000_0000_0000_0000 && Votes(p) == 1
    ensures HasQuorum(p, totalStaked) && 10_000 * Votes(p) < 3300 * p.snapshot
  {
    NoWrap(1, 10_000);
    DivUnique(p.snapshot * QUORUM_BPS, TWO128, 825);
  }

  /** The smallest count whose product with 10000 wraps: it leaves 8544. */
  const FIRST_WRAP: u128 := TWO128 / 10_000 + 1

  lemma FirstWraps(m: u128)
    requires 10_000 * m > U128_MAX
    ensures FIRST_WRAP <= m && Times(FIRST_WRAP, 10_000) == 8544 && Times(FIRST_WRAP, PASS_THRESHOLD_BPS) == 5001 * FIRST_WRAP
  {
    assert 10_000 * FIRST_WRAP == TWO128 + 8544;
    DivUnique(FIRST_WRAP * 10_000, TWO128, 1);
    DivUnique(FIRST_WRAP * PASS_THRESHOLD_BPS, TWO128, 0);
  }

  /** The counted quorum of `votes` out of `snapshot` is the true one. */
  ghost predicate QuorumRight(votes: u128, snapshot: u128) {
    Times(votes, 10_000) >= Times(snapshot, QUORUM_BPS) <==> 10_000 * votes >= 3300 * snapshot
  }

  lemma QuorumWrongBeyond(snapshot: u128, m: u128)
    requires 3 <= snapshot <= m && 10_000 * m > U128_MAX && 3300 * snapshot <= U128_MAX
    ensures exists v: u128 :: v <= m && !QuorumRight(v, snapshot)
  {
    FirstWraps(m);
    DivUnique(snapshot * QUORUM_BPS, TWO128, 0);
    assert !QuorumRight(FIRST_WRAP, snapshot);
  }

  /** Where the snapshot's own product wraps to `r`: the last count before the first wrap is wrongly
      enough, unless `r` is near the top, and then the snapshot or one less is wrongly too little. */
  lemma QuorumWrongSnapshot(snapshot: u128)
    requires 3300 * snapshot > U128_MAX
    ensures exists v: u128 :: v <= snapshot && !QuorumRight(v, snapshot)
  {
    var r := Times(snapshot, QUORUM_BPS);
    var last: u128 := FIRST_WRAP - 1;
    assert 10_000 * last == TWO128 - 1456;
    DivUnique(last * 10_000, TWO128, 0);
    if r <= TWO128 - 1456 {
      assert last <= snapshot && !QuorumRight(last, snapshot);
    } else {
      NextToWrap(snapshot);
      if Times(snapshot, 10_000) < r {
        assert !QuorumRight(snapshot, snapshot);
      } else {
        assert !QuorumRight(snapshot - 1, snapshot);
      }
    }
  }

  /** One vote less lowers a high product by 10000. */
  lemma NextToWrap(s: u128)
    requires 3300 * s > U128_MAX
    ensures Times(s, 10_000) >= 10_000 ==> Times(s - 1, 10_000) == Times(s, 10_000) - 10_000
  {
    var q := s * 10_000 / TWO128;
    DivBounds(s * 10_000, TWO128);
    if Times(s, 10_000) >= 10_000 {
      DivUnique((s - 1) * 10_000, TWO128, q);
    }
  }

  /** The multiple of 2^128 at which counting goes wrong first: one or two units of stake still
      need less than what the first wraps leave. */
  function FirstWrong(snapshot: u128): nat {
    if snapshot == 1 then 5 else if snapshot == 2 then 3 else 1
  }

  lemma SmallSnapshotRight(snapshot: u128, v: u128)
    requires 1 <= snapshot <= 2 && 10_000 * v < FirstWrong(snapshot) * TWO128
    ensures QuorumRight(v, snapshot)
  {
    NoWrap(snapshot, QUORUM_BPS);
    if v == 0 {
      NoWrap(v, 10_000);
      return;
    }
    var q := v * 10_000 / TWO128;
    DivBounds(v * 10_000, TWO128);
    WrapLeaves(v, q);
    assert Times(v, 10_000) == 10_000 * v - q * TWO128;
  }

  /** What the first wraps leave at least. */
  lemma WrapLeaves(v: u128, q: nat)
    requires q * TWO128 <= 10_000 * v && q <= 4 && 0 < v
    ensures 4176 <= 10_000 * v - q * TWO128
    ensures q <= 2 ==> 7088 <= 10_000 * v - q * TWO128
  {
    assert q == 0 || q == 1 || q == 2 || q == 3 || q == 4;
  }

  lemma SmallSnapshotWrong(snapshot: u128, m: u128)
    requires 1 <= snapshot <= 2 && FirstWrong(snapshot) * TWO128 <= 10_000 * m
    ensures exists v: u128 :: v <= m && !QuorumRight(v, snapshot)
  {
    NoWrap(snapshot, QUORUM_BPS);
    var k := FirstWrong(snapshot);
    var v: u128 := k * TWO128 / 10_000 + 1;
    DivUnique(v * 10_000, TWO128, k);
    assert v <= m && !QuorumRight(v, snapshot);
  }

  /** Quorum is counted right, for every tally up to `m` (the snapshot or more), exactly when
      10000 times `m` stays below 2^128, or a small multiple of it for one or two units of stake. */
  lemma QuorumRightIff(snapshot: u128, m: u128)
    requires 1 <= snapshot <= m
    ensures (forall v: u128 :: v <= m ==> QuorumRight(v, snapshot)) <==> 10_000 * m < FirstWrong(snapshot) * TWO128
  {
    if 10_000 * m < FirstWrong(snapshot) * TWO128 {
      forall v: u128 | v <= m ensures QuorumRight(v, snapshot) {
        if snapshot <= 2 {
          SmallSnapshotRight(snapshot, v);
        } else {
          NoWrap(v, 10_000);
          NoWrap(snapshot, QUORUM_BPS);
        }
      }
    } else if snapshot <= 2 {
      SmallSnapshotWrong(snapshot, m);
    } else if 3300 * snapshot <= U128_MAX {
      QuorumWrongBeyond(snapshot, m);
    } else {
      QuorumWrongSnapshot(snapshot);
    }
  }

  ghost predicate ThresholdRight(p: Proposal) {
    PassesThreshold(p) <==> 0 < p.yes + p.no && 4999 * p.yes >= 5001 * p.no
  }

  /** The threshold is counted right, for every tally of yes and no up to `m`, exactly when 10000
      times `m` stays below 2^128. */
  lemma ThresholdRightIff(m: u128)
    ensures (forall p: Proposal :: p.yes + p.no <= m ==> ThresholdRight(p)) <==> 10_000 * m <= U128_MAX
  {
    if 10_000 * m <= U128_MAX {
      forall p: Proposal | p.yes + p.no <= m ensures ThresholdRight(p) {
        NoWrap(p.yes, 10_000);
        NoWrap(p.yes + p.no, PASS_THRESHOLD_BPS);
      }
    } else {
      FirstWraps(m);
      var p := Proposal(0, Signal(""), 0, 0, Active, FIRST_WRAP, 0, 0, [], 0);
      assert !ThresholdRight(p);
    }
  }

  lemma TallyCarried(rules: Rules, p: Proposal, bs: seq<Ballot>, totalStaked: u128)
    requires Shaped(rules, p) && Tallied(p, bs) && Votes(p) <= U128_MAX && HasQuorum(p, totalStaked) && PassesThreshold(p)
    ensures InRange(p) ==> Cast(bs, Yes) > Cast(bs, No)
    ensures InRange(p) ==> 10_000 * (Cast(bs, Yes) + Cast(bs, No) + Cast(bs, Abstain)) >= 3300 * p.snapshot
    ensures forall i, j :: 0 <= i < j < |bs| ==> bs[i].voter != bs[j].voter
    ensures forall i :: 0 <= i < |bs| ==> bs[i].block < p.createdAt + rules.votingPeriod
  {
    if InRange(p) {
      CountingMeans(rules, p, totalStaked);
    }
    forall m, n | 0 <= m < n < |bs| ensures bs[m].voter != bs[n].voter {
      assert p.voters[m] != p.voters[n];
    }
    assert forall m :: 0 <= m < |bs| ==> InTime(p, bs[m]);
  }

  /** The promise of the whole: an executed proposal met the counted quorum and threshold with
      ballots of distinct voters, all in time, and the settlement that executed it waited out both
      the voting period and the delay. In range, the range in which counting is right, that is
      more yes than no and 33% of the stake at its creation. */
  lemma ExecutedMeansCarried(rules: Rules, g: Gov, ops: seq<Op>, id: H256) returns (k: nat)
    requires CollisionFree(rules) && Fresh(g)
    requires var ps := Run(rules, g, ops).proposals;
             id in ps && ps[id].status == Executed
    ensures var p, bs := Run(rules, g, ops).proposals[id], Ballots(rules, g, ops, id);
            && Tallied(p, bs) && PassesThreshold(p) && Votes(p) <= U128_MAX && HasQuorum(p, 0)
            && (InRange(p) ==>
                  && Cast(bs, Yes) > Cast(bs, No)
                  && 10_000 * (Cast(bs, Yes) + Cast(bs, No) + Cast(bs, Abstain)) >= 3300 * p.snapshot)
            && (forall i, j :: 0 <= i < j < |bs| ==> bs[i].voter != bs[j].voter)
            && (forall i :: 0 <= i < |bs| ==> bs[i].block < p.createdAt + rules.votingPeriod)
            && k < |ops|
            && ExecutedAfter(rules, g, ops, id, k, p.createdAt + rules.votingPeriod + rules.executionDelay)
  {
    var p := Run(rules, g, ops).proposals[id];
    RunKeeps(rules, g, ops);
    CountedOnce(rules, g, ops, id);
    ExecutedMeansEarned(rules, g, ops, id);
    var i;
    i, k :| 0 <= i < |ops| && 0 <= k < |ops| && EarnedBy(rules, g, ops, id, p, i, k);
    TallyCarried(rules, p, Ballots(rules, g, ops, id), ops[i].totalStaked);
  }

  /** Step `k` of the run is the settlement that executed `id`, at block `earliest` or later. */
  ghost predicate ExecutedAfter(rules: Rules, g: Gov, ops: seq<Op>, id: H256, k: nat, earliest: nat)
    requires k < |ops|
  {
    ops[k].SettleBlock? && earliest <= ops[k].block && id in ExecutedBy(rules, Run(rules, g, ops[..k]), ops[k])
  }
}
