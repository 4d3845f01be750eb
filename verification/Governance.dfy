/** On-chain governance: proposals, stake-weighted votes, quorum and threshold, the timelock and
    the effects of executed proposals, as one state machine over block numbers. */
module Governance {
  import opened Primitives
  import opened Accounts
  import opened Ascent

  const QUORUM_BPS: u128 := 3300
  const PASS_THRESHOLD_BPS: u128 := 5001

  /** The two periods in blocks (operators may override the defaults of 201600 and 28800) and the
      hash that names proposals. */
  datatype Rules = Rules(votingPeriod: nat, executionDelay: nat, hash: (nat, Address, nat) -> H256)

  /** `Signal` stands for every action that only records something. */
  datatype Action =
    | TreasurySpend(recipient: Address, amount: u128)
    | SetTreasury(treasury: Address)
    | DexPause(paused: bool)
    | BridgePause(paused: bool)
    | Signal(text: string)

  datatype Status = Active | Passed | Queued(executeAfter: nat) | Rejected | Executed

  datatype Choice = Yes | No | Abstain

  datatype Proposal = Proposal(
    proposer: Address, action: Action, createdAt: nat, votingEnd: nat, status: Status,
    yes: u128, no: u128, abstain: u128, voters: seq<Address>, snapshot: u128)

  datatype Effects = Effects(
    treasury: Address, balances: Balances, dexPaused: bool, bridgePaused: bool, signals: seq<string>)

  /** `stakes` holds the total stake of every account that has one. */
  datatype Gov = Gov(proposals: map<H256, Proposal>, nextId: nat, stakes: Balances, effects: Effects)

  datatype GovError = NoStake | UnknownProposal | NotActive | VotingEnded | AlreadyVoted | Panicked

  // ----- counting

  /** Release-mode multiplication. */
  function Times(a: u128, k: u128): u128 {
    a * k % TWO128
  }

  function Votes(p: Proposal): nat {
    p.yes + p.no + p.abstain
  }

  predicate HasQuorum(p: Proposal, totalStaked: u128)
    requires Votes(p) <= U128_MAX
  {
    var effective := if p.snapshot != 0 then p.snapshot else totalStaked;
    effective != 0 && Times(Votes(p), 10_000) >= Times(effective, QUORUM_BPS)
  }

  predicate PassesThreshold(p: Proposal) {
    var cast := WrapAdd(p.yes, p.no);
    cast != 0 && Times(p.yes, 10_000) >= Times(cast, PASS_THRESHOLD_BPS)
  }

  // ----- proposing and voting

  ghost function Propose(rules: Rules, g: Gov, sender: Address, action: Action, block: nat): Result<Gov, GovError> {
    if BalanceOf(g.stakes, sender) == 0 then Err(NoStake)
    else if TotalOf(g.stakes) > U128_MAX then Err(Panicked)
    else
      var p := Proposal(sender, action, block, block + rules.votingPeriod, Active, 0, 0, 0, [], TotalOf(g.stakes));
      Ok(Gov(g.proposals[rules.hash(g.nextId, sender, block) := p], g.nextId + 1, g.stakes, g.effects))
  }

  /** A voter's weight: its stake now, capped by all the stake there was at creation. */
  function Weight(p: Proposal, stake: u128): u128 {
    if p.snapshot != 0 && p.snapshot < stake then p.snapshot else stake
  }

  function Voted(p: Proposal, voter: Address, choice: Choice, weight: u128): Result<Proposal, GovError> {
    var voters := p.voters + [voter];
    match choice
    case Yes => if p.yes + weight > U128_MAX then Err(Panicked) else Ok(p.(yes := p.yes + weight, voters := voters))
    case No => if p.no + weight > U128_MAX then Err(Panicked) else Ok(p.(no := p.no + weight, voters := voters))
    case Abstain =>
      if p.abstain + weight > U128_MAX then Err(Panicked) else Ok(p.(abstain := p.abstain + weight, voters := voters))
  }

  function CastVote(g: Gov, sender: Address, id: H256, choice: Choice, block: nat): Result<Gov, GovError> {
    if id !in g.proposals then Err(UnknownProposal)
    else
      var p := g.proposals[id];
      var stake := BalanceOf(g.stakes, sender);
      if p.status != Active then Err(NotActive)
      else if p.votingEnd <= block then Err(VotingEnded)
      else if sender in p.voters then Err(AlreadyVoted)
      else if stake == 0 then Err(NoStake)
      else
        match Voted(p, sender, choice, Weight(p, stake))
        case Err(e) => Err(e)
        case Ok(p') => Ok(g.(proposals := g.proposals[id := p']))
  }

  // ----- settling a block

  predicate Ended(p: Proposal, block: nat) {
    p.status == Active && p.votingEnd <= block
  }

  function Finalized(rules: Rules, p: Proposal, block: nat, totalStaked: u128): Proposal
    requires Ended(p, block) ==> Votes(p) <= U128_MAX
  {
    if !Ended(p, block) then p
    else if HasQuorum(p, totalStaked) && PassesThreshold(p) then p.(status := Queued(block + rules.executionDelay))
    else p.(status := Rejected)
  }

  /** The tally of an ended proposal is added up with a checked `+`. */
  ghost predicate TallyFits(ps: map<H256, Proposal>, block: nat) {
    forall id :: id in ps && Ended(ps[id], block) ==> Votes(ps[id]) <= U128_MAX
  }

  ghost function FinalizeAll(rules: Rules, ps: map<H256, Proposal>, block: nat, totalStaked: u128): map<H256, Proposal>
    requires TallyFits(ps, block)
  {
    map id | id in ps :: Finalized(rules, ps[id], block, totalStaked)
  }

  predicate Due(p: Proposal, block: nat) {
    p.status.Queued? && p.status.executeAfter <= block
  }

  function Matured(p: Proposal, block: nat): Proposal {
    if Due(p, block) then p.(status := Executed) else p
  }

  ghost function ExecuteAll(ps: map<H256, Proposal>, block: nat): map<H256, Proposal> {
    map id | id in ps :: Matured(ps[id], block)
  }

  function DueAmong(ids: seq<H256>, ps: map<H256, Proposal>, block: nat): (due: seq<H256>)
    requires forall x :: x in ids ==> x in ps
    ensures forall x :: x in due <==> x in ids && Due(ps[x], block)
  {
    if ids == [] then []
    else
      var last := ids[|ids| - 1];
      DueAmong(ids[..|ids| - 1], ps, block) + if Due(ps[last], block) then [last] else []
  }

  /** The proposals a settlement executes, in the order it executes them. */
  function DueIds(ps: map<H256, Proposal>, block: nat): (due: seq<H256>)
    ensures forall x :: x in due <==> x in ps && Due(ps[x], block)
  {
    AscendingSorted(ps.Keys);
    DueAmong(Ascending(ps.Keys), ps, block)
  }

  /** Debit, then credit; the credit's failure is only logged. */
  function Transfer(b: Balances, from: Address, recipient: Address, amount: u128): Balances
    requires amount <= BalanceOf(b, from)
  {
    if amount == 0 then b
    else
      var b1 := b[from := BalanceOf(b, from) - amount];
      if BalanceOf(b1, recipient) + amount <= U128_MAX then b1[recipient := BalanceOf(b1, recipient) + amount] else b1
  }

  function Applied(e: Effects, a: Action): Effects {
    match a
    case TreasurySpend(recipient, amount) =>
      if amount <= BalanceOf(e.balances, e.treasury)
      then e.(balances := Transfer(e.balances, e.treasury, recipient, amount))
      else e
    case SetTreasury(t) => e.(treasury := t)
    case DexPause(on) => e.(dexPaused := on)
    case BridgePause(on) => e.(bridgePaused := on)
    case Signal(text) => e.(signals := e.signals + [text])
  }

  function AppliedAll(e: Effects, ids: seq<H256>, ps: map<H256, Proposal>): Effects
    requires forall x :: x in ids ==> x in ps
  {
    if ids == [] then e else Applied(AppliedAll(e, ids[..|ids| - 1], ps), ps[ids[|ids| - 1]].action)
  }

  /** One more proposal visited by the execution loop. */
  lemma VisitOne(e: Effects, seen: seq<H256>, id: H256, ps: map<H256, Proposal>, block: nat)
    requires id in ps && forall x :: x in seen ==> x in ps
    ensures var due := DueAmong(seen + [id], ps, block);
            if Due(ps[id], block)
            then |due| == |DueAmong(seen, ps, block)| + 1
                 && AppliedAll(e, due, ps) == Applied(AppliedAll(e, DueAmong(seen, ps, block), ps), ps[id].action)
            else due == DueAmong(seen, ps, block)
  {
    assert (seen + [id])[..|seen|] == seen;
    var before := DueAmong(seen, ps, block);
    assert (before + [id])[..|before|] == before;
  }

  /** Finalize what has ended, then execute what is due. */
  ghost function Settle(rules: Rules, g: Gov, block: nat, totalStaked: u128): Result<Gov, GovError> {
    if !TallyFits(g.proposals, block) then Err(Panicked)
    else
      var ps := FinalizeAll(rules, g.proposals, block, totalStaked);
      Ok(Gov(ExecuteAll(ps, block), g.nextId, g.stakes, AppliedAll(g.effects, DueIds(ps, block), ps)))
  }
}
