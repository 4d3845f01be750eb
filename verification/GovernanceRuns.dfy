/** What every run of the governance state machine keeps: who counted, what was executed, when,
    and with what effect. */
module GovernanceRuns {
  import opened Primitives
  import opened Accounts
  import opened Governance

  /** A transaction, the settlement of a block, or a change of someone's stake in between. */
  datatype Op =
    | SubmitTx(sender: Address, action: Action, block: nat)
    | VoteTx(sender: Address, id: H256, choice: Choice, block: nat)
    | SettleBlock(block: nat, totalStaked: u128)
    | Restake(who: Address, amount: u128)

  ghost function Outcome(rules: Rules, g: Gov, op: Op): Result<Gov, GovError> {
    match op
    case SubmitTx(sender, action, block) => Propose(rules, g, sender, action, block)
    case VoteTx(sender, id, choice, block) => CastVote(g, sender, id, choice, block)
    case SettleBlock(block, totalStaked) => Settle(rules, g, block, totalStaked)
    case Restake(who, amount) => Ok(Gov(g.proposals, g.nextId, g.stakes[who := amount], g.effects))
  }

  /** A refused step changes nothing. */
  ghost function Step(rules: Rules, g: Gov, op: Op): Gov {
    match Outcome(rules, g, op)
    case Ok(g') => g'
    case Err(_) => g
  }

  ghost function Run(rules: Rules, g: Gov, ops: seq<Op>): Gov {
    if ops == [] then g else Step(rules, Run(rules, g, ops[..|ops| - 1]), ops[|ops| - 1])
  }

  ghost predicate Fresh(g: Gov) {
    g.proposals == map[] && g.nextId == 0
  }

  ghost predicate CollisionFree(rules: Rules) {
    forall n, a, b, n', a', b' :: rules.hash(n, a, b) == rules.hash(n', a', b') ==> n == n' && a == a' && b == b'
  }

  // ----- the shape of every reachable proposal

  ghost predicate NoRepeats<T>(s: seq<T>) {
    forall i, j :: 0 <= i < j < |s| ==> s[i] != s[j]
  }

  ghost predicate Shaped(rules: Rules, p: Proposal) {
    && 0 < p.snapshot
    && p.votingEnd == p.createdAt + rules.votingPeriod
    && NoRepeats(p.voters)
    && Votes(p) <= |p.voters| * p.snapshot
    && p.status != Passed
  }

  /** Its id is the hash of a counter value already used. */
  ghost predicate Named(rules: Rules, g: Gov, id: H256)
    requires id in g.proposals
  {
    exists n :: 0 <= n < g.nextId && id == rules.hash(n, g.proposals[id].proposer, g.proposals[id].createdAt)
  }

  ghost predicate Inv(rules: Rules, g: Gov) {
    forall id :: id in g.proposals ==> Shaped(rules, g.proposals[id]) && Named(rules, g, id)
  }

  /** What no step changes about a proposal: everything but its status and its tally. */
  ghost predicate SameMatter(p: Proposal, q: Proposal) {
    p.proposer == q.proposer && p.action == q.action && p.createdAt == q.createdAt
    && p.votingEnd == q.votingEnd && p.snapshot == q.snapshot
  }

  ghost predicate Continues(rules: Rules, g: Gov, g': Gov) {
    forall id :: id in g.proposals ==> id in g'.proposals && SameMatter(g.proposals[id], g'.proposals[id])
  }

  lemma FreshId(rules: Rules, g: Gov, sender: Address, block: nat)
    requires CollisionFree(rules) && Inv(rules, g)
    ensures rules.hash(g.nextId, sender, block) !in g.proposals
  {
    var id := rules.hash(g.nextId, sender, block);
    forall i | i in g.proposals ensures i != id {
      assert Named(rules, g, i);
    }
  }

  lemma NamedKeeps(rules: Rules, g: Gov, g': Gov, id: H256)
    requires id in g.proposals && Named(rules, g, id) && g.nextId <= g'.nextId
    requires id in g'.proposals && SameMatter(g.proposals[id], g'.proposals[id])
    ensures Named(rules, g', id)
  {
    var n :| 0 <= n < g.nextId && id == rules.hash(n, g.proposals[id].proposer, g.proposals[id].createdAt);
    assert id == rules.hash(n, g'.proposals[id].proposer, g'.proposals[id].createdAt);
  }

  lemma ProposeKeeps(rules: Rules, g: Gov, sender: Address, action: Action, block: nat)
    requires CollisionFree(rules) && Inv(rules, g)
    ensures match Propose(rules, g, sender, action, block)
            case Ok(g') => Inv(rules, g') && Continues(rules, g, g')
            case Err(_) => true
  {
    var r := Propose(rules, g, sender, action, block);
    if r.Ok? {
      var g', id := r.value, rules.hash(g.nextId, sender, block);
      FreshId(rules, g, sender, block);
      BalanceCounted(g.stakes, sender);
      var p := g'.proposals[id];
      assert g.nextId < g'.nextId && id == rules.hash(g.nextId, p.proposer, p.createdAt);
      assert Named(rules, g', id);
      forall i | i in g'.proposals ensures Shaped(rules, g'.proposals[i]) && Named(rules, g', i) {
        if i != id {
          NamedKeeps(rules, g, g', i);
        }
      }
    }
  }

  lemma OneMoreVoter(n: nat, snapshot: nat, votes: nat, weight: nat)
    requires votes <= n * snapshot && weight <= snapshot
    ensures votes + weight <= (n + 1) * snapshot
  {
    assert (n + 1) * snapshot == n * snapshot + snapshot;
  }

  lemma VotedKeeps(rules: Rules, p: Proposal, voter: Address, choice: Choice, stake: u128)
    requires Shaped(rules, p) && voter !in p.voters
    ensures match Voted(p, voter, choice, Weight(p, stake))
            case Ok(p') => Shaped(rules, p') && SameMatter(p, p') && Votes(p') == Votes(p) + Weight(p, stake) && p'.status == p.status
            case Err(_) => true
  {
    OneMoreVoter(|p.voters|, p.snapshot, Votes(p), Weight(p, stake));
  }

  lemma VoteKeeps(rules: Rules, g: Gov, sender: Address, id: H256, choice: Choice, block: nat)
    requires Inv(rules, g)
    ensures match CastVote(g, sender, id, choice, block)
            case Ok(g') => Inv(rules, g') && Continues(rules, g, g')
            case Err(_) => true
  {
    var r := CastVote(g, sender, id, choice, block);
    if r.Ok? {
      var g' := r.value;
      VotedKeeps(rules, g.proposals[id], sender, choice, BalanceOf(g.stakes, sender));
      forall i | i in g'.proposals ensures Named(rules, g', i) {
        NamedKeeps(rules, g, g', i);
      }
    }
  }

  /** One proposal through a settlement. */
  ghost function Settled(rules: Rules, p: Proposal, block: nat, totalStaked: u128): Proposal
    requires Ended(p, block) ==> Votes(p) <= U128_MAX
  {
    Matured(Finalized(rules, p, block, totalStaked), block)
  }

  lemma SettleIsPointwise(rules: Rules, g: Gov, block: nat, totalStaked: u128)
    requires Settle(rules, g, block, totalStaked).Ok?
    ensures var ps := Settle(rules, g, block, totalStaked).value.proposals;
            ps.Keys == g.proposals.Keys
            && (forall id :: id in ps ==> Ended(g.proposals[id], block) ==> Votes(g.proposals[id]) <= U128_MAX)
            && (forall id :: id in ps ==> ps[id] == Settled(rules, g.proposals[id], block, totalStaked))
  {
  }

  lemma SettledShape(rules: Rules, p: Proposal, block: nat, totalStaked: u128)
    requires Shaped(rules, p) && (Ended(p, block) ==> Votes(p) <= U128_MAX)
    ensures Shaped(rules, Settled(rules, p, block, totalStaked)) && SameMatter(p, Settled(rules, p, block, totalStaked))
  {
  }

  lemma SettleKeeps(rules: Rules, g: Gov, block: nat, totalStaked: u128)
    requires Inv(rules, g)
    ensures match Settle(rules, g, block, totalStaked)
            case Ok(g') => Inv(rules, g') && Continues(rules, g, g')
            case Err(_) => true
  {
    var r := Settle(rules, g, block, totalStaked);
    if r.Ok? {
      var g' := r.value;
      SettleIsPointwise(rules, g, block, totalStaked);
      forall i | i in g'.proposals ensures Shaped(rules, g'.proposals[i]) && Named(rules, g', i) && SameMatter(g.proposals[i], g'.proposals[i]) {
        SettledShape(rules, g.proposals[i], block, totalStaked);
        NamedKeeps(rules, g, g', i);
      }
    }
  }

  lemma StepKeeps(rules: Rules, g: Gov, op: Op)
    requires CollisionFree(rules) && Inv(rules, g)
    ensures Inv(rules, Step(rules, g, op)) && Continues(rules, g, Step(rules, g, op))
  {
    match op
    case SubmitTx(sender, action, block) => ProposeKeeps(rules, g, sender, action, block);
    case VoteTx(sender, id, choice, block) => VoteKeeps(rules, g, sender, id, choice, block);
    case SettleBlock(block, totalStaked) => SettleKeeps(rules, g, block, totalStaked);
    case Restake(who, amount) =>
      var g' := Step(rules, g, op);
      forall i | i in g'.proposals ensures Named(rules, g', i) {
        NamedKeeps(rules, g, g', i);
      }
  }

  lemma {:induction false} RunKeeps(rules: Rules, g: Gov, ops: seq<Op>)
    requires CollisionFree(rules) && Fresh(g)
    ensures Inv(rules, Run(rules, g, ops))
    decreases |ops|
  {
    if ops != [] {
      var init := ops[..|ops| - 1];
      RunKeeps(rules, g, init);
      StepKeeps(rules, Run(rules, g, init), ops[|ops| - 1]);
    }
  }
}
