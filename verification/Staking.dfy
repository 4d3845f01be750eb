/** Staking, unstaking, unbonding and slashing over accounts, validators and pending releases. */
module Staking {
  import opened Primitives
  import opened MapSums
  import opened Accounts

  datatype Delegation = Delegation(delegator: Address, amount: u128)

  datatype Stake = Stake(total: u128, self: u128, commissionBps: u128, delegations: seq<Delegation>)

  datatype Unbonding = Unbonding(amount: u128, completion: nat, validator: Address)

  datatype Book = Book(
    balances: Balances,
    stakes: map<Address, Stake>,
    unbonding: map<Address, seq<Unbonding>>)

  datatype ExecError =
    | InsufficientBalance
    | StakeOverflow
    | NoSelfStake
    | UnstakeExceedsStake(staked: u128, requested: u128)
    | Panicked

  datatype Outcome = Outcome(book: Book, result: Result<(), ExecError>)

  function StakeOf(b: Book, v: Address): Stake {
    if v in b.stakes then b.stakes[v] else Stake(0, 0, 0, [])
  }

  function PendingOf(b: Book, a: Address): seq<Unbonding> {
    if a in b.unbonding then b.unbonding[a] else []
  }

  // ----- delegations

  /** Where `a` stands in the list, or its length. */
  function Find(ds: seq<Delegation>, a: Address): (i: nat)
    ensures i <= |ds| && (i < |ds| ==> ds[i].delegator == a)
    ensures forall j :: 0 <= j < i ==> ds[j].delegator != a
  {
    if ds == [] then 0 else if ds[0].delegator == a then 0 else 1 + Find(ds[1..], a)
  }

  function Nonzero(ds: seq<Delegation>): seq<Delegation> {
    if ds == [] then []
    else if ds[0].amount == 0 then Nonzero(ds[1..])
    else [ds[0]] + Nonzero(ds[1..])
  }

  ghost function Delegated(ds: seq<Delegation>): nat {
    if ds == [] then 0 else ds[0].amount + Delegated(ds[1..])
  }

  ghost predicate OnePerDelegator(ds: seq<Delegation>) {
    forall i, j :: 0 <= i < j < |ds| ==> ds[i].delegator != ds[j].delegator
  }

  /** What a validator's total is supposed to be. */
  ghost predicate Sound(s: Stake) {
    s.total == s.self + Delegated(s.delegations) && OnePerDelegator(s.delegations)
  }

  lemma {:induction false} DelegatedSet(ds: seq<Delegation>, i: nat, was: u128, v: u128)
    requires i < |ds| && was == ds[i].amount
    ensures Delegated(ds[i := Delegation(ds[i].delegator, v)]) == Delegated(ds) - was + v
    ensures was <= Delegated(ds)
    decreases i
  {
    var r := ds[i := Delegation(ds[i].delegator, v)];
    if i > 0 {
      DelegatedSet(ds[1..], i - 1, was, v);
      assert r[1..] == ds[1..][i - 1 := Delegation(ds[i].delegator, v)];
    } else {
      assert r[1..] == ds[1..];
    }
  }

  lemma {:induction false} DelegatedAppend(ds: seq<Delegation>, d: Delegation)
    ensures Delegated(ds + [d]) == Delegated(ds) + d.amount
    decreases |ds|
  {
    if ds == [] {
      assert ds + [d] == [d];
    } else {
      DelegatedAppend(ds[1..], d);
      assert (ds + [d])[1..] == ds[1..] + [d];
    }
  }

  lemma {:induction false} NonzeroKeeps(ds: seq<Delegation>)
    ensures Delegated(Nonzero(ds)) == Delegated(ds)
    ensures OnePerDelegator(ds) ==> OnePerDelegator(Nonzero(ds))
    ensures forall d :: d in Nonzero(ds) ==> d in ds && d.amount != 0
    decreases |ds|
  {
    if ds != [] {
      NonzeroKeeps(ds[1..]);
      if ds[0].amount != 0 {
        var r := Nonzero(ds[1..]);
        assert ([ds[0]] + r)[1..] == r;
        if OnePerDelegator(ds) {
          forall j | 0 <= j < |r|
            ensures r[j].delegator != ds[0].delegator
          {
            assert r[j] in ds[1..];
            var k :| 0 <= k < |ds[1..]| && ds[1..][k] == r[j];
            assert ds[k + 1] == r[j];
          }
        }
      }
    }
  }

  // ----- the operations

  function SetBalance(b: Book, a: Address, v: u128): Book {
    Book(b.balances[a := v], b.stakes, b.unbonding)
  }

  function SetStake(b: Book, v: Address, s: Stake): Book {
    Book(b.balances, b.stakes[v := s], b.unbonding)
  }

  function SetPending(b: Book, a: Address, es: seq<Unbonding>): Book {
    Book(b.balances, b.stakes, b.unbonding[a := es])
  }

  function AddStake(s: Stake, self: bool, sender: Address, amount: u128): Result<Stake, ExecError> {
    if self then
      if s.self + amount > U128_MAX || s.total + amount > U128_MAX then Err(StakeOverflow)
      else Ok(Stake(s.total + amount, s.self + amount, s.commissionBps, s.delegations))
    else if s.self == 0 then Err(NoSelfStake)
    else
      var i := Find(s.delegations, sender);
      var was := if i < |s.delegations| then s.delegations[i].amount else 0;
      if was + amount > U128_MAX || s.total + amount > U128_MAX then Err(StakeOverflow)
      else
        Ok(Stake(s.total + amount, s.self, s.commissionBps,
                 if i < |s.delegations| then s.delegations[i := Delegation(sender, was + amount)]
                 else s.delegations + [Delegation(sender, amount)]))
  }

  function ExecuteStake(b: Book, sender: Address, validator: Address, amount: u128): Outcome {
    if BalanceOf(b.balances, sender) < amount then Outcome(b, Err(InsufficientBalance))
    else
      var b1 := SetBalance(b, sender, BalanceOf(b.balances, sender) - amount);
      var s := AddStake(StakeOf(b1, validator), sender == validator, sender, amount);
      if s.Err? then Outcome(b1, Err(s.error)) else Outcome(SetStake(b1, validator, s.value), Ok(()))
  }

  function TakeStake(s: Stake, self: bool, sender: Address, amount: u128): Result<Stake, ExecError> {
    if self then
      if s.self < amount then Err(UnstakeExceedsStake(s.self, amount))
      else if s.total < amount then Err(Panicked)
      else Ok(Stake(s.total - amount, s.self - amount, s.commissionBps, s.delegations))
    else
      var i := Find(s.delegations, sender);
      if i == |s.delegations| then Err(UnstakeExceedsStake(0, amount))
      else if s.delegations[i].amount < amount then Err(UnstakeExceedsStake(s.delegations[i].amount, amount))
      else if s.total < amount then Err(Panicked)
      else
        Ok(Stake(s.total - amount, s.self, s.commissionBps,
                 Nonzero(s.delegations[i := Delegation(sender, s.delegations[i].amount - amount)])))
  }

  function ExecuteUnstake(b: Book, sender: Address, validator: Address, amount: u128, now: nat, period: nat): Outcome {
    var s := TakeStake(StakeOf(b, validator), sender == validator, sender, amount);
    if s.Err? then Outcome(b, Err(s.error))
    else
      var b1 := SetStake(b, validator, s.value);
      Outcome(SetPending(b1, sender, PendingOf(b1, sender) + [Unbonding(amount, now + period, validator)]), Ok(()))
  }

  // ----- releases

  ghost function Amounts(es: seq<Unbonding>): nat {
    if es == [] then 0 else Amounts(es[..|es| - 1]) + es[|es| - 1].amount
  }

  function Matured(es: seq<Unbonding>, now: nat): nat {
    if es == [] then 0
    else Matured(es[..|es| - 1], now) + (if es[|es| - 1].completion <= now then es[|es| - 1].amount else 0)
  }

  function StillPending(es: seq<Unbonding>, now: nat): seq<Unbonding> {
    if es == [] then []
    else StillPending(es[..|es| - 1], now) + (if es[|es| - 1].completion <= now then [] else [es[|es| - 1]])
  }

  ghost function MaturedWeight(now: nat): (Address, seq<Unbonding>) -> nat {
    (a: Address, es: seq<Unbonding>) => Matured(es, now)
  }

  /** What a release pass adds up over all addresses. */
  ghost function TotalMatured(u: map<Address, seq<Unbonding>>, now: nat): nat {
    Sum(u, MaturedWeight(now))
  }

  lemma {:induction false} TotalMaturedWithin(u: map<Address, seq<Unbonding>>, now: nat)
    ensures TotalMatured(u, now) <= Sum(u, PendingWeight())
    decreases |u|
  {
    if u != map[] {
      var a :| a in u;
      SumPick(u, MaturedWeight(now), a);
      SumPick(u, PendingWeight(), a);
      SizeDrops(u, a);
      ReleaseSplits(u[a], now);
      TotalMaturedWithin(u - {a}, now);
    }
  }

  /** With all VTT within an Amount, a release pass never aborts. */
  lemma ReleaseNoPanic(b: Book, now: nat)
    requires Vtt(b) <= U128_MAX
    ensures TotalMatured(b.unbonding, now) <= U128_MAX
  {
    TotalMaturedWithin(b.unbonding, now);
  }

  lemma {:induction false} ReleaseSplits(es: seq<Unbonding>, now: nat)
    ensures Matured(es, now) + Amounts(StillPending(es, now)) == Amounts(es)
    decreases |es|
  {
    if es != [] {
      ReleaseSplits(es[..|es| - 1], now);
      var p := StillPending(es[..|es| - 1], now);
      assert (p + [es[|es| - 1]])[..|p|] == p && p + [] == p;
    }
  }

  // ----- totals

  ghost function StakeTotal(s: Stake): nat {
    s.total
  }

  ghost function StakeWeight(): (Address, Stake) -> nat {
    (a: Address, s: Stake) => StakeTotal(s)
  }

  ghost function PendingWeight(): (Address, seq<Unbonding>) -> nat {
    (a: Address, es: seq<Unbonding>) => Amounts(es)
  }

  /** All VTT the staking system accounts for. */
  ghost function Vtt(b: Book): nat {
    TotalOf(b.balances) + Sum(b.stakes, StakeWeight()) + Sum(b.unbonding, PendingWeight())
  }

  ghost predicate AllSound(b: Book) {
    forall v :: v in b.stakes ==> Sound(b.stakes[v])
  }

  lemma BalanceSet(b: Book, a: Address, v: u128)
    ensures Vtt(SetBalance(b, a, v)) == Vtt(b) - BalanceOf(b.balances, a) + v && BalanceOf(b.balances, a) <= Vtt(b)
  {
    TotalSet(b.balances, a, v);
  }

  lemma StakeSet(b: Book, v: Address, s: Stake)
    ensures Vtt(SetStake(b, v, s)) == Vtt(b) - StakeOf(b, v).total + s.total
  {
    SumSet(b.stakes, StakeWeight(), v, StakeOf(b, v).total, s);
  }

  lemma PendingSet(b: Book, a: Address, es: seq<Unbonding>)
    ensures Vtt(SetPending(b, a, es)) == Vtt(b) - Amounts(PendingOf(b, a)) + Amounts(es)
    ensures Amounts(PendingOf(b, a)) + BalanceOf(b.balances, a) <= Vtt(b)
  {
    SumSet(b.unbonding, PendingWeight(), a, Amounts(PendingOf(b, a)), es);
    BalanceCounted(b.balances, a);
  }

  // ----- staking and unstaking keep the books

  lemma AddStakeSound(s: Stake, self: bool, sender: Address, amount: u128)
    requires Sound(s) && AddStake(s, self, sender, amount).Ok?
    ensures var s' := AddStake(s, self, sender, amount).value; Sound(s') && s'.total == s.total + amount
  {
    if !self {
      var i := Find(s.delegations, sender);
      if i == |s.delegations| {
        DelegatedAppend(s.delegations, Delegation(sender, amount));
      } else {
        var was := s.delegations[i].amount;
        DelegatedSet(s.delegations, i, was, was + amount);
      }
    }
  }

  lemma TakeStakeSound(s: Stake, self: bool, sender: Address, amount: u128)
    requires Sound(s)
    ensures TakeStake(s, self, sender, amount).Ok? ==>
              var s' := TakeStake(s, self, sender, amount).value; Sound(s') && s'.total == s.total - amount
  {
    if !self {
      var i := Find(s.delegations, sender);
      if i < |s.delegations| && amount <= s.delegations[i].amount {
        var was := s.delegations[i].amount;
        DelegatedSet(s.delegations, i, was, was - amount);
        NonzeroKeeps(s.delegations[i := Delegation(sender, was - amount)]);
      }
    }
  }

  lemma SetStakeSound(b: Book, v: Address, s: Stake)
    requires AllSound(b) && Sound(s)
    ensures AllSound(SetStake(b, v, s))
  {
  }

  lemma StakeMoves(b: Book, sender: Address, validator: Address, amount: u128, s: Stake)
    requires AllSound(b) && amount <= BalanceOf(b.balances, sender)
    requires AddStake(StakeOf(b, validator), sender == validator, sender, amount) == Ok(s)
    ensures var b' := SetStake(SetBalance(b, sender, BalanceOf(b.balances, sender) - amount), validator, s);
            AllSound(b') && Vtt(b') == Vtt(b)
  {
    var b1 := SetBalance(b, sender, BalanceOf(b.balances, sender) - amount);
    BalanceSet(b, sender, BalanceOf(b.balances, sender) - amount);
    assert StakeOf(b1, validator) == StakeOf(b, validator);
    AddStakeSound(StakeOf(b, validator), sender == validator, sender, amount);
    StakeSet(b1, validator, s);
    SetStakeSound(b1, validator, s);
  }

  lemma StakeKeeps(b: Book, sender: Address, validator: Address, amount: u128)
    requires AllSound(b) && ExecuteStake(b, sender, validator, amount).result.Ok?
    ensures var b' := ExecuteStake(b, sender, validator, amount).book; AllSound(b') && Vtt(b') == Vtt(b)
  {
    StakeMoves(b, sender, validator, amount, AddStake(StakeOf(b, validator), sender == validator, sender, amount).value);
  }

  lemma PendingGrows(b: Book, a: Address, e: Unbonding)
    ensures Vtt(SetPending(b, a, PendingOf(b, a) + [e])) == Vtt(b) + e.amount
  {
    var es := PendingOf(b, a);
    assert (es + [e])[..|es|] == es;
    PendingSet(b, a, es + [e]);
  }

  lemma UnstakeVtt(b: Book, sender: Address, validator: Address, s: Stake, e: Unbonding)
    requires s.total == StakeOf(b, validator).total - e.amount
    ensures Vtt(SetPending(SetStake(b, validator, s), sender, PendingOf(b, sender) + [e])) == Vtt(b)
  {
    var b1 := SetStake(b, validator, s);
    StakeSet(b, validator, s);
    assert PendingOf(b1, sender) == PendingOf(b, sender);
    PendingGrows(b1, sender, e);
  }

  lemma UnstakeMoves(b: Book, sender: Address, validator: Address, amount: u128, s: Stake, e: Unbonding)
    requires AllSound(b) && TakeStake(StakeOf(b, validator), sender == validator, sender, amount) == Ok(s) && e.amount == amount
    ensures var b' := SetPending(SetStake(b, validator, s), sender, PendingOf(b, sender) + [e]);
            AllSound(b') && Vtt(b') == Vtt(b)
  {
    TakeStakeSound(StakeOf(b, validator), sender == validator, sender, amount);
    SetStakeSound(b, validator, s);
    UnstakeVtt(b, sender, validator, s, e);
  }

  lemma UnstakeFailsAsTaking(b: Book, sender: Address, validator: Address, amount: u128, now: nat, period: nat)
    ensures ExecuteUnstake(b, sender, validator, amount, now, period).result == Err(Panicked)
            ==> TakeStake(StakeOf(b, validator), sender == validator, sender, amount) == Err(Panicked)
  {
  }

  /** Taking stake out of a sound validator never underflows the total. */
  lemma TakeStakeFits(s: Stake, self: bool, sender: Address, amount: u128)
    requires Sound(s)
    ensures TakeStake(s, self, sender, amount) != Err(Panicked)
  {
    if !self {
      var i := Find(s.delegations, sender);
      if i < |s.delegations| {
        DelegatedSet(s.delegations, i, s.delegations[i].amount, 0);
      }
    }
  }

  lemma TakeNoPanic(b: Book, sender: Address, validator: Address, amount: u128)
    requires AllSound(b)
    ensures TakeStake(StakeOf(b, validator), sender == validator, sender, amount) != Err(Panicked)
  {
    if validator in b.stakes {
      TakeStakeFits(b.stakes[validator], sender == validator, sender, amount);
    }
  }

  lemma UnstakeNoPanic(b: Book, sender: Address, validator: Address, amount: u128, now: nat, period: nat)
    requires AllSound(b)
    ensures ExecuteUnstake(b, sender, validator, amount, now, period).result != Err(Panicked)
  {
    TakeNoPanic(b, sender, validator, amount);
    UnstakeFailsAsTaking(b, sender, validator, amount, now, period);
  }

  lemma UnstakeKeeps(b: Book, sender: Address, validator: Address, amount: u128, now: nat, period: nat)
    requires AllSound(b) && ExecuteUnstake(b, sender, validator, amount, now, period).result.Ok?
    ensures var b' := ExecuteUnstake(b, sender, validator, amount, now, period).book; AllSound(b') && Vtt(b') == Vtt(b)
  {
    var s := TakeStake(StakeOf(b, validator), sender == validator, sender, amount).value;
    var e := Unbonding(amount, now + period, validator);
    assert ExecuteUnstake(b, sender, validator, amount, now, period).book
        == SetPending(SetStake(b, validator, s), sender, PendingOf(b, sender) + [e]);
    UnstakeMoves(b, sender, validator, amount, s, e);
  }

  // ----- releasing matured entries

  /** One address: its matured entries are credited, the others kept, an empty list dropped.
      A credit that does not fit is silently lost, as the source ignores that error. */
  function ReleaseFor(b: Book, a: Address, now: nat): Book {
    if a !in b.unbonding then b
    else
      var es := b.unbonding[a];
      var rest := StillPending(es, now);
      var matured := Matured(es, now);
      Book(if matured > 0 && BalanceOf(b.balances, a) + matured <= U128_MAX then b.balances[a := BalanceOf(b.balances, a) + matured] else b.balances,
           b.stakes,
           if rest == [] then b.unbonding - {a} else b.unbonding[a := rest])
  }

  /** All addresses, in the order a node happens to visit them. */
  function ReleaseAll(b: Book, order: seq<Address>, now: nat): Book {
    if order == [] then b else ReleaseFor(ReleaseAll(b, order[..|order| - 1], now), order[|order| - 1], now)
  }

  lemma ReleaseBalances(b: Book, a: Address, matured: u128)
    requires BalanceOf(b.balances, a) + matured <= U128_MAX
    ensures TotalOf(if matured > 0 then b.balances[a := BalanceOf(b.balances, a) + matured] else b.balances)
         == TotalOf(b.balances) + matured
  {
    TotalSet(b.balances, a, BalanceOf(b.balances, a) + matured);
  }

  lemma ReleasePending(b: Book, a: Address, rest: seq<Unbonding>)
    requires a in b.unbonding
    ensures Sum(if rest == [] then b.unbonding - {a} else b.unbonding[a := rest], PendingWeight())
         == Sum(b.unbonding, PendingWeight()) - Amounts(b.unbonding[a]) + Amounts(rest)
  {
    var was := Amounts(b.unbonding[a]);
    SumSet(b.unbonding, PendingWeight(), a, was, rest);
    SumDrop(b.unbonding, PendingWeight(), a, was);
  }

  lemma ReleaseForKeeps(b: Book, a: Address, now: nat)
    requires Vtt(b) <= U128_MAX
    ensures Vtt(ReleaseFor(b, a, now)) == Vtt(b) && ReleaseFor(b, a, now).stakes == b.stakes
  {
    if a in b.unbonding {
      var es := b.unbonding[a];
      ReleaseSplits(es, now);
      PendingSet(b, a, es);
      ReleaseBalances(b, a, Matured(es, now));
      ReleasePending(b, a, StillPending(es, now));
      var r := ReleaseFor(b, a, now);
      assert TotalOf(r.balances) == TotalOf(b.balances) + Matured(es, now);
    }
  }

  lemma {:induction false} ReleaseAllKeeps(b: Book, order: seq<Address>, now: nat)
    requires Vtt(b) <= U128_MAX
    ensures Vtt(ReleaseAll(b, order, now)) == Vtt(b) && ReleaseAll(b, order, now).stakes == b.stakes
    decreases |order|
  {
    if order != [] {
      ReleaseAllKeeps(b, order[..|order| - 1], now);
      ReleaseForKeeps(ReleaseAll(b, order[..|order| - 1], now), order[|order| - 1], now);
    }
  }

  // ----- runs

  datatype Op =
    | OpStake(sender: Address, validator: Address, amount: u128)
    | OpUnstake(sender: Address, validator: Address, amount: u128, now: nat, period: nat)
    | OpRelease(order: seq<Address>, time: nat)

  function Transact(b: Book, op: Op): Book {
    match op
    case OpStake(s, v, a) =>
      var o := ExecuteStake(b, s, v, a);
      if o.result.Ok? then o.book else b
    case OpUnstake(s, v, a, now, period) =>
      var o := ExecuteUnstake(b, s, v, a, now, period);
      if o.result.Ok? then o.book else b
    case OpRelease(order, time) => ReleaseAll(b, order, time)
  }

  function Run(b: Book, ops: seq<Op>): Book {
    if ops == [] then b else Transact(Run(b, ops[..|ops| - 1]), ops[|ops| - 1])
  }

  lemma TransactKeeps(b: Book, op: Op)
    requires AllSound(b) && Vtt(b) <= U128_MAX
    ensures AllSound(Transact(b, op)) && Vtt(Transact(b, op)) == Vtt(b)
  {
    match op
    case OpStake(s, v, a) =>
      if ExecuteStake(b, s, v, a).result.Ok? {
        StakeKeeps(b, s, v, a);
      }
    case OpUnstake(s, v, a, now, period) =>
      if ExecuteUnstake(b, s, v, a, now, period).result.Ok? {
        UnstakeKeeps(b, s, v, a, now, period);
      }
    case OpRelease(order, time) => ReleaseAllKeeps(b, order, time);
  }

  /** Over every run of stakes, unstakes and releases, each validator's total is its self-stake
      plus one entry per delegator, VTT in balances, stake and unbonding is conserved to the
      unit, and no unstake can underflow. */
  lemma {:induction false} RunKeeps(b: Book, ops: seq<Op>)
    requires AllSound(b) && Vtt(b) <= U128_MAX
    ensures AllSound(Run(b, ops)) && Vtt(Run(b, ops)) == Vtt(b)
    ensures forall s, v: Address, a: u128, now: nat, period: nat ::
              ExecuteUnstake(Run(b, ops), s, v, a, now, period).result != Err(Panicked)
    decreases |ops|
  {
    if ops != [] {
      RunKeeps(b, ops[..|ops| - 1]);
      TransactKeeps(Run(b, ops[..|ops| - 1]), ops[|ops| - 1]);
    }
    forall s, v: Address, a: u128, now: nat, period: nat
      ensures ExecuteUnstake(Run(b, ops), s, v, a, now, period).result != Err(Panicked)
    {
      UnstakeNoPanic(Run(b, ops), s, v, a, now, period);
    }
  }

  // ----- slashing

  /** The in-stake part of a slash: off the total, and off the self-stake as far as it goes. */
  function Slashed(s: Stake, amount: u128): Stake {
    var cut := if amount <= s.total then amount else s.total;
    var own := if cut > s.self then s.self else cut;
    Stake(s.total - cut, s.self - own, s.commissionBps, s.delegations)
  }

  /** Delegations are never cut, so a validator's books stay sound exactly when the slash is
      covered by its own stake. */
  lemma SlashKeepsSoundIff(s: Stake, amount: u128)
    requires Sound(s)
    ensures Sound(Slashed(s, amount)) <==> amount <= s.self || Delegated(s.delegations) == 0
  {
  }

  lemma FirstLeaves(s: Stake)
    requires s.delegations != []
    ensures var d := s.delegations[0];
            TakeStake(s, false, d.delegator, d.amount)
            == if s.total < d.amount then Err(Panicked)
               else Ok(Stake(s.total - d.amount, s.self, s.commissionBps, Nonzero(s.delegations[1..])))
  {
    var ds, d := s.delegations, s.delegations[0];
    assert Find(ds, d.delegator) == 0;
    var left := ds[0 := Delegation(d.delegator, 0)];
    assert left[1..] == ds[1..];
    assert Nonzero(left) == Nonzero(ds[1..]);
  }

  lemma {:induction false} NonzeroShorter(ds: seq<Delegation>)
    ensures |Nonzero(ds)| <= |ds|
    decreases |ds|
  {
    if ds != [] {
      NonzeroShorter(ds[1..]);
    }
  }

  /** Every delegator takes its whole entry out, one after another. */
  function AllLeave(s: Stake): Result<Stake, ExecError>
    decreases |s.delegations|
  {
    if s.delegations == [] then Ok(s)
    else
      FirstLeaves(s);
      NonzeroShorter(s.delegations[1..]);
      var r := TakeStake(s, false, s.delegations[0].delegator, s.delegations[0].amount);
      if r.Err? then r else AllLeave(r.value)
  }

  lemma {:induction false} AllLeaveIff(s: Stake)
    ensures AllLeave(s).Ok? <==> Delegated(s.delegations) <= s.total
    ensures AllLeave(s).Err? ==> AllLeave(s) == Err(Panicked)
    decreases |s.delegations|
  {
    if s.delegations != [] {
      FirstLeaves(s);
      NonzeroShorter(s.delegations[1..]);
      NonzeroKeeps(s.delegations[1..]);
      var r := TakeStake(s, false, s.delegations[0].delegator, s.delegations[0].amount);
      if r.Ok? {
        AllLeaveIff(r.value);
      }
    }
  }

  /** After a slash all delegators can take their stake out exactly when the self-stake covered it
      or nothing is delegated; otherwise one of them underflows the total and is stranded. */
  lemma DelegatorsCanLeaveIff(s: Stake, amount: u128)
    requires Sound(s)
    ensures AllLeave(Slashed(s, amount)).Ok? <==> amount <= s.self || Delegated(s.delegations) == 0
    ensures AllLeave(Slashed(s, amount)).Err? ==> AllLeave(Slashed(s, amount)) == Err(Panicked)
  {
    AllLeaveIff(Slashed(s, amount));
  }
}
