/** Redemption of a disposed asset: the issuer funds a pool of VTT and each holder trades all
    their units for a pro-rata share of what is left. */
module Redemption {
  import opened Primitives
  import opened Nonlinear
  import opened MapSums
  import opened Accounts

  datatype Status = Active | RedemptionPending | Redeemed

  datatype Units = Units(available: u128, locked: u128)

  datatype ExecError =
    | AmountIsZero
    | NotPending
    | NotIssuer
    | InsufficientBalance
    | PoolOverflow
    | ZeroSupply
    | EmptyPool
    | NoTokens
    | ShareOverflow
    | CreditFailed
    | Panicked

  /** VTT balances, the holders of one asset and the asset's record. */
  datatype Book = Book(
    balances: Balances,
    holders: map<Address, Units>,
    status: Status,
    issuer: Address,
    supply: u128,
    pool: u128)

  datatype Outcome = Outcome(book: Book, result: Result<u128, ExecError>)

  function UnitsOf(b: Book, a: Address): Units {
    if a in b.holders then b.holders[a] else Units(0, 0)
  }

  function HeldBy(b: Book, a: Address): nat {
    UnitsOf(b, a).available + UnitsOf(b, a).locked
  }

  // ----- the two operations

  function Debited(b: Book, sender: Address, amount: u128): Book
    requires amount <= BalanceOf(b.balances, sender)
  {
    Book(b.balances[sender := BalanceOf(b.balances, sender) - amount], b.holders, b.status, b.issuer, b.supply, b.pool)
  }

  function Fund(b: Book, sender: Address, amount: u128): Outcome {
    if amount == 0 then Outcome(b, Err(AmountIsZero))
    else if b.status != RedemptionPending then Outcome(b, Err(NotPending))
    else if b.issuer != sender then Outcome(b, Err(NotIssuer))
    else if BalanceOf(b.balances, sender) < amount then Outcome(b, Err(InsufficientBalance))
    else
      var d := Debited(b, sender, amount);
      if d.pool + amount > U128_MAX then Outcome(d, Err(PoolOverflow))
      else Outcome(Book(d.balances, d.holders, d.status, d.issuer, d.supply, d.pool + amount), Ok(amount))
  }

  /** The pro-rata share; the product must fit in u128 or the claim is refused. */
  function Share(held: nat, pool: u128, supply: u128): (r: Result<u128, ExecError>)
    requires 0 < supply
  {
    if held * pool > U128_MAX then Err(ShareOverflow)
    else
      ShareFits(held, pool, supply);
      Ok(held * pool / supply)
  }

  lemma ShareFits(held: nat, pool: nat, supply: nat)
    requires 0 < supply && held * pool <= U128_MAX
    ensures 0 <= held * pool / supply < TWO128
  {
    MulMono2(0, held, 0, pool);
    DivLe(held * pool, supply, U128_MAX);
    MulMono(1, supply, U128_MAX + 1);
  }

  function Burned(b: Book, sender: Address): Book {
    Book(b.balances, b.holders[sender := Units(0, 0)], b.status, b.issuer, b.supply, b.pool)
  }

  function Settled(b: Book, sender: Address, held: u128, share: u128): Book
    requires BalanceOf(b.balances, sender) + share <= U128_MAX && held <= b.supply && share <= b.pool
  {
    Book(b.balances[sender := BalanceOf(b.balances, sender) + share], b.holders,
         if b.supply == held then Redeemed else b.status, b.issuer, b.supply - held, b.pool - share)
  }

  function Claim(b: Book, sender: Address): Outcome {
    if b.status != RedemptionPending then Outcome(b, Err(NotPending))
    else if b.supply == 0 then Outcome(b, Err(ZeroSupply))
    else if b.pool == 0 then Outcome(b, Err(EmptyPool))
    else
      var held := HeldBy(b, sender);
      if held > U128_MAX then Outcome(b, Err(Panicked))
      else if held == 0 then Outcome(b, Err(NoTokens))
      else
        var share := Share(held, b.pool, b.supply);
        if share.Err? then Outcome(b, Err(share.error))
        else
          var d := Burned(b, sender);
          if BalanceOf(d.balances, sender) + share.value > U128_MAX then Outcome(d, Err(CreditFailed))
          else if d.supply < held || d.pool < share.value then Outcome(d, Err(Panicked))
          else Outcome(Settled(d, sender, held, share.value), Ok(share.value))
  }

  /** The object the executor works on. */
  class AssetLedger {
    var balances: map<Address, u128>
    var holders: map<Address, Units>
    var status: Status
    const issuer: Address
    var totalSupply: u128
    var redemptionPool: u128

    function View(): Book
      reads this
    {
      Book(balances, holders, status, issuer, totalSupply, redemptionPool)
    }

    constructor (b: Book)
      ensures View() == b
    {
      balances, holders, status, issuer, totalSupply, redemptionPool := b.balances, b.holders, b.status, b.issuer, b.supply, b.pool;
    }

    method FundRedemptionPool(sender: Address, amount: u128) returns (r: Result<u128, ExecError>)
      modifies this
      ensures Outcome(View(), r) == Fund(old(View()), sender, amount)
    {
      if amount == 0 {
        return Err(AmountIsZero);
      }
      if status != RedemptionPending {
        return Err(NotPending);
      }
      if issuer != sender {
        return Err(NotIssuer);
      }
      var balance := if sender in balances then balances[sender] else 0;
      if balance < amount {
        return Err(InsufficientBalance);
      }
      balances := balances[sender := balance - amount];
      if redemptionPool + amount > U128_MAX {
        return Err(PoolOverflow);
      }
      redemptionPool := redemptionPool + amount;
      return Ok(amount);
    }

    method ClaimRedemption(sender: Address) returns (r: Result<u128, ExecError>)
      modifies this
      ensures Outcome(View(), r) == Claim(old(View()), sender)
    {
      if status != RedemptionPending {
        return Err(NotPending);
      }
      if totalSupply == 0 {
        return Err(ZeroSupply);
      }
      if redemptionPool == 0 {
        return Err(EmptyPool);
      }
      var units := if sender in holders then holders[sender] else Units(0, 0);
      if units.available + units.locked > U128_MAX {
        return Err(Panicked);
      }
      var held: u128 := units.available + units.locked;
      if held == 0 {
        return Err(NoTokens);
      }
      var share := Share(held, redemptionPool, totalSupply);
      if share.Err? {
        return share;
      }
      holders := holders[sender := Units(0, 0)];
      var balance := if sender in balances then balances[sender] else 0;
      if balance + share.value > U128_MAX {
        return Err(CreditFailed);
      }
      if totalSupply < held || redemptionPool < share.value {
        return Err(Panicked);
      }
      balances := balances[sender := balance + share.value];
      totalSupply := totalSupply - held;
      redemptionPool := redemptionPool - share.value;
      if totalSupply == 0 {
        status := Redeemed;
      }
      return Ok(share.value);
    }
  }

  // ----- runs

  datatype Op = OpFund(sender: Address, amount: u128) | OpClaim(sender: Address)

  function Apply(b: Book, op: Op): Outcome {
    match op
    case OpFund(sender, amount) => Fund(b, sender, amount)
    case OpClaim(sender) => Claim(b, sender)
  }

  function Transact(b: Book, op: Op): Book {
    var o := Apply(b, op);
    if o.result.Ok? then o.book else b
  }

  function Run(b: Book, ops: seq<Op>): Book {
    if ops == [] then b else Transact(Run(b, ops[..|ops| - 1]), ops[|ops| - 1])
  }

  // ----- totals

  ghost function UnitCount(u: Units): nat {
    u.available + u.locked
  }

  ghost function UnitWeight(): (Address, Units) -> nat {
    (a: Address, u: Units) => UnitCount(u)
  }

  ghost function Outstanding(b: Book): nat {
    Sum(b.holders, UnitWeight())
  }

  /** All VTT in sight: balances and what waits in the pool. */
  ghost function Vtt(b: Book): nat {
    TotalOf(b.balances) + b.pool
  }

  /** Holders own the whole supply, redemption is over exactly when none is left, and then the
      pool is empty too. */
  ghost predicate Inv(b: Book) {
    && Outstanding(b) == b.supply
    && Vtt(b) <= U128_MAX
    && (b.status == RedemptionPending ==> 0 < b.supply)
    && (b.status == Redeemed ==> b.supply == 0 && b.pool == 0)
  }

  /** VTT per outstanding unit, as a comparison of products. */
  ghost predicate RatioUp(b: Book, b': Book) {
    b.pool * b'.supply <= b'.pool * b.supply
  }

  ghost predicate GoodStep(b: Book, b': Book) {
    && Inv(b') && Vtt(b') == Vtt(b) && RatioUp(b, b')
  }

  lemma HeldCounted(b: Book, a: Address)
    ensures HeldBy(b, a) <= Outstanding(b)
  {
    SumElement(b.holders, UnitWeight(), a);
  }

  lemma FundGood(b: Book, sender: Address, amount: u128)
    requires Inv(b) && Fund(b, sender, amount).result.Ok?
    ensures GoodStep(b, Fund(b, sender, amount).book)
  {
    FundTotals(b, sender, amount);
    MulMono(b.pool, b.pool + amount, b.supply);
  }

  lemma FundTotals(b: Book, sender: Address, amount: u128)
    requires amount <= BalanceOf(b.balances, sender) && b.pool + amount <= U128_MAX
    ensures Vtt(Book(Debited(b, sender, amount).balances, b.holders, b.status, b.issuer, b.supply, b.pool + amount)) == Vtt(b)
  {
    TotalSet(b.balances, sender, BalanceOf(b.balances, sender) - amount);
  }

  /** The arithmetic of a floored share: it fits in the pool and leaves the ratio no lower. */
  lemma ShareLeavesRatio(held: int, pool: int, supply: int, share: int)
    requires 0 < held <= supply && 0 <= pool && share == held * pool / supply
    ensures 0 <= share <= pool
    ensures pool * (supply - held) <= (pool - share) * supply
    ensures held == supply ==> share == pool
  {
    MulMono2(0, held, 0, pool);
    DivBounds(held * pool, supply);
    MulMono(held, supply, pool);
    MulCancel(share, pool, supply);
    assert pool * (supply - held) == pool * supply - held * pool;
    assert (pool - share) * supply == pool * supply - share * supply;
    if held == supply {
      DivUnique(held * pool, supply, pool);
    }
  }

  lemma PaidOut(b: Book, sender: Address, share: u128)
    requires BalanceOf(b.balances, sender) + share <= U128_MAX
    ensures TotalOf(b.balances[sender := BalanceOf(b.balances, sender) + share]) == TotalOf(b.balances) + share
  {
    TotalSet(b.balances, sender, BalanceOf(b.balances, sender) + share);
  }

  lemma UnitsBurned(b: Book, sender: Address, held: nat)
    requires held == HeldBy(b, sender)
    ensures Sum(b.holders[sender := Units(0, 0)], UnitWeight()) == Sum(b.holders, UnitWeight()) - held
  {
    SumSet(b.holders, UnitWeight(), sender, held, Units(0, 0));
  }

  lemma ClaimTotals(b: Book, sender: Address, held: u128, share: u128)
    requires held == HeldBy(b, sender) && held <= b.supply && share <= b.pool
    requires BalanceOf(b.balances, sender) + share <= U128_MAX
    ensures var b' := Settled(Burned(b, sender), sender, held, share);
            && Outstanding(b') == Outstanding(b) - held
            && Vtt(b') == Vtt(b)
  {
    PaidOut(b, sender, share);
    UnitsBurned(b, sender, held);
  }

  /** In a good book a claim can only be refused for the reasons the executor names, never by
      an aborting subtraction; and it is refused on arithmetic grounds exactly when the product
      of holding and pool needs more than 128 bits. */
  lemma ClaimAcceptedIff(b: Book, sender: Address)
    requires Inv(b)
    ensures Claim(b, sender).result.Ok?
       <==> && b.status == RedemptionPending && 0 < b.pool && 0 < HeldBy(b, sender)
            && HeldBy(b, sender) * b.pool <= U128_MAX
    ensures Claim(b, sender).result != Err(Panicked) && Claim(b, sender).result != Err(CreditFailed)
  {
    HeldCounted(b, sender);
    BalanceCounted(b.balances, sender);
    var held := HeldBy(b, sender);
    if 0 < b.supply && 0 < held && held * b.pool <= U128_MAX {
      ShareFits(held, b.pool, b.supply);
      ShareLeavesRatio(held, b.pool, b.supply, held * b.pool / b.supply);
    }
  }

  /** An accepted claim pays exactly the floored share, and the last one takes the whole pool
      and closes the redemption. */
  lemma ClaimGood(b: Book, sender: Address)
    requires Inv(b) && Claim(b, sender).result.Ok?
    ensures var held, o := HeldBy(b, sender), Claim(b, sender);
            && 0 < held <= b.supply
            && o.result == Ok(held * b.pool / b.supply)
            && o.book.pool == b.pool - held * b.pool / b.supply
            && o.book.supply == b.supply - held
            && (o.book.status == Redeemed <==> held == b.supply)
            && (held == b.supply ==> o.result == Ok(b.pool))
            && GoodStep(b, o.book)
  {
    ClaimAcceptedIff(b, sender);
    HeldCounted(b, sender);
    var held := HeldBy(b, sender);
    ShareFits(held, b.pool, b.supply);
    var share := held * b.pool / b.supply;
    ShareLeavesRatio(held, b.pool, b.supply, share);
    ClaimTotals(b, sender, held, share);
  }

  lemma RatioTransitive(p0: int, s0: int, p1: int, s1: int, p2: int, s2: int)
    requires 0 <= s0 && 0 < s1 && 0 <= s2
    requires p0 * s1 <= p1 * s0 && p1 * s2 <= p2 * s1
    ensures p0 * s2 <= p2 * s0
  {
    MulMono(p0 * s1, p1 * s0, s2);
    MulMono(p1 * s2, p2 * s1, s0);
    assert (p0 * s2) * s1 == (p0 * s1) * s2;
    assert (p1 * s0) * s2 == (p1 * s2) * s0;
    assert (p2 * s0) * s1 == (p2 * s1) * s0;
    MulCancel(p0 * s2, p2 * s0, s1);
  }

  lemma TransactGood(b: Book, op: Op)
    requires Inv(b)
    ensures GoodStep(b, Transact(b, op))
    ensures b.supply == 0 && b.status != Active ==> Transact(b, op) == b
  {
    if Apply(b, op).result.Ok? {
      match op
      case OpFund(sender, amount) => FundGood(b, sender, amount);
      case OpClaim(sender) => ClaimGood(b, sender);
    }
  }

  /** Over any order of fundings and claims: no VTT appears or vanishes (paid plus pool equals
      funded), holders keep owning exactly the remaining supply, and the VTT behind each unit
      never falls. */
  lemma {:induction false} RunGood(b: Book, ops: seq<Op>)
    requires Inv(b) && b.status == RedemptionPending
    ensures GoodStep(b, Run(b, ops)) && Run(b, ops).status != Active
  {
    if ops != [] {
      var before := Run(b, ops[..|ops| - 1]);
      RunGood(b, ops[..|ops| - 1]);
      var op := ops[|ops| - 1];
      TransactGood(before, op);
      if before.supply > 0 {
        var after := Transact(before, op);
        RatioTransitive(b.pool, b.supply, before.pool, before.supply, after.pool, after.supply);
      }
    }
  }

  /** Waiting never costs: after any run, an accepted claim pays at least the floor of the
      claimer's share at the ratio of any earlier moment. */
  lemma ClaimNoWorseThanEarlier(b: Book, ops: seq<Op>, sender: Address)
    requires Inv(b) && b.status == RedemptionPending
    requires Claim(Run(b, ops), sender).result.Ok?
    ensures Claim(Run(b, ops), sender).result.value >= HeldBy(Run(b, ops), sender) * b.pool / b.supply
  {
    RunGood(b, ops);
    var now := Run(b, ops);
    ClaimGood(now, sender);
    var held := HeldBy(now, sender);
    EarlierShare(held, b.pool, b.supply, now.pool, now.supply);
  }

  lemma EarlierShare(held: int, p0: int, s0: int, p1: int, s1: int)
    requires 0 <= held && 0 <= p0 && 0 <= p1 && 0 < s0 && 0 < s1 && p0 * s1 <= p1 * s0
    ensures held * p0 / s0 <= held * p1 / s1
  {
    MulMono2(0, held, 0, p0);
    MulMono2(0, held, 0, p1);
    var q := held * p0 / s0;
    DivBounds(held * p0, s0);
    MulMono(q * s0, held * p0, s1);
    MulMono(p0 * s1, p1 * s0, held);
    assert (held * p0) * s1 == held * (p0 * s1);
    assert held * (p1 * s0) == (held * p1) * s0;
    assert (q * s0) * s1 == (q * s1) * s0;
    MulCancel(q * s1, held * p1, s0);
    DivGe(held * p1, s1, q);
  }
}
