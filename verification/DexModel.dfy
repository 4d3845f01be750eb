/** What each exchange operation does to the world, as functions over a value. A failing
    operation may already have moved tokens; the executor then restores its snapshot. */
module DexModel {
  import opened Primitives
  import Nonlinear
  import opened DexTypes
  import opened Wide
  import opened PoolMath

  datatype Ownership = Ownership(available: u128, locked: u128)

  /** The part of the state database the exchange touches. `assets` maps every registered
      asset to whether it is tradeable. */
  datatype World = World(
    balances: map<Address, u128>,
    ownership: map<(H256, Address), Ownership>,
    assets: map<H256, bool>,
    pools: map<H256, PoolState>,
    dexPaused: bool)
  {
    function Balance(a: Address): u128 {
      if a in balances then balances[a] else 0
    }

    function Owned(t: H256, a: Address): Ownership {
      if (t, a) in ownership then ownership[(t, a)] else Ownership(0, 0)
    }
  }

  datatype Receipt =
    | Moved
    | Created(pool: PoolState)
    | Minted(lp: u128)
    | Withdrawn(outA: u128, outB: u128)
    | Swapped(out: u128)
    | Claimed(feesA: u128, feesB: u128)

  /** The world an operation leaves behind and what it reports. */
  datatype Outcome = Outcome(world: World, result: Result<Receipt, DexError>) {
    predicate IsFailure() {
      result.Err?
    }

    function PropagateFailure(): Outcome {
      this
    }

    function Extract(): World {
      world
    }
  }

  function Fail(w: World, e: DexError): Outcome {
    Outcome(w, Err(e))
  }

  function Done(w: World, r: Receipt): Outcome {
    Outcome(w, Ok(r))
  }

  // ----- the ledger

  function SetBalance(w: World, a: Address, v: u128): World {
    World(w.balances[a := v], w.ownership, w.assets, w.pools, w.dexPaused)
  }

  function SetOwned(w: World, t: H256, a: Address, o: Ownership): World {
    World(w.balances, w.ownership[(t, a) := o], w.assets, w.pools, w.dexPaused)
  }

  function SetPool(w: World, p: PoolState): World {
    World(w.balances, w.ownership, w.assets, w.pools[p.poolId := p], w.dexPaused)
  }

  /** Crediting aborts the node when the record no longer fits in an Amount. */
  function Credit(w: World, t: H256, a: Address, amount: u128): Outcome {
    var o := w.Owned(t, a);
    if o.available + amount + o.locked > U128_MAX then Fail(w, Panicked)
    else Done(SetOwned(w, t, a, Ownership(o.available + amount, o.locked)), Moved)
  }

  function Debit(w: World, t: H256, a: Address, amount: u128, e: DexError): Outcome {
    var o := w.Owned(t, a);
    if o.available < amount then Fail(w, e)
    else Done(SetOwned(w, t, a, Ownership(o.available - amount, o.locked)), Moved)
  }

  function TransferAsset(w: World, t: H256, from: Address, to: Address, amount: u128, e: DexError): Outcome {
    if amount == 0 then Done(w, Moved)
    else if t !in w.assets || !w.assets[t] then Fail(w, e)
    else
      var w1 :- Debit(w, t, from, amount, e);
      Credit(w1, t, to, amount)
  }

  function TransferIn(w: World, sender: Address, t: H256, amount: u128): Outcome {
    if t == NATIVE_VTT then
      if w.Balance(sender) < amount then Fail(w, InsufficientBalance)
      else Done(SetBalance(w, sender, w.Balance(sender) - amount), Moved)
    else
      TransferAsset(w, t, sender, ZERO_ADDRESS, amount, InsufficientBalance)
  }

  function TransferOut(w: World, recipient: Address, t: H256, amount: u128): Outcome {
    if t == NATIVE_VTT then
      if w.Balance(recipient) + amount > U128_MAX then Fail(w, Overflow)
      else Done(SetBalance(w, recipient, w.Balance(recipient) + amount), Moved)
    else
      TransferAsset(w, t, ZERO_ADDRESS, recipient, amount, InsufficientLiquidity)
  }

  function RegisterLp(w: World, lpId: H256): Outcome {
    if lpId in w.assets then Fail(w, Overflow)
    else Done(World(w.balances, w.ownership, w.assets[lpId := true], w.pools, w.dexPaused), Moved)
  }

  // ----- the operations

  function NewPool(h: Hasher, sender: Address, tokenA: H256, tokenB: H256, amountA: u128, amountB: u128,
                   lp: u128, epoch: nat): PoolState
  {
    var id := ComputePoolId(h, tokenA, tokenB);
    PoolState(id, tokenA, tokenB, amountA, amountB, h.lp(id), lp,
              DEFAULT_FEE_BPS, DEFAULT_PROTOCOL_FEE_BPS, 0, 0, sender, epoch)
  }

  ghost function CreatePool(h: Hasher, w: World, sender: Address, tokenA: H256, tokenB: H256,
                            amountA: u128, amountB: u128, epoch: nat): Outcome
  {
    if w.dexPaused then Fail(w, DexPaused)
    else if tokenA == tokenB then Fail(w, SameToken)
    else if amountA == 0 || amountB == 0 then Fail(w, ZeroAmount)
    else if ComputePoolId(h, tokenA, tokenB) in w.pools then Fail(w, PoolAlreadyExists)
    else
      var w1 :- TransferIn(w, sender, tokenA, amountA);
      var w2 :- TransferIn(w1, sender, tokenB, amountB);
      OpenPool(h, w2, sender, tokenA, tokenB, amountA, amountB, epoch)
  }

  /** The second half of pool creation, once both deposits are in. */
  ghost function OpenPool(h: Hasher, w: World, sender: Address, tokenA: H256, tokenB: H256,
                          amountA: u128, amountB: u128, epoch: nat): Outcome
  {
    var lp := SqrtSpec(amountA * amountB);
    SqrtFits(amountA, amountB);
    if lp <= MINIMUM_LIQUIDITY then Fail(w, ZeroLiquidity)
    else
      var pool := NewPool(h, sender, tokenA, tokenB, amountA, amountB, lp, epoch);
      var w1 :- RegisterLp(w, pool.lpTokenId);
      var w2 :- Credit(w1, pool.lpTokenId, sender, lp - MINIMUM_LIQUIDITY);
      Done(SetPool(w2, pool), Created(pool))
  }

  lemma SqrtFits(a: u128, b: u128)
    ensures 0 <= SqrtSpec(a * b) < TWO128
    ensures SqrtSpec(a * b) * SqrtSpec(a * b) <= a * b
  {
    ProductBound(a, b);
    if SqrtSpec(a * b) >= TWO128 {
      Nonlinear.MulMono2(TWO128, SqrtSpec(a * b), TWO128, SqrtSpec(a * b));
      assert false;
    }
  }

  /** The amounts actually taken: the deposit cut back to the pool's ratio. */
  ghost function ActualDeposit(p: PoolState, amountA: u128, amountB: u128): Result<(u128, u128), DexError> {
    var optimalB := Quotient(amountA * p.reserveB, p.reserveA);
    if optimalB.Err? then Err(optimalB.error)
    else if optimalB.value <= amountB then Ok((amountA, optimalB.value))
    else
      var optimalA := Quotient(amountB * p.reserveA, p.reserveB);
      if optimalA.Err? then Err(optimalA.error) else Ok((optimalA.value, amountB))
  }

  ghost function SharesFor(p: PoolState, a: u128, b: u128): Result<u128, DexError> {
    var lpA := Quotient(a * p.lpTotalSupply, p.reserveA);
    if lpA.Err? then Err(lpA.error)
    else
      var lpB := Quotient(b * p.lpTotalSupply, p.reserveB);
      if lpB.Err? then Err(lpB.error) else Ok(Min(lpA.value, lpB.value))
  }

  function Deposited(p: PoolState, a: u128, b: u128, lp: u128): PoolState {
    p.(reserveA := WrapAdd(p.reserveA, a),
       reserveB := WrapAdd(p.reserveB, b),
       lpTotalSupply := WrapAdd(p.lpTotalSupply, lp))
  }

  ghost function AddLiquidity(w: World, sender: Address, id: H256, amountA: u128, amountB: u128, minLp: u128): Outcome {
    if w.dexPaused then Fail(w, DexPaused)
    else if id !in w.pools then Fail(w, PoolNotFound)
    else
      var p := w.pools[id];
      if p.reserveA == 0 || p.reserveB == 0 then Fail(w, ZeroLiquidity)
      else
        var actual := ActualDeposit(p, amountA, amountB);
        if actual.Err? then Fail(w, actual.error)
        else if actual.value.0 == 0 || actual.value.1 == 0 then Fail(w, ZeroAmount)
        else
          var shares := SharesFor(p, actual.value.0, actual.value.1);
          if shares.Err? then Fail(w, shares.error)
          else if shares.value < minLp then Fail(w, SlippageExceeded(minLp, shares.value))
          else
            var w1 :- TransferIn(w, sender, p.tokenA, actual.value.0);
            var w2 :- TransferIn(w1, sender, p.tokenB, actual.value.1);
            var w3 :- Credit(w2, p.lpTokenId, sender, shares.value);
            Done(SetPool(w3, Deposited(p, actual.value.0, actual.value.1, shares.value)), Minted(shares.value))
  }

  function Withdrawal(p: PoolState, a: u128, b: u128, lp: u128): PoolState {
    p.(reserveA := WrapSub(p.reserveA, a),
       reserveB := WrapSub(p.reserveB, b),
       lpTotalSupply := WrapSub(p.lpTotalSupply, lp))
  }

  ghost function RemoveLiquidity(w: World, sender: Address, id: H256, lp: u128, minA: u128, minB: u128): Outcome {
    if w.dexPaused then Fail(w, DexPaused)
    else if id !in w.pools then Fail(w, PoolNotFound)
    else if lp == 0 then Fail(w, ZeroAmount)
    else
      var p := w.pools[id];
      var a := Quotient(lp * p.reserveA, p.lpTotalSupply);
      if a.Err? then Fail(w, a.error)
      else
        var b := Quotient(lp * p.reserveB, p.lpTotalSupply);
        if b.Err? then Fail(w, b.error)
        else if a.value < minA then Fail(w, SlippageExceeded(minA, a.value))
        else if b.value < minB then Fail(w, SlippageExceeded(minB, b.value))
        else
          var w1 :- Debit(w, p.lpTokenId, sender, lp, InsufficientBalance);
          var w2 :- TransferOut(w1, sender, p.tokenA, a.value);
          var w3 :- TransferOut(w2, sender, p.tokenB, b.value);
          Done(SetPool(w3, Withdrawal(p, a.value, b.value, lp)), Withdrawn(a.value, b.value))
  }

  function SwappedPool(p: PoolState, aToB: bool, fees: Fees, out: u128): PoolState {
    var paid := WrapAdd(fees.net, fees.lp);
    if aToB then
      p.(reserveA := WrapAdd(p.reserveA, paid),
         reserveB := WrapSub(p.reserveB, out),
         protocolFeesA := WrapAdd(p.protocolFeesA, fees.protocol))
    else
      p.(reserveB := WrapAdd(p.reserveB, paid),
         reserveA := WrapSub(p.reserveA, out),
         protocolFeesB := WrapAdd(p.protocolFeesB, fees.protocol))
  }

  ghost function Swap(w: World, sender: Address, id: H256, tokenIn: H256, amountIn: u128, minOut: u128): Outcome {
    if w.dexPaused then Fail(w, DexPaused)
    else if id !in w.pools then Fail(w, PoolNotFound)
    else if amountIn == 0 then Fail(w, ZeroAmount)
    else
      var p := w.pools[id];
      if tokenIn != p.tokenA && tokenIn != p.tokenB then Fail(w, InvalidTokenPair)
      else
        var aToB := tokenIn == p.tokenA;
        var fees := CalculateFees(amountIn, p.feeBps, p.protocolFeeBps);
        if fees.Err? then Fail(w, fees.error)
        else
          var out := if aToB then AmountOut(fees.value.net, p.reserveA, p.reserveB)
                     else AmountOut(fees.value.net, p.reserveB, p.reserveA);
          if out.Err? then Fail(w, out.error)
          else if out.value < minOut then Fail(w, SlippageExceeded(minOut, out.value))
          else if out.value == 0 then Fail(w, ZeroAmount)
          else
            var w1 :- TransferIn(w, sender, tokenIn, amountIn);
            var w2 :- TransferOut(w1, sender, if aToB then p.tokenB else p.tokenA, out.value);
            Done(SetPool(w2, SwappedPool(p, aToB, fees.value, out.value)), Swapped(out.value))
  }

  function PayOut(w: World, recipient: Address, t: H256, amount: u128): Outcome {
    if amount > 0 then TransferOut(w, recipient, t, amount) else Done(w, Moved)
  }

  ghost function ClaimProtocolFees(w: World, sender: Address, id: H256, treasury: Address): Outcome {
    if sender != treasury then Fail(w, NotAuthorized)
    else if id !in w.pools then Fail(w, PoolNotFound)
    else
      var p := w.pools[id];
      if p.protocolFeesA == 0 && p.protocolFeesB == 0 then Fail(w, NothingToClaim)
      else
        var w1 :- PayOut(w, treasury, p.tokenA, p.protocolFeesA);
        var w2 :- PayOut(w1, treasury, p.tokenB, p.protocolFeesB);
        Done(SetPool(w2, p.(protocolFeesA := 0, protocolFeesB := 0)), Claimed(p.protocolFeesA, p.protocolFeesB))
  }

  // ----- transactions and runs

  datatype Op =
    | OpCreate(sender: Address, tokenA: H256, tokenB: H256, amountA: u128, amountB: u128, epoch: nat)
    | OpAdd(sender: Address, pool: H256, amountA: u128, amountB: u128, minLp: u128)
    | OpRemove(sender: Address, pool: H256, lp: u128, minA: u128, minB: u128)
    | OpSwap(sender: Address, pool: H256, tokenIn: H256, amountIn: u128, minOut: u128)
    | OpClaim(sender: Address, pool: H256, treasury: Address)

  ghost function Apply(h: Hasher, w: World, op: Op): Outcome {
    match op
    case OpCreate(s, ta, tb, a, b, e) => CreatePool(h, w, s, ta, tb, a, b, e)
    case OpAdd(s, id, a, b, m) => AddLiquidity(w, s, id, a, b, m)
    case OpRemove(s, id, lp, ma, mb) => RemoveLiquidity(w, s, id, lp, ma, mb)
    case OpSwap(s, id, t, a, m) => Swap(w, s, id, t, a, m)
    case OpClaim(s, id, t) => ClaimProtocolFees(w, s, id, t)
  }

  /** A transaction: the operation, undone by the executor's snapshot when it fails. */
  ghost function Transact(h: Hasher, w: World, op: Op): World {
    var o := Apply(h, w, op);
    if o.result.Ok? then o.world else w
  }

  ghost function Run(h: Hasher, w: World, ops: seq<Op>): World {
    if ops == [] then w else Transact(h, Run(h, w, ops[..|ops| - 1]), ops[|ops| - 1])
  }
}
