/** The state database of the exchange and the operations that update it in place. Each
    method is proved to do exactly what DexModel says. */
module DexState {
  import opened Primitives
  import opened DexTypes
  import opened Wide
  import opened PoolMath
  import M = DexModel

  class StateDB {
    const hasher: Hasher
    var balances: map<Address, u128>
    var ownership: map<(H256, Address), M.Ownership>
    var assets: map<H256, bool>
    var pools: map<H256, PoolState>
    var dexPaused: bool

    function View(): M.World
      reads this
    {
      M.World(balances, ownership, assets, pools, dexPaused)
    }

    constructor (h: Hasher)
      ensures hasher == h && View() == M.World(map[], map[], map[], map[], false)
    {
      hasher := h;
      balances, ownership, assets, pools, dexPaused := map[], map[], map[], map[], false;
    }

    method Credit(t: H256, a: Address, amount: u128) returns (r: Result<M.Receipt, DexError>)
      modifies this`ownership
      ensures M.Outcome(View(), r) == M.Credit(old(View()), t, a, amount)
    {
      var o := View().Owned(t, a);
      if o.available + amount + o.locked > U128_MAX {
        return Err(Panicked);
      }
      o := M.Ownership(o.available + amount, o.locked);
      ownership := ownership[(t, a) := o];
      return Ok(M.Moved);
    }

    method Debit(t: H256, a: Address, amount: u128, e: DexError) returns (r: Result<M.Receipt, DexError>)
      modifies this`ownership
      ensures M.Outcome(View(), r) == M.Debit(old(View()), t, a, amount, e)
    {
      var o := View().Owned(t, a);
      if o.available < amount {
        return Err(e);
      }
      ownership := ownership[(t, a) := M.Ownership(o.available - amount, o.locked)];
      return Ok(M.Moved);
    }

    method TransferAsset(t: H256, from: Address, to: Address, amount: u128, e: DexError)
      returns (r: Result<M.Receipt, DexError>)
      modifies this`ownership
      ensures M.Outcome(View(), r) == M.TransferAsset(old(View()), t, from, to, amount, e)
    {
      if amount == 0 {
        return Ok(M.Moved);
      }
      if t !in assets || !assets[t] {
        return Err(e);
      }
      r := Debit(t, from, amount, e);
      if r.Ok? {
        r := Credit(t, to, amount);
      }
    }

    method TransferIn(sender: Address, t: H256, amount: u128) returns (r: Result<M.Receipt, DexError>)
      modifies this`balances, this`ownership
      ensures M.Outcome(View(), r) == M.TransferIn(old(View()), sender, t, amount)
    {
      if t == NATIVE_VTT {
        var balance := View().Balance(sender);
        if balance < amount {
          return Err(InsufficientBalance);
        }
        balances := balances[sender := balance - amount];
        return Ok(M.Moved);
      }
      r := TransferAsset(t, sender, ZERO_ADDRESS, amount, InsufficientBalance);
    }

    method TransferOut(recipient: Address, t: H256, amount: u128) returns (r: Result<M.Receipt, DexError>)
      modifies this`balances, this`ownership
      ensures M.Outcome(View(), r) == M.TransferOut(old(View()), recipient, t, amount)
    {
      if t == NATIVE_VTT {
        var balance := View().Balance(recipient);
        if balance + amount > U128_MAX {
          return Err(Overflow);
        }
        balances := balances[recipient := balance + amount];
        return Ok(M.Moved);
      }
      r := TransferAsset(t, ZERO_ADDRESS, recipient, amount, InsufficientLiquidity);
    }

    method CreatePool(sender: Address, tokenA: H256, tokenB: H256, amountA: u128, amountB: u128, epoch: nat)
      returns (r: Result<M.Receipt, DexError>)
      modifies this
      ensures M.Outcome(View(), r) == M.CreatePool(hasher, old(View()), sender, tokenA, tokenB, amountA, amountB, epoch)
    {
      if dexPaused {
        return Err(DexPaused);
      }
      if tokenA == tokenB {
        return Err(SameToken);
      }
      if amountA == 0 || amountB == 0 {
        return Err(ZeroAmount);
      }
      if ComputePoolId(hasher, tokenA, tokenB) in pools {
        return Err(PoolAlreadyExists);
      }
      r := TransferIn(sender, tokenA, amountA);
      if r.Err? {
        return;
      }
      r := TransferIn(sender, tokenB, amountB);
      if r.Err? {
        return;
      }
      r := OpenPool(sender, tokenA, tokenB, amountA, amountB, epoch);
    }

    method OpenPool(sender: Address, tokenA: H256, tokenB: H256, amountA: u128, amountB: u128, epoch: nat)
      returns (r: Result<M.Receipt, DexError>)
      modifies this
      ensures M.Outcome(View(), r) == M.OpenPool(hasher, old(View()), sender, tokenA, tokenB, amountA, amountB, epoch)
    {
      var lp := SqrtU256(MulU128(amountA, amountB));
      if lp <= MINIMUM_LIQUIDITY {
        return Err(ZeroLiquidity);
      }
      var pool := M.NewPool(hasher, sender, tokenA, tokenB, amountA, amountB, lp, epoch);
      if pool.lpTokenId in assets {
        return Err(Overflow);
      }
      assets := assets[pool.lpTokenId := true];
      r := Credit(pool.lpTokenId, sender, lp - MINIMUM_LIQUIDITY);
      if r.Err? {
        return;
      }
      pools := pools[pool.poolId := pool];
      r := Ok(M.Created(pool));
    }

    method ActualDeposit(p: PoolState, amountA: u128, amountB: u128) returns (r: Result<(u128, u128), DexError>)
      ensures r == M.ActualDeposit(p, amountA, amountB)
    {
      var optimalB := DivU128(MulU128(amountA, p.reserveB), p.reserveA);
      if optimalB.Err? {
        return Err(optimalB.error);
      }
      if optimalB.value <= amountB {
        return Ok((amountA, optimalB.value));
      }
      var optimalA := DivU128(MulU128(amountB, p.reserveA), p.reserveB);
      if optimalA.Err? {
        return Err(optimalA.error);
      }
      return Ok((optimalA.value, amountB));
    }

    method SharesFor(p: PoolState, a: u128, b: u128) returns (r: Result<u128, DexError>)
      ensures r == M.SharesFor(p, a, b)
    {
      var lpA := DivU128(MulU128(a, p.lpTotalSupply), p.reserveA);
      if lpA.Err? {
        return lpA;
      }
      var lpB := DivU128(MulU128(b, p.lpTotalSupply), p.reserveB);
      if lpB.Err? {
        return lpB;
      }
      return Ok(Min(lpA.value, lpB.value));
    }

    method AddLiquidity(sender: Address, id: H256, amountA: u128, amountB: u128, minLp: u128)
      returns (r: Result<M.Receipt, DexError>)
      modifies this
      ensures M.Outcome(View(), r) == M.AddLiquidity(old(View()), sender, id, amountA, amountB, minLp)
    {
      if dexPaused {
        return Err(DexPaused);
      }
      if id !in pools {
        return Err(PoolNotFound);
      }
      var p := pools[id];
      if p.reserveA == 0 || p.reserveB == 0 {
        return Err(ZeroLiquidity);
      }
      var actual := ActualDeposit(p, amountA, amountB);
      if actual.Err? {
        return Err(actual.error);
      }
      var (a, b) := actual.value;
      if a == 0 || b == 0 {
        return Err(ZeroAmount);
      }
      var shares := SharesFor(p, a, b);
      if shares.Err? {
        return Err(shares.error);
      }
      var lp := shares.value;
      if lp < minLp {
        return Err(SlippageExceeded(minLp, lp));
      }
      r := TransferIn(sender, p.tokenA, a);
      if r.Err? {
        return;
      }
      r := TransferIn(sender, p.tokenB, b);
      if r.Err? {
        return;
      }
      r := Credit(p.lpTokenId, sender, lp);
      if r.Err? {
        return;
      }
      pools := pools[p.poolId := p.(reserveA := WrapAdd(p.reserveA, a),
                              reserveB := WrapAdd(p.reserveB, b),
                              lpTotalSupply := WrapAdd(p.lpTotalSupply, lp))];
      r := Ok(M.Minted(lp));
    }

    method RemoveLiquidity(sender: Address, id: H256, lp: u128, minA: u128, minB: u128)
      returns (r: Result<M.Receipt, DexError>)
      modifies this
      ensures M.Outcome(View(), r) == M.RemoveLiquidity(old(View()), sender, id, lp, minA, minB)
    {
      if dexPaused {
        return Err(DexPaused);
      }
      if id !in pools {
        return Err(PoolNotFound);
      }
      var p := pools[id];
      if lp == 0 {
        return Err(ZeroAmount);
      }
      var a := DivU128(MulU128(lp, p.reserveA), p.lpTotalSupply);
      if a.Err? {
        return Err(a.error);
      }
      var b := DivU128(MulU128(lp, p.reserveB), p.lpTotalSupply);
      if b.Err? {
        return Err(b.error);
      }
      if a.value < minA {
        return Err(SlippageExceeded(minA, a.value));
      }
      if b.value < minB {
        return Err(SlippageExceeded(minB, b.value));
      }
      r := Debit(p.lpTokenId, sender, lp, InsufficientBalance);
      if r.Err? {
        return;
      }
      r := TransferOut(sender, p.tokenA, a.value);
      if r.Err? {
        return;
      }
      r := TransferOut(sender, p.tokenB, b.value);
      if r.Err? {
        return;
      }
      pools := pools[p.poolId := p.(reserveA := WrapSub(p.reserveA, a.value),
                              reserveB := WrapSub(p.reserveB, b.value),
                              lpTotalSupply := WrapSub(p.lpTotalSupply, lp))];
      r := Ok(M.Withdrawn(a.value, b.value));
    }

    method ExecuteSwap(sender: Address, id: H256, tokenIn: H256, amountIn: u128, minOut: u128)
      returns (r: Result<M.Receipt, DexError>)
      modifies this
      ensures M.Outcome(View(), r) == M.Swap(old(View()), sender, id, tokenIn, amountIn, minOut)
    {
      if dexPaused {
        return Err(DexPaused);
      }
      if id !in pools {
        return Err(PoolNotFound);
      }
      var p := pools[id];
      if amountIn == 0 {
        return Err(ZeroAmount);
      }
      var reserveIn, reserveOut, aToB := p.reserveA, p.reserveB, true;
      if tokenIn == p.tokenA {
      } else if tokenIn == p.tokenB {
        reserveIn, reserveOut, aToB := p.reserveB, p.reserveA, false;
      } else {
        return Err(InvalidTokenPair);
      }
      var fees := CalculateFees(amountIn, p.feeBps, p.protocolFeeBps);
      if fees.Err? {
        return Err(fees.error);
      }
      var quote := GetAmountOut(fees.value.net, reserveIn, reserveOut);
      if quote.Err? {
        return Err(quote.error);
      }
      var out := quote.value;
      if out < minOut {
        return Err(SlippageExceeded(minOut, out));
      }
      if out == 0 {
        return Err(ZeroAmount);
      }
      r := TransferIn(sender, tokenIn, amountIn);
      if r.Err? {
        return;
      }
      r := TransferOut(sender, if aToB then p.tokenB else p.tokenA, out);
      if r.Err? {
        return;
      }
      var effectiveIn := WrapAdd(fees.value.net, fees.value.lp);
      if aToB {
        p := p.(reserveA := WrapAdd(p.reserveA, effectiveIn),
                reserveB := WrapSub(p.reserveB, out),
                protocolFeesA := WrapAdd(p.protocolFeesA, fees.value.protocol));
      } else {
        p := p.(reserveB := WrapAdd(p.reserveB, effectiveIn),
                reserveA := WrapSub(p.reserveA, out),
                protocolFeesB := WrapAdd(p.protocolFeesB, fees.value.protocol));
      }
      pools := pools[p.poolId := p];
      r := Ok(M.Swapped(out));
    }

    method ClaimProtocolFees(sender: Address, id: H256, treasury: Address)
      returns (r: Result<M.Receipt, DexError>)
      modifies this
      ensures M.Outcome(View(), r) == M.ClaimProtocolFees(old(View()), sender, id, treasury)
    {
      if sender != treasury {
        return Err(NotAuthorized);
      }
      if id !in pools {
        return Err(PoolNotFound);
      }
      var p := pools[id];
      if p.protocolFeesA == 0 && p.protocolFeesB == 0 {
        return Err(NothingToClaim);
      }
      if p.protocolFeesA > 0 {
        r := TransferOut(treasury, p.tokenA, p.protocolFeesA);
        if r.Err? {
          return;
        }
      }
      if p.protocolFeesB > 0 {
        r := TransferOut(treasury, p.tokenB, p.protocolFeesB);
        if r.Err? {
          return;
        }
      }
      pools := pools[p.poolId := p.(protocolFeesA := 0, protocolFeesB := 0)];
      r := Ok(M.Claimed(p.protocolFeesA, p.protocolFeesB));
    }

    method ApplyOp(op: M.Op) returns (r: Result<M.Receipt, DexError>)
      modifies this
      ensures M.Outcome(View(), r) == M.Apply(hasher, old(View()), op)
    {
      match op {
        case OpCreate(s, ta, tb, a, b, e) => r := CreatePool(s, ta, tb, a, b, e);
        case OpAdd(s, id, a, b, m) => r := AddLiquidity(s, id, a, b, m);
        case OpRemove(s, id, lp, ma, mb) => r := RemoveLiquidity(s, id, lp, ma, mb);
        case OpSwap(s, id, t, a, m) => r := ExecuteSwap(s, id, t, a, m);
        case OpClaim(s, id, t) => r := ClaimProtocolFees(s, id, t);
      }
    }

    /** The executor's wrapper: a failed operation leaves the snapshot taken before it. */
    method ExecuteTransaction(op: M.Op) returns (r: Result<M.Receipt, DexError>)
      modifies this
      ensures View() == M.Transact(hasher, old(View()), op)
      ensures r == M.Apply(hasher, old(View()), op).result
    {
      var saved := View();
      r := ApplyOp(op);
      if r.Err? {
        balances, ownership, assets := saved.balances, saved.ownership, saved.assets;
        pools, dexPaused := saved.pools, saved.dexPaused;
      }
    }
  }
}
