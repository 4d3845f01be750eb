/** The promises of the exchange, over every run of signed transactions. */
module DexTheorems {
  import opened Primitives
  import opened Nonlinear
  import opened DexTypes
  import opened PoolMath
  import opened DexModel
  import opened DexLedger
  import opened DexSafety

  /** Senders are derived from public keys; none of them is the pool account. */
  ghost predicate Signed(ops: seq<Op>) {
    forall i :: 0 <= i < |ops| ==> ops[i].sender != ZERO_ADDRESS
  }

  // ----- whole runs

  lemma GoodStepReflexive(w: World)
    requires Inv(w)
    ensures GoodStep(w, w)
  {
  }

  lemma WorthTransitive(p0: PoolState, p1: PoolState, p2: PoolState)
    requires Collateralised(p0) && Collateralised(p1) && Collateralised(p2)
    requires WorthUp(p0, p1) && WorthUp(p1, p2)
    ensures WorthUp(p0, p2)
  {
    MulNonNegative(p0.reserveA, p0.reserveB);
    MulNonNegative(p1.reserveA, p1.reserveB);
    MulNonNegative(p2.reserveA, p2.reserveB);
    ShareWorthTransitive(p0.reserveA * p0.reserveB, p0.lpTotalSupply, p1.reserveA * p1.reserveB, p1.lpTotalSupply,
                         p2.reserveA * p2.reserveB, p2.lpTotalSupply);
  }

  lemma GoodStepTransitive(w0: World, w1: World, w2: World)
    requires Inv(w0) && GoodStep(w0, w1) && GoodStep(w1, w2)
    ensures GoodStep(w0, w2)
  {
    forall id | id in w0.pools
      ensures id in w2.pools && SameIdentity(w0.pools[id], w2.pools[id]) && WorthUp(w0.pools[id], w2.pools[id])
    {
      WorthTransitive(w0.pools[id], w1.pools[id], w2.pools[id]);
    }
  }

  lemma TransactGood(h: Hasher, w: World, op: Op)
    requires Inv(w) && op.sender != ZERO_ADDRESS
    ensures GoodStep(w, Transact(h, w, op))
  {
    if Apply(h, w, op).result.Err? {
      GoodStepReflexive(w);
    } else {
      match op
      case OpCreate(s, ta, tb, a, b, e) => CreateStep(h, w, s, ta, tb, a, b, e);
      case OpAdd(s, id, a, b, m) => AddStep(w, s, id, a, b, m);
      case OpRemove(s, id, lp, ma, mb) => RemoveStep(w, s, id, lp, ma, mb);
      case OpSwap(s, id, t, a, m) => SwapStep(w, s, id, t, a, m);
      case OpClaim(s, id, t) => ClaimStep(w, s, id, t);
    }
  }

  /** In every run: reserves stay positive and their product at least the square of the share
      supply, recorded supply equals holdings plus the burned minimum, custody of every token
      is constant, and the worth of a share in each pool never falls. */
  lemma {:induction false} RunGood(h: Hasher, w: World, ops: seq<Op>)
    requires Inv(w) && Signed(ops)
    ensures GoodStep(w, Run(h, w, ops))
  {
    if ops == [] {
      GoodStepReflexive(w);
    } else {
      var before := ops[..|ops| - 1];
      RunGood(h, w, before);
      TransactGood(h, Run(h, w, before), ops[|ops| - 1]);
      GoodStepTransitive(w, Run(h, w, before), Run(h, w, ops));
    }
  }

  /** Any ledger without pools whose supplies fit in an Amount is a starting point. */
  lemma EmptyExchangeGood(w: World)
    requires w.pools == map[] && Balances(w) <= U128_MAX
    requires forall t: H256 :: Holdings(w, t) <= U128_MAX && (t !in w.assets ==> Holdings(w, t) == 0)
    ensures Inv(w)
  {
    forall t: H256
      ensures Solvent(w, t)
    {
      assert Owed(w, t) == 0;
    }
  }

  // ----- no free profit

  /** A run of swaps only, on whichever pools. */
  ghost predicate OnlySwaps(ops: seq<Op>) {
    forall i :: 0 <= i < |ops| ==> ops[i].OpSwap?
  }

  lemma TransfersKeepPools(w: World, a: Address, token: H256, amount: u128)
    ensures TransferIn(w, a, token, amount).world.pools == w.pools
    ensures TransferOut(w, a, token, amount).world.pools == w.pools
  {
  }

  lemma RewriteSupply(w: World, wn: World, p: PoolState, p': PoolState, id: H256)
    requires wn.pools == w.pools && p.poolId in w.pools && w.pools[p.poolId] == p && id in w.pools
    requires p'.poolId == p.poolId && p'.lpTotalSupply == p.lpTotalSupply
    ensures id in SetPool(wn, p').pools && SetPool(wn, p').pools[id].lpTotalSupply == w.pools[id].lpTotalSupply
  {
  }

  lemma SwapSupply(w: World, sender: Address, pool: H256, tokenIn: H256, amount: u128, minOut: u128, id: H256)
    requires Inv(w) && id in w.pools && Swap(w, sender, pool, tokenIn, amount, minOut).result.Ok?
    ensures var w' := Swap(w, sender, pool, tokenIn, amount, minOut).world;
            id in w'.pools && w'.pools[id].lpTotalSupply == w.pools[id].lpTotalSupply
  {
    var w1, wn, aToB, f, out := SwapTrace(w, sender, pool, tokenIn, amount, minOut);
    var p := w.pools[pool];
    TransfersKeepPools(w, sender, tokenIn, amount);
    TransfersKeepPools(w1, sender, TokenOut(p, aToB), out);
    RewriteSupply(w, wn, p, SwappedPool(p, aToB, f, out), id);
  }

  lemma SwapKeepsSupply(h: Hasher, w: World, op: Op, id: H256)
    requires Inv(w) && op.OpSwap? && id in w.pools
    ensures id in Transact(h, w, op).pools
    ensures Transact(h, w, op).pools[id].lpTotalSupply == w.pools[id].lpTotalSupply
  {
    var r := Swap(w, op.sender, op.pool, op.tokenIn, op.amountIn, op.minOut);
    assert Apply(h, w, op) == r;
    if r.result.Ok? {
      SwapSupply(w, op.sender, op.pool, op.tokenIn, op.amountIn, op.minOut, id);
    }
  }

  lemma {:induction false} SwapsKeepSupply(h: Hasher, w: World, ops: seq<Op>, id: H256)
    requires Inv(w) && Signed(ops) && OnlySwaps(ops) && id in w.pools
    ensures id in Run(h, w, ops).pools
    ensures Run(h, w, ops).pools[id].lpTotalSupply == w.pools[id].lpTotalSupply
  {
    if ops != [] {
      var before := ops[..|ops| - 1];
      RunGood(h, w, before);
      SwapsKeepSupply(h, w, before, id);
      SwapKeepsSupply(h, Run(h, w, before), ops[|ops| - 1], id);
    }
  }

  lemma SameSupplyProduct(k: int, k': int, l: int)
    requires 0 < l && ShareWorthUp(k, l, k', l)
    ensures k <= k'
  {
    assert 0 < l * l;
    MulCancel(k, k', l * l);
  }

  lemma ProductLower(a: int, b: int, a': int, b': int)
    requires 0 < a && 0 < b && 0 < a' && 0 < b' && a * b <= a' * b' && a' < a
    ensures b < b'
  {
    if b' <= b {
      MulMono(b', b, a');
      MulMono(a' + 1, a, b);
      assert false;
    }
  }

  lemma NoProfitBetween(p: PoolState, p': PoolState)
    requires Collateralised(p) && Collateralised(p') && WorthUp(p, p') && p'.lpTotalSupply == p.lpTotalSupply
    ensures p'.reserveA < p.reserveA ==> p.reserveB < p'.reserveB
    ensures p'.reserveB < p.reserveB ==> p.reserveA < p'.reserveA
  {
    SameSupplyProduct(p.reserveA * p.reserveB, p'.reserveA * p'.reserveB, p.lpTotalSupply);
    if p'.reserveA < p.reserveA {
      ProductLower(p.reserveA, p.reserveB, p'.reserveA, p'.reserveB);
    }
    if p'.reserveB < p.reserveB {
      ProductLower(p.reserveB, p.reserveA, p'.reserveB, p'.reserveA);
    }
  }

  /** No sequence of swaps, by whomever, takes anything out of a pool on one side without
      leaving more on the other. */
  lemma NoFreeProfit(h: Hasher, w: World, ops: seq<Op>, id: H256)
    requires Inv(w) && Signed(ops) && OnlySwaps(ops) && id in w.pools
    ensures id in Run(h, w, ops).pools
    ensures var p, p' := w.pools[id], Run(h, w, ops).pools[id];
            && (p'.reserveA < p.reserveA ==> p.reserveB < p'.reserveB)
            && (p'.reserveB < p.reserveB ==> p.reserveA < p'.reserveA)
  {
    RunGood(h, w, ops);
    SwapsKeepSupply(h, w, ops, id);
    NoProfitBetween(w.pools[id], Run(h, w, ops).pools[id]);
  }

  lemma SwapEffect(w: World, sender: Address, id: H256, tokenIn: H256, amount: u128, minOut: u128)
    returns (f: Fees, out: u128, aToB: bool)
    requires Inv(w) && sender != ZERO_ADDRESS && Swap(w, sender, id, tokenIn, amount, minOut).result.Ok?
    ensures var o := Swap(w, sender, id, tokenIn, amount, minOut);
            && id in w.pools && id in o.world.pools && o.result == Ok(Swapped(out))
            && aToB == (tokenIn == w.pools[id].tokenA) && tokenIn == TokenIn(w.pools[id], aToB)
            && CalculateFees(amount, DEFAULT_FEE_BPS, DEFAULT_PROTOCOL_FEE_BPS) == Ok(f)
            && var p, p' := w.pools[id], o.world.pools[id];
            && p'.reserveA == p.reserveA + SideA(aToB, amount - f.protocol, out)
            && p'.reserveB == p.reserveB + SideB(aToB, amount - f.protocol, out)
            && p'.reserveA * p'.reserveB >= p.reserveA * p.reserveB
  {
    var w1, wn;
    w1, wn, aToB, f, out := SwapTrace(w, sender, id, tokenIn, amount, minOut);
    assert Solvent(w, tokenIn);
    DepositFits(w, sender, tokenIn, amount);
    ReserveOwed(w, id, tokenIn);
    SwappedGood(w.pools[id], aToB, amount, f, out);
  }

  /** Swapping there and swapping back no more than was received returns at most the first
      input less its protocol fee. */
  lemma SwapThereAndBack(w: World, sender: Address, id: H256, tokenIn: H256, amount: u128, minOut: u128, w': World, out: u128,
                         sender': Address, tokenBack: H256, back: u128, minBack: u128, w'': World, out': u128, f: Fees)
    requires Inv(w) && sender != ZERO_ADDRESS && sender' != ZERO_ADDRESS
    requires Swap(w, sender, id, tokenIn, amount, minOut) == Done(w', Swapped(out))
    requires tokenBack != tokenIn && back <= out
    requires Swap(w', sender', id, tokenBack, back, minBack) == Done(w'', Swapped(out'))
    requires CalculateFees(amount, DEFAULT_FEE_BPS, DEFAULT_PROTOCOL_FEE_BPS) == Ok(f)
    ensures out' <= amount - f.protocol
  {
    SwapStep(w, sender, id, tokenIn, amount, minOut);
    var f1, out1, aToB := SwapEffect(w, sender, id, tokenIn, amount, minOut);
    SwapStep(w', sender', id, tokenBack, back, minBack);
    var f', out2, aToB' := SwapEffect(w', sender', id, tokenBack, back, minBack);
    assert SameIdentity(w.pools[id], w'.pools[id]);
    BackAndForth(w.pools[id], w''.pools[id], aToB, amount - f.protocol, out, back - f'.protocol, out');
  }

  lemma BackAndForth(p: PoolState, p': PoolState, aToB: bool, paid: int, out: int, back: int, out': int)
    requires Collateralised(p) && Collateralised(p') && back <= out
    requires p'.reserveA == p.reserveA + SideA(aToB, paid, out) + SideA(!aToB, back, out')
    requires p'.reserveB == p.reserveB + SideB(aToB, paid, out) + SideB(!aToB, back, out')
    requires p.reserveA * p.reserveB <= p'.reserveA * p'.reserveB
    ensures out' <= paid
  {
    if paid < out' {
      if aToB {
        ProductLower(p.reserveA, p.reserveB, p'.reserveA, p'.reserveB);
      } else {
        ProductLower(p.reserveB, p.reserveA, p'.reserveB, p'.reserveA);
      }
      assert false;
    }
  }

  /** Adding liquidity and taking the minted shares straight out returns at most the deposit,
      on each side. */
  lemma AddThenRemove(w: World, sender: Address, id: H256, amountA: u128, amountB: u128, minLp: u128, w': World, lp: u128,
                      sender': Address, minA: u128, minB: u128, w'': World, outA: u128, outB: u128)
    requires Inv(w) && sender != ZERO_ADDRESS
    requires AddLiquidity(w, sender, id, amountA, amountB, minLp) == Done(w', Minted(lp))
    requires RemoveLiquidity(w', sender', id, lp, minA, minB) == Done(w'', Withdrawn(outA, outB))
    ensures id in w.pools && ActualDeposit(w.pools[id], amountA, amountB).Ok?
    ensures var d := ActualDeposit(w.pools[id], amountA, amountB).value; outA <= d.0 && outB <= d.1
  {
    var w1, w2, wn, a, b, lp1 := AddTrace(w, sender, id, amountA, amountB, minLp);
    var p := w.pools[id];
    TwoDepositsFit(w, w1, sender, p.tokenA, p.tokenB, a, b);
    ReserveOwed(w, id, p.tokenA);
    ReserveOwed(w, id, p.tokenB);
    var v1, v2, vn, a', b' := RemoveTrace(w', sender', id, lp, minA, minB);
    DepositReturned(p, a, b, lp, outA, outB);
  }

  lemma DepositReturned(p: PoolState, a: u128, b: u128, lp: u128, outA: int, outB: int)
    requires Collateralised(p) && SharesFor(p, a, b) == Ok(lp)
    requires p.reserveA + a <= U128_MAX && p.reserveB + b <= U128_MAX
    requires var p' := Deposited(p, a, b, lp);
             && 0 < p'.lpTotalSupply
             && outA == lp * p'.reserveA / p'.lpTotalSupply && outB == lp * p'.reserveB / p'.lpTotalSupply
    ensures outA <= a && outB <= b
  {
    DepositedGood(p, a, b, lp);
    MintThenBurn(p.reserveA, p.lpTotalSupply, a, lp);
    MintThenBurn(p.reserveB, p.lpTotalSupply, b, lp);
  }
}
