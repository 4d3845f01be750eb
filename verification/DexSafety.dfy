/** Safety of the exchange over whole runs: every pool stays collateralised, every token
    stays in custody, no share loses worth, and no arithmetic step overflows. */
module DexSafety {
  import opened Primitives
  import opened Nonlinear
  import opened DexTypes
  import opened Wide
  import opened PoolMath
  import opened DexModel
  import opened DexLedger

  // ----- the invariant

  /** A pool record on its own: both sides funded and no more shares than the geometric mean. */
  ghost predicate Collateralised(p: PoolState) {
    && p.tokenA != p.tokenB
    && 0 < p.reserveA && 0 < p.reserveB
    && MINIMUM_LIQUIDITY <= p.lpTotalSupply
    && p.lpTotalSupply * p.lpTotalSupply <= p.reserveA * p.reserveB
    && p.feeBps == DEFAULT_FEE_BPS && p.protocolFeeBps == DEFAULT_PROTOCOL_FEE_BPS
  }

  /** The recorded share supply is what holders have plus the shares burned at creation. */
  ghost predicate SharesMatch(w: World, p: PoolState) {
    && p.lpTokenId in w.assets
    && Holdings(w, p.lpTokenId) + MINIMUM_LIQUIDITY == p.lpTotalSupply
  }

  ghost predicate GoodPools(w: World) {
    forall id :: id in w.pools ==>
      w.pools[id].poolId == id && Collateralised(w.pools[id]) && SharesMatch(w, w.pools[id])
  }

  ghost predicate DistinctShares(w: World) {
    forall i, j :: i in w.pools && j in w.pools && i != j ==> w.pools[i].lpTokenId != w.pools[j].lpTokenId
  }

  /** Supplies fit in an Amount, unregistered tokens are held by nobody, and the pool account
      covers what the pools owe. */
  ghost predicate Solvent(w: World, t: H256) {
    && Holdings(w, t) <= U128_MAX
    && (t !in w.assets ==> Holdings(w, t) == 0)
    && (if t == NATIVE_VTT then Custody(w, t) <= U128_MAX else 0 <= Custody(w, t))
  }

  ghost predicate Inv(w: World) {
    && GoodPools(w)
    && DistinctShares(w)
    && (forall t: H256 :: Solvent(w, t))
  }

  ghost predicate WorthUp(p: PoolState, p': PoolState) {
    ShareWorthUp(p.reserveA * p.reserveB, p.lpTotalSupply, p'.reserveA * p'.reserveB, p'.lpTotalSupply)
  }

  ghost predicate SameIdentity(p: PoolState, p': PoolState) {
    && p'.poolId == p.poolId && p'.tokenA == p.tokenA && p'.tokenB == p.tokenB && p'.lpTokenId == p.lpTokenId
    && p'.feeBps == p.feeBps && p'.protocolFeeBps == p.protocolFeeBps
  }

  /** What one transaction may do: keep the invariant and the custody of every token, keep or
      raise the worth of a share in every pool that existed. */
  ghost predicate GoodStep(w: World, w': World) {
    && Inv(w')
    && (forall t: H256 :: Custody(w', t) == Custody(w, t))
    && (forall id :: id in w.pools ==> id in w'.pools && SameIdentity(w.pools[id], w'.pools[id])
                                       && WorthUp(w.pools[id], w'.pools[id]))
  }

  // ----- rewriting one pool

  lemma BooksBalance(w: World, wn: World, p': PoolState, dA: int, dB: int, u: H256)
    requires wn.pools == w.pools && p'.poolId in w.pools
    requires var p := w.pools[p'.poolId];
             && p'.tokenA == p.tokenA && p'.tokenB == p.tokenB && p.tokenA != p.tokenB
             && p'.reserveA + p'.protocolFeesA == p.reserveA + p.protocolFeesA + dA
             && p'.reserveB + p'.protocolFeesB == p.reserveB + p.protocolFeesB + dB
             && Custody(wn, u) == Custody(w, u) + Inward(u, p.tokenA, dA) + Inward(u, p.tokenB, dB)
    ensures Custody(SetPool(wn, p'), u) == Custody(w, u)
  {
    SetPoolTotals(wn, p', u);
    assert SetPool(wn, p').Owned(u, ZERO_ADDRESS) == wn.Owned(u, ZERO_ADDRESS);
  }

  lemma RewriteKeeps(w: World, wn: World, p': PoolState, dl: int)
    requires Inv(w) && SameBooks(w, wn) && p'.poolId in w.pools
    requires SameIdentity(w.pools[p'.poolId], p') && Collateralised(p')
    requires p'.lpTotalSupply == w.pools[p'.poolId].lpTotalSupply + dl
    requires WorthUp(w.pools[p'.poolId], p')
    requires forall u: H256 :: Holdings(wn, u) == Holdings(w, u) + (if u == p'.lpTokenId then dl else 0)
    requires forall u: H256 :: Custody(SetPool(wn, p'), u) == Custody(w, u)
    ensures GoodStep(w, SetPool(wn, p'))
  {
    var w' := SetPool(wn, p');
    assert forall u: H256 :: Holdings(w', u) == Holdings(wn, u);
    forall id | id in w'.pools
      ensures w'.pools[id].poolId == id && Collateralised(w'.pools[id]) && SharesMatch(w', w'.pools[id])
    {
      if id != p'.poolId {
        assert w.pools[id].lpTokenId != p'.lpTokenId;
      }
    }
    forall t: H256
      ensures Solvent(w', t)
    {
      assert Solvent(w, t);
    }
    forall id | id in w.pools
      ensures SameIdentity(w.pools[id], w'.pools[id]) && WorthUp(w.pools[id], w'.pools[id])
    {
    }
  }

  // ----- no step overflows

  /** A deposit the ledger accepted fits beside everything the pools already owe. */
  lemma DepositFits(w: World, sender: Address, t: H256, amount: u128)
    requires Solvent(w, t) && sender != ZERO_ADDRESS && TransferIn(w, sender, t, amount).result.Ok?
    ensures Owed(w, t) + amount <= U128_MAX
  {
    if t == NATIVE_VTT {
      SetBalanceTotals(w, sender, w.Balance(sender) - amount);
    } else {
      TransferInMoves(w, sender, t, amount, t);
    }
  }

  lemma ReserveOwed(w: World, id: H256, t: H256)
    requires id in w.pools
    ensures Claim(w.pools[id], t) <= Owed(w, t)
  {
    SetPoolTotals(w, w.pools[id].(poolId := id), t);
  }

  lemma SquareFits(l: int, a: int, b: int)
    requires 0 <= l && 0 <= a <= U128_MAX && 0 <= b <= U128_MAX && l * l <= a * b
    ensures l <= U128_MAX
  {
    MulMono2(a, U128_MAX, b, U128_MAX);
    SquareLe(l, U128_MAX);
  }

  // ----- adding liquidity

  lemma DepositedGood(p: PoolState, a: u128, b: u128, lp: u128)
    requires Collateralised(p) && SharesFor(p, a, b) == Ok(lp)
    requires p.reserveA + a <= U128_MAX && p.reserveB + b <= U128_MAX
    ensures p.lpTotalSupply + lp <= U128_MAX
    ensures var p' := Deposited(p, a, b, lp);
            && p'.reserveA == p.reserveA + a && p'.reserveB == p.reserveB + b
            && p'.lpTotalSupply == p.lpTotalSupply + lp
            && Collateralised(p') && WorthUp(p, p') && SameIdentity(p, p')
  {
    var l := p.lpTotalSupply;
    MintIsProportional(p.reserveA, l, a, lp);
    MintIsProportional(p.reserveB, l, b, lp);
    var k, k' := p.reserveA * p.reserveB, (p.reserveA + a) * (p.reserveB + b);
    ProportionalWorth(p.reserveA, p.reserveB, l, p.reserveA + a, p.reserveB + b, l + lp);
    MulNonNegative(p.reserveA + a, p.reserveB + b);
    WorthBoundsSupply(k, l, k', l + lp);
    SquareFits(l + lp, p.reserveA + a, p.reserveB + b);
  }

  lemma AddTrace(w: World, sender: Address, id: H256, amountA: u128, amountB: u128, minLp: u128)
    returns (w1: World, w2: World, wn: World, a: u128, b: u128, lp: u128)
    requires AddLiquidity(w, sender, id, amountA, amountB, minLp).result.Ok?
    ensures id in w.pools
    ensures var p := w.pools[id];
            && ActualDeposit(p, amountA, amountB) == Ok((a, b)) && SharesFor(p, a, b) == Ok(lp)
            && AddLiquidity(w, sender, id, amountA, amountB, minLp) == Done(SetPool(wn, Deposited(p, a, b, lp)), Minted(lp))
            && TransferIn(w, sender, p.tokenA, a) == Done(w1, Moved)
            && TransferIn(w1, sender, p.tokenB, b) == Done(w2, Moved)
            && Credit(w2, p.lpTokenId, sender, lp) == Done(wn, Moved)
  {
    var p := w.pools[id];
    a, b := ActualDeposit(p, amountA, amountB).value.0, ActualDeposit(p, amountA, amountB).value.1;
    lp := SharesFor(p, a, b).value;
    w1 := TransferIn(w, sender, p.tokenA, a).world;
    w2 := TransferIn(w1, sender, p.tokenB, b).world;
    wn := Credit(w2, p.lpTokenId, sender, lp).world;
  }

  lemma PayInAndMint(w: World, w1: World, w2: World, wn: World, sender: Address, t: H256, t': H256, lpId: H256,
                     a: u128, b: u128, lp: u128, u: H256)
    requires sender != ZERO_ADDRESS
    requires TransferIn(w, sender, t, a) == Done(w1, Moved)
    requires TransferIn(w1, sender, t', b) == Done(w2, Moved)
    requires Credit(w2, lpId, sender, lp) == Done(wn, Moved)
    ensures SameBooks(w, wn)
    ensures Holdings(wn, u) == Holdings(w, u) + (if u == lpId then lp else 0)
    ensures Custody(wn, u) == Custody(w, u) + Inward(u, t, a) + Inward(u, t', b)
  {
    TransferInMoves(w, sender, t, a, u);
    TransferInMoves(w1, sender, t', b, u);
    CreditMints(w2, lpId, sender, lp, u);
  }

  lemma TwoDepositsFit(w: World, w1: World, sender: Address, t: H256, t': H256, a: u128, b: u128)
    requires t != t' && Solvent(w, t) && Solvent(w, t') && sender != ZERO_ADDRESS
    requires TransferIn(w, sender, t, a) == Done(w1, Moved) && TransferIn(w1, sender, t', b).result.Ok?
    ensures Owed(w, t) + a <= U128_MAX && Owed(w, t') + b <= U128_MAX
  {
    DepositFits(w, sender, t, a);
    TransferInMoves(w, sender, t, a, t');
    DepositFits(w1, sender, t', b);
  }

  lemma AddStep(w: World, sender: Address, id: H256, amountA: u128, amountB: u128, minLp: u128)
    requires Inv(w) && sender != ZERO_ADDRESS && AddLiquidity(w, sender, id, amountA, amountB, minLp).result.Ok?
    ensures GoodStep(w, AddLiquidity(w, sender, id, amountA, amountB, minLp).world)
  {
    var w1, w2, wn, a, b, lp := AddTrace(w, sender, id, amountA, amountB, minLp);
    var p := w.pools[id];
    TwoDepositsFit(w, w1, sender, p.tokenA, p.tokenB, a, b);
    forall u: H256
      ensures SameBooks(w, wn)
      ensures Holdings(wn, u) == Holdings(w, u) + (if u == p.lpTokenId then lp else 0)
      ensures Custody(wn, u) == Custody(w, u) + Inward(u, p.tokenA, a) + Inward(u, p.tokenB, b)
    {
      PayInAndMint(w, w1, w2, wn, sender, p.tokenA, p.tokenB, p.lpTokenId, a, b, lp, u);
    }
    AddKeeps(w, wn, p, a, b, lp);
  }

  lemma AddKeeps(w: World, wn: World, p: PoolState, a: u128, b: u128, lp: u128)
    requires Inv(w) && p.poolId in w.pools && w.pools[p.poolId] == p && SameBooks(w, wn)
    requires SharesFor(p, a, b) == Ok(lp)
    requires Owed(w, p.tokenA) + a <= U128_MAX && Owed(w, p.tokenB) + b <= U128_MAX
    requires forall u: H256 :: Holdings(wn, u) == Holdings(w, u) + (if u == p.lpTokenId then lp else 0)
    requires forall u: H256 :: Custody(wn, u) == Custody(w, u) + Inward(u, p.tokenA, a) + Inward(u, p.tokenB, b)
    ensures GoodStep(w, SetPool(wn, Deposited(p, a, b, lp)))
  {
    var p' := Deposited(p, a, b, lp);
    ReserveOwed(w, p.poolId, p.tokenA);
    ReserveOwed(w, p.poolId, p.tokenB);
    DepositedGood(p, a, b, lp);
    forall u: H256
      ensures Custody(SetPool(wn, p'), u) == Custody(w, u)
    {
      BooksBalance(w, wn, p', a, b, u);
    }
    RewriteKeeps(w, wn, p', lp);
  }

  // ----- removing liquidity

  lemma WithdrawalGood(p: PoolState, a: u128, b: u128, lp: u128)
    requires Collateralised(p) && lp <= p.lpTotalSupply - MINIMUM_LIQUIDITY
    requires a == lp * p.reserveA / p.lpTotalSupply && b == lp * p.reserveB / p.lpTotalSupply
    ensures var p' := Withdrawal(p, a, b, lp);
            && p'.reserveA == p.reserveA - a && p'.reserveB == p.reserveB - b
            && p'.lpTotalSupply == p.lpTotalSupply - lp
            && Collateralised(p') && WorthUp(p, p') && SameIdentity(p, p')
  {
    var l := p.lpTotalSupply;
    BurnIsProportional(p.reserveA, l, lp, a);
    BurnIsProportional(p.reserveB, l, lp, b);
    ProportionalWorth(p.reserveA, p.reserveB, l, p.reserveA - a, p.reserveB - b, l - lp);
    MulNonNegative(p.reserveA - a, p.reserveB - b);
    WorthBoundsSupply(p.reserveA * p.reserveB, l, (p.reserveA - a) * (p.reserveB - b), l - lp);
    StaysFunded(p.reserveA, l, lp, a);
    StaysFunded(p.reserveB, l, lp, b);
  }

  /** While shares are left, neither side can be drained. */
  lemma StaysFunded(r: int, l: int, lp: int, out: int)
    requires 0 < r && lp < l && r * (l - lp) <= (r - out) * l && 0 <= lp
    ensures out < r
  {
    MulMono2(1, r, 1, l - lp);
    if r <= out {
      MulMono(r - out, 0, l);
      assert false;
    }
  }

  lemma RemoveTrace(w: World, sender: Address, id: H256, lp: u128, minA: u128, minB: u128)
    returns (w1: World, w2: World, wn: World, a: u128, b: u128)
    requires RemoveLiquidity(w, sender, id, lp, minA, minB).result.Ok?
    ensures id in w.pools
    ensures var p := w.pools[id];
            && 0 < p.lpTotalSupply
            && a == lp * p.reserveA / p.lpTotalSupply && b == lp * p.reserveB / p.lpTotalSupply
            && RemoveLiquidity(w, sender, id, lp, minA, minB) == Done(SetPool(wn, Withdrawal(p, a, b, lp)), Withdrawn(a, b))
            && Debit(w, p.lpTokenId, sender, lp, InsufficientBalance) == Done(w1, Moved)
            && TransferOut(w1, sender, p.tokenA, a) == Done(w2, Moved)
            && TransferOut(w2, sender, p.tokenB, b) == Done(wn, Moved)
  {
    var p := w.pools[id];
    a := Quotient(lp * p.reserveA, p.lpTotalSupply).value;
    b := Quotient(lp * p.reserveB, p.lpTotalSupply).value;
    w1 := Debit(w, p.lpTokenId, sender, lp, InsufficientBalance).world;
    w2 := TransferOut(w1, sender, p.tokenA, a).world;
    wn := TransferOut(w2, sender, p.tokenB, b).world;
  }

  lemma BurnAndPayOut(w: World, w1: World, w2: World, wn: World, sender: Address, p: PoolState, a: u128, b: u128, lp: u128, u: H256)
    requires sender != ZERO_ADDRESS
    requires Debit(w, p.lpTokenId, sender, lp, InsufficientBalance) == Done(w1, Moved)
    requires TransferOut(w1, sender, p.tokenA, a) == Done(w2, Moved)
    requires TransferOut(w2, sender, p.tokenB, b) == Done(wn, Moved)
    ensures SameBooks(w, wn) && lp <= Holdings(w, p.lpTokenId)
    ensures Holdings(wn, u) == Holdings(w, u) + (if u == p.lpTokenId then -(lp as int) else 0)
    ensures Custody(wn, u) == Custody(w, u) + Inward(u, p.tokenA, -(a as int)) + Inward(u, p.tokenB, -(b as int))
  {
    DebitCovered(w, p.lpTokenId, sender, lp, InsufficientBalance);
    DebitBurns(w, p.lpTokenId, sender, lp, InsufficientBalance, u);
    TransferOutMoves(w1, sender, p.tokenA, a, u);
    TransferOutMoves(w2, sender, p.tokenB, b, u);
  }

  lemma RemoveKeeps(w: World, wn: World, p: PoolState, a: u128, b: u128, lp: u128)
    requires Inv(w) && p.poolId in w.pools && w.pools[p.poolId] == p && SameBooks(w, wn)
    requires a == lp * p.reserveA / p.lpTotalSupply && b == lp * p.reserveB / p.lpTotalSupply
    requires lp <= Holdings(w, p.lpTokenId)
    requires forall u: H256 :: Holdings(wn, u) == Holdings(w, u) + (if u == p.lpTokenId then -(lp as int) else 0)
    requires forall u: H256 :: Custody(wn, u) == Custody(w, u) + Inward(u, p.tokenA, -(a as int)) + Inward(u, p.tokenB, -(b as int))
    ensures GoodStep(w, SetPool(wn, Withdrawal(p, a, b, lp)))
  {
    var p' := Withdrawal(p, a, b, lp);
    WithdrawalGood(p, a, b, lp);
    forall u: H256
      ensures Custody(SetPool(wn, p'), u) == Custody(w, u)
    {
      BooksBalance(w, wn, p', -(a as int), -(b as int), u);
    }
    RewriteKeeps(w, wn, p', -(lp as int));
  }

  lemma RemoveStep(w: World, sender: Address, id: H256, lp: u128, minA: u128, minB: u128)
    requires Inv(w) && sender != ZERO_ADDRESS && RemoveLiquidity(w, sender, id, lp, minA, minB).result.Ok?
    ensures GoodStep(w, RemoveLiquidity(w, sender, id, lp, minA, minB).world)
  {
    var w1, w2, wn, a, b := RemoveTrace(w, sender, id, lp, minA, minB);
    var p := w.pools[id];
    forall u: H256
      ensures SameBooks(w, wn) && lp <= Holdings(w, p.lpTokenId)
      ensures Holdings(wn, u) == Holdings(w, u) + (if u == p.lpTokenId then -(lp as int) else 0)
      ensures Custody(wn, u) == Custody(w, u) + Inward(u, p.tokenA, -(a as int)) + Inward(u, p.tokenB, -(b as int))
    {
      BurnAndPayOut(w, w1, w2, wn, sender, p, a, b, lp, u);
    }
    RemoveKeeps(w, wn, p, a, b, lp);
  }

  // ----- swapping

  /** A pool seen from the paying side. */
  ghost function TokenOut(p: PoolState, aToB: bool): H256 {
    if aToB then p.tokenB else p.tokenA
  }

  ghost function TokenIn(p: PoolState, aToB: bool): H256 {
    if aToB then p.tokenA else p.tokenB
  }

  /** What `in` paid and `out` received are on the A side and on the B side. */
  ghost function SideA(aToB: bool, paid: int, out: int): int {
    if aToB then paid else -out
  }

  ghost function SideB(aToB: bool, paid: int, out: int): int {
    if aToB then -out else paid
  }

  ghost predicate Quoted(p: PoolState, aToB: bool, amount: u128, f: Fees, out: u128) {
    && CalculateFees(amount, p.feeBps, p.protocolFeeBps) == Ok(f)
    && (if aToB then AmountOut(f.net, p.reserveA, p.reserveB) else AmountOut(f.net, p.reserveB, p.reserveA)) == Ok(out)
  }

  lemma SwappedGood(p: PoolState, aToB: bool, amount: u128, f: Fees, out: u128)
    requires Collateralised(p) && Quoted(p, aToB, amount, f, out)
    requires aToB ==> p.reserveA + p.protocolFeesA + amount <= U128_MAX
    requires !aToB ==> p.reserveB + p.protocolFeesB + amount <= U128_MAX
    ensures var p' := SwappedPool(p, aToB, f, out);
            && p'.reserveA + p'.protocolFeesA == p.reserveA + p.protocolFeesA + SideA(aToB, amount, out)
            && p'.reserveB + p'.protocolFeesB == p.reserveB + p.protocolFeesB + SideB(aToB, amount, out)
            && p'.reserveA == p.reserveA + SideA(aToB, amount - f.protocol, out)
            && p'.reserveB == p.reserveB + SideB(aToB, amount - f.protocol, out)
            && p'.lpTotalSupply == p.lpTotalSupply
            && p'.reserveA * p'.reserveB >= p.reserveA * p.reserveB
            && Collateralised(p') && WorthUp(p, p') && SameIdentity(p, p')
  {
    FeeSplitExact(amount);
    var p' := SwappedPool(p, aToB, f, out);
    if aToB {
      QuoteKeepsProduct(f.net, f.net + f.lp, p.reserveA, p.reserveB, out);
    } else {
      QuoteKeepsProduct(f.net, f.net + f.lp, p.reserveB, p.reserveA, out);
    }
    assert p'.reserveA * p'.reserveB >= p.reserveA * p.reserveB;
    HigherProductWorthUp(p, p');
  }

  lemma HigherProductWorthUp(p: PoolState, p': PoolState)
    requires p'.lpTotalSupply == p.lpTotalSupply && p.reserveA * p.reserveB <= p'.reserveA * p'.reserveB
    ensures WorthUp(p, p')
  {
    MulNonNegative(p.lpTotalSupply, p.lpTotalSupply);
    MulMono(p.reserveA * p.reserveB, p'.reserveA * p'.reserveB, p.lpTotalSupply * p.lpTotalSupply);
  }

  lemma SwapTrace(w: World, sender: Address, id: H256, tokenIn: H256, amount: u128, minOut: u128)
    returns (w1: World, wn: World, aToB: bool, f: Fees, out: u128)
    requires Swap(w, sender, id, tokenIn, amount, minOut).result.Ok?
    ensures id in w.pools
    ensures var p := w.pools[id];
            && aToB == (tokenIn == p.tokenA) && tokenIn == TokenIn(p, aToB)
            && Quoted(p, aToB, amount, f, out)
            && Swap(w, sender, id, tokenIn, amount, minOut) == Done(SetPool(wn, SwappedPool(p, aToB, f, out)), Swapped(out))
            && TransferIn(w, sender, tokenIn, amount) == Done(w1, Moved)
            && TransferOut(w1, sender, TokenOut(p, aToB), out) == Done(wn, Moved)
  {
    var p := w.pools[id];
    aToB := tokenIn == p.tokenA;
    f := CalculateFees(amount, p.feeBps, p.protocolFeeBps).value;
    out := if aToB then AmountOut(f.net, p.reserveA, p.reserveB).value else AmountOut(f.net, p.reserveB, p.reserveA).value;
    w1 := TransferIn(w, sender, tokenIn, amount).world;
    wn := TransferOut(w1, sender, TokenOut(p, aToB), out).world;
  }

  lemma PayInAndOut(w: World, w1: World, wn: World, sender: Address, p: PoolState, aToB: bool, amount: u128, out: u128, u: H256)
    requires sender != ZERO_ADDRESS
    requires TransferIn(w, sender, TokenIn(p, aToB), amount) == Done(w1, Moved)
    requires TransferOut(w1, sender, TokenOut(p, aToB), out) == Done(wn, Moved)
    ensures SameBooks(w, wn) && Holdings(wn, u) == Holdings(w, u)
    ensures Custody(wn, u) == Custody(w, u) + Inward(u, p.tokenA, SideA(aToB, amount, out))
                                            + Inward(u, p.tokenB, SideB(aToB, amount, out))
  {
    TransferInMoves(w, sender, TokenIn(p, aToB), amount, u);
    TransferOutMoves(w1, sender, TokenOut(p, aToB), out, u);
  }

  lemma SwapKeeps(w: World, wn: World, p: PoolState, aToB: bool, amount: u128, f: Fees, out: u128)
    requires Inv(w) && p.poolId in w.pools && w.pools[p.poolId] == p && SameBooks(w, wn)
    requires Quoted(p, aToB, amount, f, out) && Owed(w, TokenIn(p, aToB)) + amount <= U128_MAX
    requires forall u: H256 :: Holdings(wn, u) == Holdings(w, u)
    requires forall u: H256 :: Custody(wn, u) == Custody(w, u) + Inward(u, p.tokenA, SideA(aToB, amount, out))
                                                              + Inward(u, p.tokenB, SideB(aToB, amount, out))
    ensures GoodStep(w, SetPool(wn, SwappedPool(p, aToB, f, out)))
  {
    var p' := SwappedPool(p, aToB, f, out);
    ReserveOwed(w, p.poolId, TokenIn(p, aToB));
    SwappedGood(p, aToB, amount, f, out);
    forall u: H256
      ensures Custody(SetPool(wn, p'), u) == Custody(w, u)
    {
      BooksBalance(w, wn, p', SideA(aToB, amount, out), SideB(aToB, amount, out), u);
    }
    RewriteKeeps(w, wn, p', 0);
  }

  lemma SwapStep(w: World, sender: Address, id: H256, tokenIn: H256, amount: u128, minOut: u128)
    requires Inv(w) && sender != ZERO_ADDRESS && Swap(w, sender, id, tokenIn, amount, minOut).result.Ok?
    ensures GoodStep(w, Swap(w, sender, id, tokenIn, amount, minOut).world)
  {
    var w1, wn, aToB, f, out := SwapTrace(w, sender, id, tokenIn, amount, minOut);
    var p := w.pools[id];
    assert Solvent(w, tokenIn);
    DepositFits(w, sender, tokenIn, amount);
    forall u: H256
      ensures SameBooks(w, wn) && Holdings(wn, u) == Holdings(w, u)
      ensures Custody(wn, u) == Custody(w, u) + Inward(u, p.tokenA, SideA(aToB, amount, out))
                                              + Inward(u, p.tokenB, SideB(aToB, amount, out))
    {
      PayInAndOut(w, w1, wn, sender, p, aToB, amount, out, u);
    }
    SwapKeeps(w, wn, p, aToB, amount, f, out);
  }

  // ----- claiming protocol fees

  lemma PayOutMoves(w: World, recipient: Address, t: H256, amount: u128, u: H256)
    requires recipient != ZERO_ADDRESS && PayOut(w, recipient, t, amount).result.Ok?
    ensures MovesIn(w, PayOut(w, recipient, t, amount).world, t, -(amount as int), u)
  {
    if amount > 0 {
      TransferOutMoves(w, recipient, t, amount, u);
    }
  }

  lemma ClaimKeeps(w: World, wn: World, p: PoolState)
    requires Inv(w) && p.poolId in w.pools && w.pools[p.poolId] == p && SameBooks(w, wn)
    requires forall u: H256 :: Holdings(wn, u) == Holdings(w, u)
    requires forall u: H256 :: Custody(wn, u) == Custody(w, u) + Inward(u, p.tokenA, -(p.protocolFeesA as int))
                                                              + Inward(u, p.tokenB, -(p.protocolFeesB as int))
    ensures GoodStep(w, SetPool(wn, p.(protocolFeesA := 0, protocolFeesB := 0)))
  {
    var p' := p.(protocolFeesA := 0, protocolFeesB := 0);
    forall u: H256
      ensures Custody(SetPool(wn, p'), u) == Custody(w, u)
    {
      BooksBalance(w, wn, p', -(p.protocolFeesA as int), -(p.protocolFeesB as int), u);
    }
    RewriteKeeps(w, wn, p', 0);
  }

  lemma ClaimStep(w: World, sender: Address, id: H256, treasury: Address)
    requires Inv(w) && sender != ZERO_ADDRESS && ClaimProtocolFees(w, sender, id, treasury).result.Ok?
    ensures GoodStep(w, ClaimProtocolFees(w, sender, id, treasury).world)
  {
    var p := w.pools[id];
    var w1 := PayOut(w, treasury, p.tokenA, p.protocolFeesA).world;
    var wn := PayOut(w1, treasury, p.tokenB, p.protocolFeesB).world;
    forall u: H256
      ensures SameBooks(w, wn) && Holdings(wn, u) == Holdings(w, u)
      ensures Custody(wn, u) == Custody(w, u) + Inward(u, p.tokenA, -(p.protocolFeesA as int))
                                              + Inward(u, p.tokenB, -(p.protocolFeesB as int))
    {
      PayOutMoves(w, treasury, p.tokenA, p.protocolFeesA, u);
      PayOutMoves(w1, treasury, p.tokenB, p.protocolFeesB, u);
    }
    ClaimKeeps(w, wn, p);
  }

  // ----- creating a pool

  lemma CreateTrace(h: Hasher, w: World, sender: Address, ta: H256, tb: H256, a: u128, b: u128, epoch: nat)
    returns (w1: World, w2: World, w3: World, wn: World, p: PoolState)
    requires CreatePool(h, w, sender, ta, tb, a, b, epoch).result.Ok?
    ensures ta != tb && 0 < a && 0 < b
    ensures p.lpTotalSupply == SqrtSpec(a * b) && MINIMUM_LIQUIDITY < p.lpTotalSupply
    ensures p == NewPool(h, sender, ta, tb, a, b, p.lpTotalSupply, epoch) && p.poolId !in w.pools
    ensures TransferIn(w, sender, ta, a) == Done(w1, Moved) && TransferIn(w1, sender, tb, b) == Done(w2, Moved)
    ensures RegisterLp(w2, p.lpTokenId) == Done(w3, Moved)
    ensures Credit(w3, p.lpTokenId, sender, p.lpTotalSupply - MINIMUM_LIQUIDITY) == Done(wn, Moved)
    ensures CreatePool(h, w, sender, ta, tb, a, b, epoch) == Done(SetPool(wn, p), Created(p))
  {
    w1 := TransferIn(w, sender, ta, a).world;
    w2 := TransferIn(w1, sender, tb, b).world;
    SqrtFits(a, b);
    p := NewPool(h, sender, ta, tb, a, b, SqrtSpec(a * b), epoch);
    w3 := RegisterLp(w2, p.lpTokenId).world;
    wn := Credit(w3, p.lpTokenId, sender, p.lpTotalSupply - MINIMUM_LIQUIDITY).world;
  }

  lemma PayInAndOpen(w: World, w1: World, w2: World, w3: World, wn: World, sender: Address, t: H256, t': H256, lpId: H256,
                     a: u128, b: u128, lp: u128, u: H256)
    requires sender != ZERO_ADDRESS
    requires TransferIn(w, sender, t, a) == Done(w1, Moved)
    requires TransferIn(w1, sender, t', b) == Done(w2, Moved)
    requires RegisterLp(w2, lpId) == Done(w3, Moved)
    requires Credit(w3, lpId, sender, lp) == Done(wn, Moved)
    ensures lpId !in w.assets && wn.assets == w.assets[lpId := true] && wn.pools == w.pools
    ensures Holdings(wn, u) == Holdings(w, u) + (if u == lpId then lp else 0)
    ensures Custody(wn, u) == Custody(w, u) + Inward(u, t, a) + Inward(u, t', b)
  {
    TransferInMoves(w, sender, t, a, u);
    TransferInMoves(w1, sender, t', b, u);
    assert Holdings(w3, u) == Holdings(w2, u) && Custody(w3, u) == Custody(w2, u);
    CreditMints(w3, lpId, sender, lp, u);
  }

  lemma NewPoolBooks(w: World, wn: World, p: PoolState, u: H256)
    requires wn.pools == w.pools && p.poolId !in w.pools
    requires p.tokenA != p.tokenB && p.protocolFeesA == 0 && p.protocolFeesB == 0
    requires Custody(wn, u) == Custody(w, u) + Inward(u, p.tokenA, p.reserveA) + Inward(u, p.tokenB, p.reserveB)
    ensures Custody(SetPool(wn, p), u) == Custody(w, u)
  {
    SetPoolTotals(wn, p, u);
    assert SetPool(wn, p).Owned(u, ZERO_ADDRESS) == wn.Owned(u, ZERO_ADDRESS);
  }

  lemma CreateKeepsTokens(w: World, wn: World, p: PoolState, t: H256)
    requires Solvent(w, t) && p.poolId !in w.pools && p.tokenA != p.tokenB
    requires p.protocolFeesA == 0 && p.protocolFeesB == 0 && MINIMUM_LIQUIDITY <= p.lpTotalSupply
    requires p.lpTokenId !in w.assets && wn.assets == w.assets[p.lpTokenId := true] && wn.pools == w.pools
    requires Holdings(wn, t) == Holdings(w, t) + (if t == p.lpTokenId then p.lpTotalSupply - MINIMUM_LIQUIDITY else 0)
    requires Custody(wn, t) == Custody(w, t) + Inward(t, p.tokenA, p.reserveA) + Inward(t, p.tokenB, p.reserveB)
    ensures Custody(SetPool(wn, p), t) == Custody(w, t) && Solvent(SetPool(wn, p), t)
    ensures Holdings(SetPool(wn, p), t) == Holdings(wn, t)
  {
    NewPoolBooks(w, wn, p, t);
  }

  lemma CreateKeepsPools(w: World, w': World, p: PoolState)
    requires Inv(w) && p.poolId !in w.pools && Collateralised(p)
    requires p.lpTokenId !in w.assets && w'.assets == w.assets[p.lpTokenId := true] && w'.pools == w.pools[p.poolId := p]
    requires forall u: H256 :: Holdings(w', u)
                == Holdings(w, u) + (if u == p.lpTokenId then p.lpTotalSupply - MINIMUM_LIQUIDITY else 0)
    ensures GoodPools(w') && DistinctShares(w')
  {
    assert Solvent(w, p.lpTokenId);
    forall id | id in w'.pools
      ensures w'.pools[id].poolId == id && Collateralised(w'.pools[id]) && SharesMatch(w', w'.pools[id])
      ensures id in w.pools ==> w.pools[id].lpTokenId != p.lpTokenId
    {
    }
  }

  lemma CreateKeeps(w: World, wn: World, p: PoolState)
    requires Inv(w) && p.poolId !in w.pools && Collateralised(p)
    requires p.protocolFeesA == 0 && p.protocolFeesB == 0
    requires p.lpTokenId !in w.assets && wn.assets == w.assets[p.lpTokenId := true] && wn.pools == w.pools
    requires forall u: H256 :: Holdings(wn, u)
                == Holdings(w, u) + (if u == p.lpTokenId then p.lpTotalSupply - MINIMUM_LIQUIDITY else 0)
    requires forall u: H256 :: Custody(wn, u) == Custody(w, u) + Inward(u, p.tokenA, p.reserveA) + Inward(u, p.tokenB, p.reserveB)
    ensures GoodStep(w, SetPool(wn, p))
  {
    var w' := SetPool(wn, p);
    forall t: H256
      ensures Custody(w', t) == Custody(w, t) && Solvent(w', t) && Holdings(w', t) == Holdings(wn, t)
    {
      assert Solvent(w, t);
      CreateKeepsTokens(w, wn, p, t);
    }
    CreateKeepsPools(w, w', p);
  }

  lemma CreateStep(h: Hasher, w: World, sender: Address, ta: H256, tb: H256, a: u128, b: u128, epoch: nat)
    requires Inv(w) && sender != ZERO_ADDRESS && CreatePool(h, w, sender, ta, tb, a, b, epoch).result.Ok?
    ensures GoodStep(w, CreatePool(h, w, sender, ta, tb, a, b, epoch).world)
  {
    var w1, w2, w3, wn, p := CreateTrace(h, w, sender, ta, tb, a, b, epoch);
    SqrtFits(a, b);
    forall u: H256
      ensures p.lpTokenId !in w.assets && wn.assets == w.assets[p.lpTokenId := true] && wn.pools == w.pools
      ensures Holdings(wn, u) == Holdings(w, u) + (if u == p.lpTokenId then p.lpTotalSupply - MINIMUM_LIQUIDITY else 0)
      ensures Custody(wn, u) == Custody(w, u) + Inward(u, ta, a) + Inward(u, tb, b)
    {
      PayInAndOpen(w, w1, w2, w3, wn, sender, ta, tb, p.lpTokenId, a, b, p.lpTotalSupply - MINIMUM_LIQUIDITY, u);
    }
    CreateKeeps(w, wn, p);
  }
}
