/** Custody is not only a figure: in every reachable state no operation aborts the node, and
    whoever holds shares of tradeable tokens can take them out. */
module DexPayouts {
  import opened Primitives
  import opened DexTypes
  import opened Wide
  import opened PoolMath
  import opened DexModel
  import opened DexLedger
  import opened DexSafety
  import opened DexTheorems

  // ----- no operation panics

  lemma CreditAccepted(w: World, t: H256, a: Address, amount: u128)
    requires Holdings(w, t) + amount <= U128_MAX
    ensures Credit(w, t, a, amount).result.Ok?
  {
    OwnedCovered(w, t, a);
  }

  lemma AssetCreditAccepted(w: World, w1: World, t: H256, from: Address, to: Address, amount: u128, e: DexError)
    requires Holdings(w, t) <= U128_MAX && Debit(w, t, from, amount, e) == Done(w1, Moved)
    ensures Credit(w1, t, to, amount).result.Ok?
  {
    var o := w.Owned(t, from);
    SetOwnedHoldings(w, t, from, Ownership(o.available - amount, o.locked), t);
    CreditAccepted(w1, t, to, amount);
  }

  lemma TransferAssetNoPanic(w: World, t: H256, from: Address, to: Address, amount: u128, e: DexError)
    requires Holdings(w, t) <= U128_MAX && e != Panicked
    ensures TransferAsset(w, t, from, to, amount, e).result != Err(Panicked)
  {
    if amount != 0 && Debit(w, t, from, amount, e).result.Ok? {
      AssetCreditAccepted(w, Debit(w, t, from, amount, e).world, t, from, to, amount, e);
    }
  }

  lemma AddNoPanic(w: World, sender: Address, id: H256, amountA: u128, amountB: u128, minLp: u128)
    requires Inv(w) && sender != ZERO_ADDRESS
    ensures AddLiquidity(w, sender, id, amountA, amountB, minLp).result != Err(Panicked)
  {
    if AddLiquidity(w, sender, id, amountA, amountB, minLp).result == Err(Panicked) {
      var p := w.pools[id];
      var a, b := ActualDeposit(p, amountA, amountB).value.0, ActualDeposit(p, amountA, amountB).value.1;
      var lp := SharesFor(p, a, b).value;
      assert Solvent(w, p.tokenA) && Solvent(w, p.tokenB) && Solvent(w, p.lpTokenId);
      DepositsThenMint(w, sender, p, a, b, lp);
      assert false;
    }
  }

  lemma TransferInNoPanic(w: World, sender: Address, t: H256, amount: u128)
    requires Holdings(w, t) <= U128_MAX
    ensures TransferIn(w, sender, t, amount).result != Err(Panicked)
  {
    TransferAssetNoPanic(w, t, sender, ZERO_ADDRESS, amount, InsufficientBalance);
  }

  lemma TransferOutNoPanic(w: World, recipient: Address, t: H256, amount: u128)
    requires Holdings(w, t) <= U128_MAX
    ensures TransferOut(w, recipient, t, amount).result != Err(Panicked)
  {
    TransferAssetNoPanic(w, t, ZERO_ADDRESS, recipient, amount, InsufficientLiquidity);
  }

  /** Along an accepted deposit every intermediate credit fits. */
  lemma DepositsThenMint(w: World, sender: Address, p: PoolState, a: u128, b: u128, lp: u128)
    requires Inv(w) && p.poolId in w.pools && w.pools[p.poolId] == p && sender != ZERO_ADDRESS
    requires SharesFor(p, a, b) == Ok(lp)
    ensures TransferIn(w, sender, p.tokenA, a).result != Err(Panicked)
    ensures var t1 := TransferIn(w, sender, p.tokenA, a);
            t1.result.Ok? ==>
              var t2 := TransferIn(t1.world, sender, p.tokenB, b);
              && t2.result != Err(Panicked)
              && (t2.result.Ok? ==> Credit(t2.world, p.lpTokenId, sender, lp).result.Ok?)
  {
    assert Solvent(w, p.tokenA) && Solvent(w, p.tokenB);
    TransferInNoPanic(w, sender, p.tokenA, a);
    var t1 := TransferIn(w, sender, p.tokenA, a);
    if t1.result.Ok? {
      TransferInMoves(w, sender, p.tokenA, a, p.tokenB);
      TransferInNoPanic(t1.world, sender, p.tokenB, b);
      var t2 := TransferIn(t1.world, sender, p.tokenB, b);
      if t2.result.Ok? {
        TwoDepositsFit(w, t1.world, sender, p.tokenA, p.tokenB, a, b);
        ReserveOwed(w, p.poolId, p.tokenA);
        ReserveOwed(w, p.poolId, p.tokenB);
        DepositedGood(p, a, b, lp);
        TransferInMoves(w, sender, p.tokenA, a, p.lpTokenId);
        TransferInMoves(t1.world, sender, p.tokenB, b, p.lpTokenId);
        CreditAccepted(t2.world, p.lpTokenId, sender, lp);
      }
    }
  }

  lemma RemoveNoPanic(w: World, sender: Address, id: H256, lp: u128, minA: u128, minB: u128)
    requires Inv(w) && sender != ZERO_ADDRESS
    ensures RemoveLiquidity(w, sender, id, lp, minA, minB).result != Err(Panicked)
  {
    if id in w.pools {
      var p := w.pools[id];
      var d := Debit(w, p.lpTokenId, sender, lp, InsufficientBalance);
      if d.result.Ok? {
        forall t: H256
          ensures Holdings(d.world, t) <= U128_MAX
        {
          assert Solvent(w, t);
          DebitBurns(w, p.lpTokenId, sender, lp, InsufficientBalance, t);
        }
        TwoPayoutsNoPanic(d.world, sender, p.tokenA, p.tokenB);
      }
    }
  }

  lemma TwoPayoutsNoPanic(w: World, recipient: Address, t: H256, t': H256)
    requires recipient != ZERO_ADDRESS && Holdings(w, t) <= U128_MAX && Holdings(w, t') <= U128_MAX
    ensures forall a: u128 {:trigger TransferOut(w, recipient, t, a)} ::
              var t1 := TransferOut(w, recipient, t, a);
              && t1.result != Err(Panicked)
              && (t1.result.Ok? ==>
                    forall b: u128 {:trigger TransferOut(t1.world, recipient, t', b)} ::
                      TransferOut(t1.world, recipient, t', b).result != Err(Panicked))
  {
    forall a: u128
      ensures var t1 := TransferOut(w, recipient, t, a);
              && t1.result != Err(Panicked)
              && (t1.result.Ok? ==>
                    forall b: u128 {:trigger TransferOut(t1.world, recipient, t', b)} ::
                      TransferOut(t1.world, recipient, t', b).result != Err(Panicked))
    {
      TransferOutNoPanic(w, recipient, t, a);
      var t1 := TransferOut(w, recipient, t, a);
      if t1.result.Ok? {
        TransferOutMoves(w, recipient, t, a, t');
        forall b: u128
          ensures TransferOut(t1.world, recipient, t', b).result != Err(Panicked)
        {
          TransferOutNoPanic(t1.world, recipient, t', b);
        }
      }
    }
  }

  lemma PayoutNoPanic(w: World, recipient: Address, t: H256)
    requires recipient != ZERO_ADDRESS && Holdings(w, t) <= U128_MAX
    ensures forall a: u128 :: TransferOut(w, recipient, t, a).result != Err(Panicked)
  {
    forall a: u128 ensures TransferOut(w, recipient, t, a).result != Err(Panicked) {
      TransferOutNoPanic(w, recipient, t, a);
    }
  }

  lemma SwapNoPanic(w: World, sender: Address, id: H256, tokenIn: H256, amount: u128, minOut: u128)
    requires Inv(w) && sender != ZERO_ADDRESS
    ensures Swap(w, sender, id, tokenIn, amount, minOut).result != Err(Panicked)
  {
    if id in w.pools {
      var p := w.pools[id];
      var tokenOut := if tokenIn == p.tokenA then p.tokenB else p.tokenA;
      assert Solvent(w, tokenIn) && Solvent(w, tokenOut);
      InThenOutNoPanic(w, sender, tokenIn, amount, tokenOut);
    }
  }

  lemma InThenOutNoPanic(w: World, sender: Address, tokenIn: H256, amount: u128, tokenOut: H256)
    requires sender != ZERO_ADDRESS && Holdings(w, tokenIn) <= U128_MAX && Holdings(w, tokenOut) <= U128_MAX
    ensures var t1 := TransferIn(w, sender, tokenIn, amount);
            && t1.result != Err(Panicked)
            && (t1.result.Ok? ==> forall a: u128 :: TransferOut(t1.world, sender, tokenOut, a).result != Err(Panicked))
  {
    TransferInNoPanic(w, sender, tokenIn, amount);
    var t1 := TransferIn(w, sender, tokenIn, amount);
    if t1.result.Ok? {
      TransferInMoves(w, sender, tokenIn, amount, tokenOut);
      PayoutNoPanic(t1.world, sender, tokenOut);
    }
  }

  lemma ClaimNoPanic(w: World, sender: Address, id: H256, treasury: Address)
    requires Inv(w) && sender != ZERO_ADDRESS
    ensures ClaimProtocolFees(w, sender, id, treasury).result != Err(Panicked)
  {
    if id in w.pools && sender == treasury {
      var p := w.pools[id];
      assert Solvent(w, p.tokenA) && Solvent(w, p.tokenB);
      TwoPayoutsNoPanic(w, treasury, p.tokenA, p.tokenB);
      TwoPayoutsNoPanic(w, treasury, p.tokenB, p.tokenA);
    }
  }

  lemma CreateNoPanic(h: Hasher, w: World, sender: Address, ta: H256, tb: H256, a: u128, b: u128, epoch: nat)
    requires Inv(w) && sender != ZERO_ADDRESS
    ensures CreatePool(h, w, sender, ta, tb, a, b, epoch).result != Err(Panicked)
  {
    assert Solvent(w, ta) && Solvent(w, tb);
    TransferInNoPanic(w, sender, ta, a);
    var t1 := TransferIn(w, sender, ta, a);
    if t1.result.Ok? {
      TransferInMoves(w, sender, ta, a, tb);
      TransferInNoPanic(t1.world, sender, tb, b);
      var t2 := TransferIn(t1.world, sender, tb, b);
      if t2.result.Ok? {
        var lpId := h.lp(ComputePoolId(h, ta, tb));
        assert Solvent(w, lpId);
        TransferInMoves(w, sender, ta, a, lpId);
        TransferInMoves(t1.world, sender, tb, b, lpId);
        OpenNoPanic(h, t2.world, sender, ta, tb, a, b, epoch);
      }
    }
  }

  lemma OpenNoPanic(h: Hasher, w: World, sender: Address, ta: H256, tb: H256, a: u128, b: u128, epoch: nat)
    requires var lpId := h.lp(ComputePoolId(h, ta, tb)); lpId !in w.assets ==> Holdings(w, lpId) == 0
    ensures OpenPool(h, w, sender, ta, tb, a, b, epoch).result != Err(Panicked)
  {
    var lpId := h.lp(ComputePoolId(h, ta, tb));
    SqrtFits(a, b);
    if lpId !in w.assets && SqrtSpec(a * b) > MINIMUM_LIQUIDITY {
      var w1 := RegisterLp(w, lpId).world;
      assert Holdings(w1, lpId) == Holdings(w, lpId);
      CreditAccepted(w1, lpId, sender, SqrtSpec(a * b) - MINIMUM_LIQUIDITY);
    }
  }

  /** After any signed run, no further signed operation aborts the node: every `expect` on an
      Amount that the exchange can reach holds. */
  lemma RunNeverPanics(h: Hasher, w: World, ops: seq<Op>, op: Op)
    requires Inv(w) && Signed(ops) && op.sender != ZERO_ADDRESS
    ensures Apply(h, Run(h, w, ops), op).result != Err(Panicked)
  {
    RunGood(h, w, ops);
    var v := Run(h, w, ops);
    match op
    case OpCreate(s, ta, tb, a, b, e) => CreateNoPanic(h, v, s, ta, tb, a, b, e);
    case OpAdd(s, id, a, b, m) => AddNoPanic(v, s, id, a, b, m);
    case OpRemove(s, id, lp, ma, mb) => RemoveNoPanic(v, s, id, lp, ma, mb);
    case OpSwap(s, id, t, a, m) => SwapNoPanic(v, s, id, t, a, m);
    case OpClaim(s, id, t) => ClaimNoPanic(v, s, id, t);
  }

  // ----- shares can always be redeemed

  ghost predicate Tradeable(w: World, t: H256) {
    t == NATIVE_VTT || (t in w.assets && w.assets[t])
  }

  lemma TransferOutPays(w: World, recipient: Address, t: H256, amount: u128)
    requires Solvent(w, t) && Tradeable(w, t) && amount <= Owed(w, t)
    ensures TransferOut(w, recipient, t, amount).result.Ok?
  {
    if t == NATIVE_VTT {
      SetBalanceTotals(w, recipient, 0);
    } else if amount != 0 {
      var o := w.Owned(t, ZERO_ADDRESS);
      assert amount <= o.available;
      AssetCreditAccepted(w, Debit(w, t, ZERO_ADDRESS, amount, InsufficientLiquidity).world, t, ZERO_ADDRESS, recipient,
                          amount, InsufficientLiquidity);
    }
  }

  lemma ShareFits(p: PoolState, lp: u128)
    requires Collateralised(p) && lp <= p.lpTotalSupply
    ensures var a, b := lp * p.reserveA / p.lpTotalSupply, lp * p.reserveB / p.lpTotalSupply;
            && 0 <= a <= p.reserveA && 0 <= b <= p.reserveB
            && Quotient(lp * p.reserveA, p.lpTotalSupply) == Ok(a)
            && Quotient(lp * p.reserveB, p.lpTotalSupply) == Ok(b)
  {
    BurnIsProportional(p.reserveA, p.lpTotalSupply, lp, lp * p.reserveA / p.lpTotalSupply);
    BurnIsProportional(p.reserveB, p.lpTotalSupply, lp, lp * p.reserveB / p.lpTotalSupply);
  }

  lemma PayoutsAccepted(w: World, w1: World, sender: Address, p: PoolState, a: u128, b: u128, lp: u128)
    requires Inv(w) && p.poolId in w.pools && w.pools[p.poolId] == p && sender != ZERO_ADDRESS
    requires Tradeable(w, p.tokenA) && Tradeable(w, p.tokenB) && a <= p.reserveA && b <= p.reserveB
    requires Debit(w, p.lpTokenId, sender, lp, InsufficientBalance) == Done(w1, Moved)
    ensures var t1 := TransferOut(w1, sender, p.tokenA, a);
            t1.result.Ok? && TransferOut(t1.world, sender, p.tokenB, b).result.Ok?
  {
    assert Solvent(w, p.tokenA) && Solvent(w, p.tokenB);
    DebitBurns(w, p.lpTokenId, sender, lp, InsufficientBalance, p.tokenA);
    DebitBurns(w, p.lpTokenId, sender, lp, InsufficientBalance, p.tokenB);
    ReserveOwed(w1, p.poolId, p.tokenA);
    ReserveOwed(w1, p.poolId, p.tokenB);
    TransferOutPays(w1, sender, p.tokenA, a);
    TransferOutMoves(w1, sender, p.tokenA, a, p.tokenB);
    TransferOutPays(TransferOut(w1, sender, p.tokenA, a).world, sender, p.tokenB, b);
  }

  /** In every reachable state a holder of shares can withdraw them: with the exchange open,
      both tokens tradeable and no minimum demanded, removal cannot fail. */
  lemma SharesRedeemable(w: World, sender: Address, id: H256, lp: u128)
    requires Inv(w) && sender != ZERO_ADDRESS && !w.dexPaused && id in w.pools
    requires Tradeable(w, w.pools[id].tokenA) && Tradeable(w, w.pools[id].tokenB)
    requires 0 < lp <= w.Owned(w.pools[id].lpTokenId, sender).available
    ensures RemoveLiquidity(w, sender, id, lp, 0, 0).result.Ok?
  {
    var p := w.pools[id];
    OwnedCovered(w, p.lpTokenId, sender);
    ShareFits(p, lp);
    var w1 := Debit(w, p.lpTokenId, sender, lp, InsufficientBalance).world;
    PayoutsAccepted(w, w1, sender, p, lp * p.reserveA / p.lpTotalSupply, lp * p.reserveB / p.lpTotalSupply, lp);
  }

  // ----- why senders must not be the pool account

  lemma PoolAccountDeposit(w: World, t: H256, amount: u128, u: H256)
    requires TransferIn(w, ZERO_ADDRESS, t, amount).result.Ok? && u != NATIVE_VTT
    ensures var w' := TransferIn(w, ZERO_ADDRESS, t, amount).world; SameBooks(w, w') && Custody(w', u) == Custody(w, u)
  {
    if t != NATIVE_VTT && amount != 0 {
      var o := w.Owned(t, ZERO_ADDRESS);
      var o1 := Ownership(o.available - amount, o.locked);
      var w1 := SetOwned(w, t, ZERO_ADDRESS, o1);
      assert Debit(w, t, ZERO_ADDRESS, amount, InsufficientBalance).world == w1;
      SetOwnedLookup(w, t, ZERO_ADDRESS, o1, t, ZERO_ADDRESS);
      assert TransferIn(w, ZERO_ADDRESS, t, amount).world == SetOwned(w1, t, ZERO_ADDRESS, o);
      SetOwnedMoves(w, t, ZERO_ADDRESS, o1, u);
      SetOwnedMoves(w1, t, ZERO_ADDRESS, o, u);
    }
  }

  lemma PoolAccountMint(w: World, t: H256, amount: u128, u: H256)
    requires Credit(w, t, ZERO_ADDRESS, amount).result.Ok? && u != t
    ensures var w' := Credit(w, t, ZERO_ADDRESS, amount).world; SameBooks(w, w') && Custody(w', u) == Custody(w, u)
  {
    var o := w.Owned(t, ZERO_ADDRESS);
    var o' := Ownership(o.available + amount, o.locked);
    assert Credit(w, t, ZERO_ADDRESS, amount).world == SetOwned(w, t, ZERO_ADDRESS, o');
    SetOwnedMoves(w, t, ZERO_ADDRESS, o', u);
  }

  /** Were the pool account itself to deposit an asset, nothing would move while the reserve is
      rewritten: custody of that asset changes. */
  lemma PoolAccountGains(w: World, id: H256, amountA: u128, amountB: u128, minLp: u128, t: H256)
    requires Inv(w) && AddLiquidity(w, ZERO_ADDRESS, id, amountA, amountB, minLp).result.Ok?
    requires id in w.pools && t != NATIVE_VTT && t != w.pools[id].lpTokenId
    requires t == w.pools[id].tokenA || t == w.pools[id].tokenB
    ensures Custody(AddLiquidity(w, ZERO_ADDRESS, id, amountA, amountB, minLp).world, t) != Custody(w, t)
  {
    var w1, w2, wn, a, b, lp := AddTrace(w, ZERO_ADDRESS, id, amountA, amountB, minLp);
    var p := w.pools[id];
    PoolAccountDeposit(w, p.tokenA, a, t);
    PoolAccountDeposit(w1, p.tokenB, b, t);
    PoolAccountMint(w2, p.lpTokenId, lp, t);
    var p' := Deposited(p, a, b, lp);
    SetPoolTotals(wn, p', t);
    assert SetPool(wn, p').Owned(t, ZERO_ADDRESS) == wn.Owned(t, ZERO_ADDRESS);
    DepositPositive(w, id, amountA, amountB, minLp);
    assert Claim(p', t) != Claim(p, t);
  }

  lemma DepositPositive(w: World, id: H256, amountA: u128, amountB: u128, minLp: u128)
    requires AddLiquidity(w, ZERO_ADDRESS, id, amountA, amountB, minLp).result.Ok?
    ensures id in w.pools && ActualDeposit(w.pools[id], amountA, amountB).Ok?
    ensures 0 < ActualDeposit(w.pools[id], amountA, amountB).value.0
    ensures 0 < ActualDeposit(w.pools[id], amountA, amountB).value.1
  {
  }

  /** A deposit into a pool that does not trade its own shares keeps custody of every token exactly
      when the sender is not the pool account. */
  lemma DepositKeepsCustodyIff(w: World, sender: Address, id: H256, amountA: u128, amountB: u128, minLp: u128)
    requires Inv(w) && AddLiquidity(w, sender, id, amountA, amountB, minLp).result.Ok?
    requires id in w.pools && w.pools[id].lpTokenId != w.pools[id].tokenA && w.pools[id].lpTokenId != w.pools[id].tokenB
    ensures (forall t: H256 :: Custody(AddLiquidity(w, sender, id, amountA, amountB, minLp).world, t) == Custody(w, t))
       <==> sender != ZERO_ADDRESS
  {
    if sender != ZERO_ADDRESS {
      AddStep(w, sender, id, amountA, amountB, minLp);
    } else {
      var p := w.pools[id];
      assert Collateralised(p);
      PoolAccountGains(w, id, amountA, amountB, minLp, if p.tokenA != NATIVE_VTT then p.tokenA else p.tokenB);
    }
  }
}
