/** Totals over the ledger, and what each token movement does to them. */
module DexLedger {
  import opened Primitives
  import opened MapSums
  import Accounts
  import opened DexTypes
  import opened DexModel

  /** All units of `t` in anybody's hands, locked ones included. */
  ghost function Holdings(w: World, t: H256): nat {
    Sum(w.ownership, HoldWeight(t))
  }

  ghost function HoldWeightOf(t: H256, k: (H256, Address), o: Ownership): nat {
    if k.0 == t then o.available + o.locked else 0
  }

  ghost function HoldWeight(t: H256): ((H256, Address), Ownership) -> nat {
    (k: (H256, Address), o: Ownership) => HoldWeightOf(t, k, o)
  }

  ghost function Balances(w: World): nat {
    Accounts.TotalOf(w.balances)
  }

  /** What a pool owes in token `t`: its reserve and its unclaimed protocol fees. */
  ghost function Claim(p: PoolState, t: H256): nat {
    (if p.tokenA == t then p.reserveA + p.protocolFeesA else 0)
    + (if p.tokenB == t then p.reserveB + p.protocolFeesB else 0)
  }

  ghost function ClaimOf(w: World, id: H256, t: H256): nat {
    if id in w.pools then Claim(w.pools[id], t) else 0
  }

  ghost function ClaimWeight(t: H256): (H256, PoolState) -> nat {
    (id: H256, p: PoolState) => Claim(p, t)
  }

  ghost function Owed(w: World, t: H256): nat {
    Sum(w.pools, ClaimWeight(t))
  }

  /** What the pool account holds beyond what the pools owe; for native VTT, which leaves
      the balances altogether, minus the total of balances and debts. */
  ghost function Custody(w: World, t: H256): int {
    if t == NATIVE_VTT then Balances(w) + Owed(w, t)
    else w.Owned(t, ZERO_ADDRESS).available - Owed(w, t)
  }

  // ----- single writes

  lemma OwnedCovered(w: World, t: H256, a: Address)
    ensures w.Owned(t, a).available + w.Owned(t, a).locked <= Holdings(w, t)
  {
    SumElement(w.ownership, HoldWeight(t), (t, a));
  }

  lemma SetOwnedHoldings(w: World, t: H256, a: Address, o: Ownership, u: H256)
    ensures Holdings(SetOwned(w, t, a, o), u)
         == Holdings(w, u) + (if u == t then o.available + o.locked - w.Owned(t, a).available - w.Owned(t, a).locked else 0)
  {
    SumSet(w.ownership, HoldWeight(u), (t, a), if u == t then w.Owned(t, a).available + w.Owned(t, a).locked else 0, o);
  }

  lemma SetOwnedLookup(w: World, t: H256, a: Address, o: Ownership, u: H256, b: Address)
    ensures SetOwned(w, t, a, o).Owned(u, b) == if u == t && b == a then o else w.Owned(u, b)
  {
  }

  lemma SetBalanceTotals(w: World, a: Address, v: u128)
    ensures Balances(SetBalance(w, a, v)) == Balances(w) - w.Balance(a) + v
    ensures w.Balance(a) <= Balances(w)
  {
    Accounts.TotalSet(w.balances, a, v);
  }

  lemma SetPoolTotals(w: World, p: PoolState, u: H256)
    ensures Owed(SetPool(w, p), u) == Owed(w, u) - ClaimOf(w, p.poolId, u) + Claim(p, u)
    ensures ClaimOf(w, p.poolId, u) <= Owed(w, u)
  {
    SumSet(w.pools, ClaimWeight(u), p.poolId, ClaimOf(w, p.poolId, u), p);
  }

  // ----- token movements

  /** Everything a movement of tokens leaves alone. */
  ghost predicate SameBooks(w: World, w': World) {
    w'.pools == w.pools && w'.assets == w.assets && w'.dexPaused == w.dexPaused
  }

  /** What `d` units of `t` entering the pools' hands do to the custody figure of `u`. */
  ghost function Inward(u: H256, t: H256, d: int): int {
    if u != t then 0 else if t == NATIVE_VTT then -d else d
  }

  /** A movement of `d` units of `t` into the pools' custody (out of it, if negative). */
  ghost predicate MovesIn(w: World, w': World, t: H256, d: int, u: H256) {
    && SameBooks(w, w')
    && Holdings(w', u) == Holdings(w, u)
    && Custody(w', u) == Custody(w, u) + Inward(u, t, d)
  }

  lemma SetOwnedMoves(w: World, t: H256, a: Address, o: Ownership, u: H256)
    ensures SameBooks(w, SetOwned(w, t, a, o))
    ensures Custody(SetOwned(w, t, a, o), u) == Custody(w, u)
         + (if u == t && a == ZERO_ADDRESS && t != NATIVE_VTT then o.available - w.Owned(t, a).available else 0)
  {
    SetOwnedLookup(w, t, a, o, u, ZERO_ADDRESS);
  }

  lemma TransferAssetMoves(w: World, t: H256, from: Address, to: Address, amount: u128, e: DexError, u: H256)
    requires t != NATIVE_VTT && from != to && TransferAsset(w, t, from, to, amount, e).result.Ok?
    ensures var w' := TransferAsset(w, t, from, to, amount, e).world;
            && SameBooks(w, w') && Holdings(w', u) == Holdings(w, u)
            && Custody(w', u) == Custody(w, u) + (if u == t && to == ZERO_ADDRESS then amount else 0)
                                               - (if u == t && from == ZERO_ADDRESS then amount else 0)
  {
    if amount != 0 {
      var o := w.Owned(t, from);
      var o' := Ownership(o.available - amount, o.locked);
      var w1 := SetOwned(w, t, from, o');
      assert Debit(w, t, from, amount, e).world == w1;
      SetOwnedLookup(w, t, from, o', t, to);
      var q := w.Owned(t, to);
      var q' := Ownership(q.available + amount, q.locked);
      assert TransferAsset(w, t, from, to, amount, e).world == SetOwned(w1, t, to, q');
      SetOwnedMoves(w, t, from, o', u);
      SetOwnedMoves(w1, t, to, q', u);
      SetOwnedHoldings(w, t, from, o', u);
      SetOwnedHoldings(w1, t, to, q', u);
    }
  }

  lemma TransferInMoves(w: World, sender: Address, t: H256, amount: u128, u: H256)
    requires sender != ZERO_ADDRESS && TransferIn(w, sender, t, amount).result.Ok?
    ensures MovesIn(w, TransferIn(w, sender, t, amount).world, t, amount, u)
  {
    if t == NATIVE_VTT {
      SetBalanceTotals(w, sender, w.Balance(sender) - amount);
    } else {
      TransferAssetMoves(w, t, sender, ZERO_ADDRESS, amount, InsufficientBalance, u);
    }
  }

  lemma TransferOutMoves(w: World, recipient: Address, t: H256, amount: u128, u: H256)
    requires recipient != ZERO_ADDRESS && TransferOut(w, recipient, t, amount).result.Ok?
    ensures MovesIn(w, TransferOut(w, recipient, t, amount).world, t, -(amount as int), u)
  {
    if t == NATIVE_VTT {
      SetBalanceTotals(w, recipient, w.Balance(recipient) + amount);
    } else {
      TransferAssetMoves(w, t, ZERO_ADDRESS, recipient, amount, InsufficientLiquidity, u);
    }
  }

  /** Crediting or debiting shares changes the holdings of that share token only. */
  lemma CreditMints(w: World, t: H256, a: Address, amount: u128, u: H256)
    requires a != ZERO_ADDRESS && Credit(w, t, a, amount).result.Ok?
    ensures var w' := Credit(w, t, a, amount).world;
            && SameBooks(w, w') && Custody(w', u) == Custody(w, u)
            && Holdings(w', u) == Holdings(w, u) + (if u == t then amount else 0)
  {
    var o := w.Owned(t, a);
    var o' := Ownership(o.available + amount, o.locked);
    assert Credit(w, t, a, amount).world == SetOwned(w, t, a, o');
    SetOwnedMoves(w, t, a, o', u);
    SetOwnedHoldings(w, t, a, o', u);
  }

  lemma DebitBurns(w: World, t: H256, a: Address, amount: u128, e: DexError, u: H256)
    requires a != ZERO_ADDRESS && Debit(w, t, a, amount, e).result.Ok?
    ensures var w' := Debit(w, t, a, amount, e).world;
            && SameBooks(w, w') && Custody(w', u) == Custody(w, u)
            && Holdings(w', u) == Holdings(w, u) - (if u == t then amount else 0)
  {
    var o := w.Owned(t, a);
    var o' := Ownership(o.available - amount, o.locked);
    assert Debit(w, t, a, amount, e).world == SetOwned(w, t, a, o');
    SetOwnedMoves(w, t, a, o', u);
    SetOwnedHoldings(w, t, a, o', u);
  }

  lemma DebitCovered(w: World, t: H256, a: Address, amount: u128, e: DexError)
    requires Debit(w, t, a, amount, e).result.Ok?
    ensures amount <= Holdings(w, t)
  {
    OwnedCovered(w, t, a);
  }
}
