/** Revenue distribution: an issuer's VTT is split among the holders of an asset by floored
    shares, and the rounding remainder goes back to the issuer. */
module Revenue {
  import opened Primitives
  import opened Nonlinear
  import opened Accounts

  // ----- mul_div

  /** `a * b / c` without a wide product. Release-mode products and sums wrap. */
  function MulDiv(a: u128, b: u128, c: u128): u128
    requires 0 < c
  {
    MulMono2(0, a, 0, b);
    MulMono2(0, a % c, 0, b);
    if a * b <= U128_MAX then Quot(a * b, c)
    else
      var q1: u128 := a / c * b % TWO128;
      var r1 := a % c;
      var q2: u128 := if r1 * b <= U128_MAX then Quot(r1 * b, c)
                      else (r1 / c * b + r1 % c * (b / c)) % TWO128;
      WrapAdd(q1, q2)
  }

  function Quot(n: u128, c: u128): u128
    requires 0 < c
  {
    DivLe(n, c, U128_MAX);
    MulMono(1, c, U128_MAX + 1);
    DivBounds(n, c);
    n / c
  }

  /** Splitting `a` at a multiple of `c` splits the quotient exactly. */
  lemma QuotientSplit(a: int, b: int, c: int)
    requires 0 <= a && 0 <= b && 0 < c
    ensures a * b / c == a / c * b + a % c * b / c
    ensures 0 <= a / c * b && 0 <= a % c * b / c
  {
    DivBounds(a, c);
    var q, r := a / c, a % c;
    MulMono2(0, r, 0, b);
    MulMono2(0, q, 0, b);
    DivBounds(r * b, c);
    assert a * b == (q * b) * c + r * b;
    DivUnique(a * b, c, q * b + r * b / c);
  }

  /** The same split of `b`: what the last branch keeps and what it drops. */
  lemma RemainderSplit(r: int, b: int, c: int)
    requires 0 <= r < c && 0 <= b
    ensures r * b / c == r * (b / c) + r * (b % c) / c
    ensures 0 <= r * (b / c) && 0 <= r * (b % c) / c
    ensures r * (b % c) / c == 0 <==> r * (b % c) < c
    ensures r * (b / c) <= b
  {
    var q, m := b / c, b % c;
    QuotientSplit(b, r, c);
    MulSwap(q, r);
    MulSwap(m, r);
    MulSwap(b, r);
    DivBounds(b, c);
    KeptWithin(r, b, c, q, m);
  }

  lemma KeptWithin(r: int, b: int, c: int, q: int, m: int)
    requires 0 <= r < c && 0 <= q && 0 <= m && b == q * c + m
    ensures r * m / c == 0 <==> r * m < c
    ensures r * q <= b
  {
    MulMono2(0, r, 0, m);
    DivLe(r * m, c, 0);
    DivGe(r * m, c, 0);
    MulMono(r, c, q);
    MulSwap(q, c);
  }

  /** The result never exceeds the true quotient, and equals it exactly when that fits in u128 and
      a product fits along the way or the dropped part is below one unit. */
  lemma MulDivExactIff(a: u128, b: u128, c: u128)
    requires 0 < c
    ensures MulDiv(a, b, c) <= a * b / c
    ensures MulDiv(a, b, c) == a * b / c
       <==> a * b / c <= U128_MAX && (a * b <= U128_MAX || a % c * b <= U128_MAX || a % c * (b % c) < c)
  {
    if a * b / c <= U128_MAX {
      MulDivFittingIff(a, b, c);
    }
  }

  lemma MulDivFittingIff(a: u128, b: u128, c: u128)
    requires 0 < c && a * b / c <= U128_MAX
    ensures MulDiv(a, b, c) <= a * b / c
    ensures MulDiv(a, b, c) == a * b / c
       <==> a * b <= U128_MAX || a % c * b <= U128_MAX || a % c * (b % c) < c
  {
    QuotientSplit(a, b, c);
    DivBounds(a, c);
    var r := a % c;
    RemainderSplit(r, b, c);
    DivUnique(r, c, 0);
    if a * b > U128_MAX {
      DivUnique(a / c * b, TWO128, 0);
      assert r / c * b == 0 by { assert r / c == 0; }
      DivUnique(r * (b / c), TWO128, 0);
    }
  }

  /** A holder of at most the whole supply is paid at most the floored share. */
  lemma MulDivWithinShare(a: u128, b: u128, c: u128)
    requires 0 < c && a <= c
    ensures a * b / c <= b && MulDiv(a, b, c) <= a * b / c
  {
    MulMono2(0, a, 0, b);
    MulMono(a, c, b);
    DivLe(a * b, c, b);
    assert (b + 1) * c == c * b + c;
    MulDivExactIff(a, b, c);
  }

  // ----- distribution

  type Holder = (Address, u128)

  datatype Asset = Asset(issuer: Address, supply: u128)

  datatype ExecError =
    | AmountIsZero
    | AssetNotFound
    | NotIssuer
    | ZeroSupply
    | NoHolders
    | InsufficientBalance
    | BalanceOverflow
    | Panicked

  ghost function Held(hs: seq<Holder>): nat {
    if hs == [] then 0 else Held(hs[..|hs| - 1]) + hs[|hs| - 1].1
  }

  /** The sum of all floored shares. */
  ghost function Shares(hs: seq<Holder>, total: u128, supply: u128): nat
    requires 0 < supply
  {
    if hs == [] then 0 else Shares(hs[..|hs| - 1], total, supply) + MulDiv(hs[|hs| - 1].1, total, supply)
  }

  /** The shares that go to address `x`. */
  ghost function SharesOf(hs: seq<Holder>, x: Address, total: u128, supply: u128): nat
    requires 0 < supply
  {
    if hs == [] then 0
    else SharesOf(hs[..|hs| - 1], x, total, supply)
         + (if hs[|hs| - 1].0 == x then MulDiv(hs[|hs| - 1].1, total, supply) else 0)
  }

  /** Holders of at most the supply never get more than is distributed: each floored share is
      at most its exact fraction, and the fractions add up to at most one. */
  lemma {:induction false} SharesWithinTotal(hs: seq<Holder>, total: u128, supply: u128)
    requires 0 < supply && Held(hs) <= supply
    ensures Shares(hs, total, supply) * supply <= Held(hs) * total
    ensures Shares(hs, total, supply) <= total
    decreases |hs|
  {
    if hs != [] {
      var h := hs[|hs| - 1];
      SharesWithinTotal(hs[..|hs| - 1], total, supply);
      OneShare(h.1, total, supply);
      AddShare(Shares(hs[..|hs| - 1], total, supply), MulDiv(h.1, total, supply), Held(hs[..|hs| - 1]), h.1, total, supply);
    }
    MulMono(Held(hs), supply, total);
    MulCancel(Shares(hs, total, supply), total, supply);
  }

  lemma AddShare(shares: int, share: int, held: int, more: int, total: int, supply: int)
    requires shares * supply <= held * total && share * supply <= more * total
    ensures (shares + share) * supply <= (held + more) * total
  {
    assert (held + more) * total == held * total + more * total;
    assert (shares + share) * supply == shares * supply + share * supply;
  }

  lemma OneShare(a: u128, total: u128, supply: u128)
    requires 0 < supply && a <= supply
    ensures MulDiv(a, total, supply) * supply <= a * total
  {
    MulDivWithinShare(a, total, supply);
    MulMono2(0, a, 0, total);
    DivBounds(a * total, supply);
    MulMono(MulDiv(a, total, supply), a * total / supply, supply);
  }

  lemma {:induction false} SharesOfBound(hs: seq<Holder>, x: Address, total: u128, supply: u128)
    requires 0 < supply
    ensures SharesOf(hs, x, total, supply) <= Shares(hs, total, supply)
    decreases |hs|
  {
    if hs != [] {
      SharesOfBound(hs[..|hs| - 1], x, total, supply);
    }
  }

  /** Who ends up with what: the issuer is down the whole amount and up the remainder, and
      everyone is up their shares. */
  ghost predicate Distributed(b: Balances, b': Balances, sender: Address, hs: seq<Holder>, total: u128, supply: u128, refund: nat)
    requires 0 < supply
  {
    && (forall x: Address :: BalanceOf(b', x)
          == BalanceOf(b, x) + SharesOf(hs, x, total, supply) + (if x == sender then refund - total else 0))
    && TotalOf(b') == TotalOf(b) + Shares(hs, total, supply) + refund - total
  }

  /** `b` has become `b'` by paying the shares of `hs`. */
  ghost predicate Paid(b: Balances, b': Balances, hs: seq<Holder>, total: u128, supply: u128)
    requires 0 < supply
  {
    && (forall x: Address :: BalanceOf(b', x) == BalanceOf(b, x) + SharesOf(hs, x, total, supply))
    && TotalOf(b') == TotalOf(b) + Shares(hs, total, supply)
  }

  lemma PaidOne(b: Balances, b': Balances, hs: seq<Holder>, total: u128, supply: u128)
    requires 0 < supply && hs != [] && Paid(b, b', hs[..|hs| - 1], total, supply)
    ensures var (a, lp) := hs[|hs| - 1];
            var share := MulDiv(lp, total, supply);
            BalanceOf(b', a) + share <= U128_MAX ==> Paid(b, b'[a := BalanceOf(b', a) + share], hs, total, supply)
  {
    var (a, lp) := hs[|hs| - 1];
    var share := MulDiv(lp, total, supply);
    if BalanceOf(b', a) + share <= U128_MAX {
      TotalSet(b', a, BalanceOf(b', a) + share);
    }
  }

  /** Debited and paid. */
  lemma DebitedAndPaid(b: Balances, b': Balances, sender: Address, hs: seq<Holder>, total: u128, supply: u128)
    requires 0 < supply && total <= BalanceOf(b, sender) && Paid(b[sender := BalanceOf(b, sender) - total], b', hs, total, supply)
    ensures Distributed(b, b', sender, hs, total, supply, 0)
  {
    TotalSet(b, sender, BalanceOf(b, sender) - total);
  }

  /** And refunded. */
  lemma Refunded(b: Balances, b': Balances, sender: Address, hs: seq<Holder>, total: u128, supply: u128, refund: u128)
    requires 0 < supply && Distributed(b, b', sender, hs, total, supply, 0) && BalanceOf(b', sender) + refund <= U128_MAX
    ensures Distributed(b, b'[sender := BalanceOf(b', sender) + refund], sender, hs, total, supply, refund)
  {
    TotalSet(b', sender, BalanceOf(b', sender) + refund);
  }

  class Executor {
    var balances: Balances

    method AddBalance(a: Address, amount: u128) returns (ok: bool)
      modifies this
      ensures ok <==> BalanceOf(old(balances), a) + amount <= U128_MAX
      ensures ok ==> balances == old(balances)[a := BalanceOf(old(balances), a) + amount]
      ensures !ok ==> balances == old(balances)
    {
      var balance := BalanceOf(balances, a);
      ok := balance + amount <= U128_MAX;
      if ok {
        balances := balances[a := balance + amount];
      }
    }

    /** The payout loop. */
    method PayHolders(hs: seq<Holder>, total: u128, supply: u128) returns (r: Result<u128, ExecError>)
      requires 0 < supply
      modifies this
      ensures r.Ok? ==> r.value == Shares(hs, total, supply) && Paid(old(balances), balances, hs, total, supply)
      ensures TotalOf(old(balances)) + Shares(hs, total, supply) <= U128_MAX ==> r.Ok?
    {
      var distributed: u128 := 0;
      ghost var b0 := balances;
      for i := 0 to |hs|
        invariant distributed == Shares(hs[..i], total, supply) && Paid(b0, balances, hs[..i], total, supply)
      {
        assert hs[..i + 1][..i] == hs[..i];
        var share := MulDiv(hs[i].1, total, supply);
        SharesGrow(hs, i + 1, total, supply);
        if share > 0 {
          BalanceCounted(balances, hs[i].0);
          PaidOne(b0, balances, hs[..i + 1], total, supply);
          var ok := AddBalance(hs[i].0, share);
          if !ok {
            return Err(BalanceOverflow);
          }
          if distributed + share > U128_MAX {
            return Err(Panicked);
          }
          distributed := distributed + share;
        }
      }
      assert hs[..|hs|] == hs;
      return Ok(distributed);
    }

    /** The whole action. Remainder goes back only when there is one; if shares exceeded the
        amount there would be none and VTT would have been created. */
    method DistributeRevenue(sender: Address, asset: Option<Asset>, records: seq<Holder>, total: u128)
      returns (r: Result<u128, ExecError>)
      modifies this
      ensures r.Ok? ==>
                && asset.Some? && 0 < asset.value.supply && asset.value.issuer == sender
                && r.value == Shares(Positive(records), total, asset.value.supply)
                && Distributed(old(balances), balances, sender, Positive(records), total, asset.value.supply,
                               if r.value <= total then total - r.value else 0)
      ensures r.Ok? ==> (TotalOf(balances) == TotalOf(old(balances)) <==> r.value <= total)
      ensures r.Ok? && Held(Positive(records)) <= asset.value.supply ==> r.value <= total
      ensures total > 0 && asset.Some? && asset.value.issuer == sender && 0 < asset.value.supply
              && Positive(records) != [] && total <= BalanceOf(old(balances), sender)
              && Held(Positive(records)) <= asset.value.supply && TotalOf(old(balances)) <= U128_MAX
              ==> r.Ok?
    {
      if total == 0 {
        return Err(AmountIsZero);
      }
      if asset.None? {
        return Err(AssetNotFound);
      }
      if asset.value.issuer != sender {
        return Err(NotIssuer);
      }
      var supply := asset.value.supply;
      if supply == 0 {
        return Err(ZeroSupply);
      }
      var hs := Positive(records);
      if hs == [] {
        return Err(NoHolders);
      }
      r := Settle(sender, hs, total, supply);
    }

    /** Debit, payout and refund. */
    method Settle(sender: Address, hs: seq<Holder>, total: u128, supply: u128) returns (r: Result<u128, ExecError>)
      requires 0 < supply
      modifies this
      ensures r.Ok? ==> r.value == Shares(hs, total, supply)
      ensures r.Ok? ==> Distributed(old(balances), balances, sender, hs, total, supply,
                                    if r.value <= total then total - r.value else 0)
      ensures r.Ok? && Held(hs) <= supply ==> r.value <= total
      ensures total <= BalanceOf(old(balances), sender) && Held(hs) <= supply && TotalOf(old(balances)) <= U128_MAX ==> r.Ok?
    {
      var balance := BalanceOf(balances, sender);
      if balance < total {
        return Err(InsufficientBalance);
      }
      TotalSet(balances, sender, BalanceOf(balances, sender) - total);
      ghost var b0 := balances;
      balances := balances[sender := balance - total];
      if Held(hs) <= supply {
        SharesWithinTotal(hs, total, supply);
      }
      r := PayHolders(hs, total, supply);
      if r.Err? {
        return;
      }
      BalanceCounted(balances, sender);
      DebitedAndPaid(b0, balances, sender, hs, total, supply);
      ghost var b2 := balances;
      if r.value < total {
        var ok := AddBalance(sender, total - r.value);
        if !ok {
          return Err(BalanceOverflow);
        }
        Refunded(b0, b2, sender, hs, total, supply, total - r.value);
      }
    }
  }

  // ----- replicas agree

  lemma {:induction false} SharesOfAppend(a: seq<Holder>, b: seq<Holder>, x: Address, total: u128, supply: u128)
    requires 0 < supply
    ensures SharesOf(a + b, x, total, supply) == SharesOf(a, x, total, supply) + SharesOf(b, x, total, supply)
    decreases |b|
  {
    if b == [] {
      assert a + b == a;
    } else {
      SharesOfAppend(a, b[..|b| - 1], x, total, supply);
      assert (a + b)[..|a + b| - 1] == a + b[..|b| - 1];
    }
  }

  /** What anyone receives does not depend on the order in which a node happens to visit the
      holders. */
  lemma {:induction false} OrderIrrelevant(hs: seq<Holder>, gs: seq<Holder>, x: Address, total: u128, supply: u128)
    requires 0 < supply && multiset(hs) == multiset(gs)
    ensures SharesOf(hs, x, total, supply) == SharesOf(gs, x, total, supply)
    decreases |hs|
  {
    if hs == [] {
      assert |multiset(gs)| == 0;
    } else {
      var h, rest := hs[|hs| - 1], hs[..|hs| - 1];
      assert hs == rest + [h];
      assert h in multiset(gs);
      var i :| 0 <= i < |gs| && gs[i] == h;
      TakeOut(gs, i, x, total, supply);
      assert multiset(rest) == multiset(hs) - multiset{h};
      OrderIrrelevant(rest, gs[..i] + gs[i + 1..], x, total, supply);
      SharesOfAppend(rest, [h], x, total, supply);
    }
  }

  lemma TakeOut(gs: seq<Holder>, i: nat, x: Address, total: u128, supply: u128)
    requires 0 < supply && i < |gs|
    ensures multiset(gs[..i] + gs[i + 1..]) == multiset(gs) - multiset{gs[i]}
    ensures SharesOf(gs, x, total, supply)
         == SharesOf(gs[..i] + gs[i + 1..], x, total, supply) + SharesOf([gs[i]], x, total, supply)
  {
    var p, q := gs[..i], gs[i + 1..];
    assert gs == p + [gs[i]] + q;
    SharesAround(p, gs[i], q, x, total, supply);
  }

  lemma SharesAround(p: seq<Holder>, g: Holder, q: seq<Holder>, x: Address, total: u128, supply: u128)
    requires 0 < supply
    ensures SharesOf(p + [g] + q, x, total, supply) == SharesOf(p + q, x, total, supply) + SharesOf([g], x, total, supply)
  {
    SharesOfAppend(p, q, x, total, supply);
    SharesOfAppend(p + [g], q, x, total, supply);
    SharesOfAppend(p, [g], x, total, supply);
  }

  function Positive(records: seq<Holder>): seq<Holder> {
    if records == [] then []
    else if records[0].1 == 0 then Positive(records[1..])
    else [records[0]] + Positive(records[1..])
  }

  lemma {:induction false} SharesGrow(hs: seq<Holder>, i: nat, total: u128, supply: u128)
    requires 0 < supply && i <= |hs|
    ensures Shares(hs[..i], total, supply) <= Shares(hs, total, supply)
    decreases |hs| - i
  {
    if i < |hs| {
      SharesGrow(hs, i + 1, total, supply);
      assert hs[..i + 1][..i] == hs[..i];
    } else {
      assert hs[..i] == hs;
    }
  }
}
