/** Fee splitting and the constant-product quote, with the inequalities a pool lives by. */
module PoolMath {
  import opened Primitives
  import opened Nonlinear
  import opened DexTypes
  import opened Wide

  datatype Fees = Fees(net: u128, lp: u128, protocol: u128)

  function CalculateFees(amount: u128, feeBps: u128, protocolBps: u128): Result<Fees, DexError>
  {
    if amount == 0 then Err(ZeroAmount)
    else if amount * feeBps > U128_MAX || amount * protocolBps > U128_MAX then Err(Overflow)
    else
      MulNonNegative(amount, feeBps);
      MulNonNegative(amount, protocolBps);
      var total: u128 := amount * feeBps / 10_000;
      var protocol: u128 := amount * protocolBps / 10_000;
      Ok(Fees(SaturatingSub(amount, total), SaturatingSub(total, protocol), protocol))
  }

  lemma MulNonNegative(a: int, b: int)
    requires 0 <= a && 0 <= b
    ensures 0 <= a * b
  {
  }

  /** The split loses and invents nothing exactly when the protocol part fits in the total
      fee and the total fee fits in the input; otherwise it hands out more than came in. */
  lemma FeeSplitExactIff(amount: u128, feeBps: u128, protocolBps: u128)
    requires CalculateFees(amount, feeBps, protocolBps).Ok?
    ensures var f := CalculateFees(amount, feeBps, protocolBps).value;
            && f.net + f.lp + f.protocol >= amount
            && (f.net + f.lp + f.protocol == amount
                <==> amount * protocolBps / 10_000 <= amount * feeBps / 10_000 <= amount)
  {
  }

  /** Every pool is created with 30 and 5 basis points, so its split is always exact. */
  lemma FeeSplitExact(amount: u128)
    requires CalculateFees(amount, DEFAULT_FEE_BPS, DEFAULT_PROTOCOL_FEE_BPS).Ok?
    ensures var f := CalculateFees(amount, DEFAULT_FEE_BPS, DEFAULT_PROTOCOL_FEE_BPS).value;
            f.net + f.lp + f.protocol == amount && f.net <= amount
  {
    FeeSplitExactIff(amount, DEFAULT_FEE_BPS, DEFAULT_PROTOCOL_FEE_BPS);
  }

  ghost function AmountOut(net: u128, reserveIn: u128, reserveOut: u128): Result<u128, DexError> {
    if net == 0 then Err(ZeroAmount)
    else if reserveIn == 0 || reserveOut == 0 then Err(ZeroLiquidity)
    else if reserveIn + net > U128_MAX then Err(Overflow)
    else Quotient(reserveOut * net, reserveIn + net)
  }

  method GetAmountOut(net: u128, reserveIn: u128, reserveOut: u128) returns (r: Result<u128, DexError>)
    ensures r == AmountOut(net, reserveIn, reserveOut)
  {
    if net == 0 {
      return Err(ZeroAmount);
    }
    if reserveIn == 0 || reserveOut == 0 {
      return Err(ZeroLiquidity);
    }
    var numerator := MulU128(reserveOut, net);
    if reserveIn + net > U128_MAX {
      return Err(Overflow);
    }
    r := DivU128(numerator, reserveIn + net);
  }

  /** A quote never empties the pool, and paying it for at least the net input never lowers
      the product of the reserves. */
  lemma QuoteKeepsProduct(net: int, paid: int, reserveIn: int, reserveOut: int, out: int)
    requires 0 < net <= paid && 0 < reserveIn && 0 < reserveOut
    requires out == reserveOut * net / (reserveIn + net)
    ensures 0 <= out < reserveOut
    ensures (reserveIn + paid) * (reserveOut - out) >= reserveIn * reserveOut
  {
    var d := reserveIn + net;
    MulNonNegative(reserveOut, net);
    DivBounds(reserveOut * net, d);
    assert reserveOut * net < reserveOut * d;
    MulCancelStrict(out, reserveOut, d);
    assert d * (reserveOut - out) == reserveOut * d - out * d;
    assert reserveOut * d == reserveOut * reserveIn + reserveOut * net;
    MulMono(d, reserveIn + paid, reserveOut - out);
  }

  /** Worth of a share: `k / l^2` as a comparison of products, `(k, l)` at most `(k', l')`. */
  ghost predicate ShareWorthUp(k: int, l: int, k': int, l': int) {
    k * (l' * l') <= k' * (l * l)
  }

  lemma ShareWorthTransitive(k0: int, l0: int, k1: int, l1: int, k2: int, l2: int)
    requires 0 <= k0 && 0 <= k1 && 0 <= k2 && 0 < l0 && 0 < l1 && 0 < l2
    requires ShareWorthUp(k0, l0, k1, l1) && ShareWorthUp(k1, l1, k2, l2)
    ensures ShareWorthUp(k0, l0, k2, l2)
  {
    var s0, s1, s2 := l0 * l0, l1 * l1, l2 * l2;
    MulMono(k0 * s1, k1 * s0, s2);
    MulMono(k1 * s2, k2 * s1, s0);
    assert (k0 * s2) * s1 == (k0 * s1) * s2;
    assert (k1 * s0) * s2 == (k1 * s2) * s0;
    assert (k2 * s0) * s1 == (k2 * s1) * s0;
    assert 0 < s1;
    MulCancel(k0 * s2, k2 * s0, s1);
  }

  /** If each reserve grows at least as fast as the supply, a share keeps its worth. */
  lemma ProportionalWorth(a: int, b: int, l: int, a': int, b': int, l': int)
    requires 0 <= a && 0 <= b && 0 <= l && 0 <= a' && 0 <= b' && 0 <= l'
    requires a * l' <= a' * l && b * l' <= b' * l
    ensures ShareWorthUp(a * b, l, a' * b', l')
  {
    MulMono2(a * l', a' * l, b * l', b' * l);
    assert (a * l') * (b * l') == (a * b) * (l' * l');
    assert (a' * l) * (b' * l) == (a' * b') * (l * l);
  }

  /** A share worth no less than before still has its supply under the root of the product. */
  lemma WorthBoundsSupply(k: int, l: int, k': int, l': int)
    requires 0 < l && l * l <= k && 0 <= l' && 0 <= k'
    requires ShareWorthUp(k, l, k', l')
    ensures l' * l' <= k'
  {
    MulMono(l * l, k, l' * l');
    assert (l' * l') * (l * l) <= k' * (l * l);
    assert 0 < l * l;
    MulCancel(l' * l', k', l * l);
  }

  /** Minting `min(a*l/ra, b*l/rb)` shares for a deposit grows the supply no faster than either reserve. */
  lemma MintIsProportional(ra: int, l: int, a: int, lp: int)
    requires 0 < ra && 0 <= a && 0 <= l && 0 <= lp <= a * l / ra
    ensures ra * (l + lp) <= (ra + a) * l
    ensures lp * ra <= a * l
  {
    MulNonNegative(a, l);
    DivGe(a * l, ra, lp);
    assert ra * (l + lp) == ra * l + lp * ra;
    assert (ra + a) * l == ra * l + a * l;
  }

  /** Burning `lp` of `l` shares takes out at most that fraction. */
  lemma BurnIsProportional(ra: int, l: int, lp: int, out: int)
    requires 0 < l && 0 <= lp <= l && 0 <= ra && out == lp * ra / l
    ensures 0 <= out <= ra
    ensures ra * (l - lp) <= (ra - out) * l
  {
    MulNonNegative(lp, ra);
    DivBounds(lp * ra, l);
    MulMono(lp, l, ra);
    MulCancel(out, ra, l);
    assert ra * (l - lp) == ra * l - lp * ra;
    assert (ra - out) * l == ra * l - out * l;
  }

  /** What freshly minted shares can take back never exceeds what was paid for them. */
  lemma MintThenBurn(ra: int, l: int, a: int, lp: int)
    requires 0 < ra && 0 <= a && 0 < l && 0 <= lp <= a * l / ra
    ensures lp * (ra + a) / (l + lp) <= a
  {
    MintIsProportional(ra, l, a, lp);
    MulNonNegative(lp, ra + a);
    assert lp * (ra + a) == lp * ra + a * lp;
    assert a * (l + lp) == a * l + a * lp;
    assert (a + 1) * (l + lp) == a * (l + lp) + (l + lp);
    DivLe(lp * (ra + a), l + lp, a);
  }
}
