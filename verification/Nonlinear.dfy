/** Small facts about products and floored quotients that the solver needs spelled out. */
module Nonlinear {

  lemma DivBounds(a: int, b: int)
    requires 0 <= a && 0 < b
    ensures 0 <= a / b
    ensures (a / b) * b <= a < (a / b) * b + b
    ensures a == (a / b) * b + a % b
  {
  }

  lemma MulMono(a: int, b: int, c: int)
    requires a <= b && 0 <= c
    ensures a * c <= b * c
    ensures c * a <= c * b
  {
  }

  lemma MulSwap(a: int, b: int)
    ensures a * b == b * a
  {
  }

  lemma MulMono2(a: int, b: int, c: int, d: int)
    requires 0 <= a <= b && 0 <= c <= d
    ensures a * c <= b * d
  {
    MulMono(a, b, c);
    MulMono(c, d, b);
  }

  lemma MulBelow(a: int, b: int, c: int)
    requires 0 <= a < c && 0 <= b < c
    ensures 0 <= a * b <= (c - 1) * (c - 1) == c * c - 2 * c + 1
  {
    MulMono2(a, c - 1, b, c - 1);
  }

  lemma MulCancel(a: int, b: int, c: int)
    requires 0 < c && a * c <= b * c
    ensures a <= b
  {
    if b < a {
      MulMono(1, a - b, c);
      assert false;
    }
  }

  lemma MulCancelStrict(a: int, b: int, c: int)
    requires 0 <= c && a * c < b * c
    ensures a < b
  {
    if b <= a {
      MulMono(b, a, c);
    }
  }

  /** A quotient is the unique multiplier whose remainder lies in range. */
  lemma DivUnique(a: int, b: int, q: int)
    requires 0 < b && q * b <= a < q * b + b
    ensures a / b == q
    ensures a % b == a - q * b
  {
    var r := a / b;
    assert a == r * b + a % b;
    assert (r + 1) * b == r * b + b && (q + 1) * b == q * b + b;
    if r < q {
      MulMono(r + 1, q, b);
    } else if q < r {
      MulMono(q + 1, r, b);
    }
  }

  /** `a / b <= q` exactly when `a < (q + 1) * b`. */
  lemma DivLe(a: int, b: int, q: int)
    requires 0 <= a && 0 < b
    ensures a / b <= q <==> a < (q + 1) * b
  {
    DivBounds(a, b);
    if a / b <= q {
      MulMono(a / b + 1, q + 1, b);
    } else {
      MulMono(q + 1, a / b, b);
    }
  }

  lemma DivGe(a: int, b: int, q: int)
    requires 0 <= a && 0 < b
    ensures q <= a / b <==> q * b <= a
  {
    DivLe(a, b, q - 1);
  }

  lemma DivMono(a: int, b: int, c: int)
    requires 0 <= a <= b && 0 < c
    ensures a / c <= b / c
  {
    DivBounds(a, c);
    DivGe(b, c, a / c);
  }

  lemma SquareLe(a: int, b: int)
    requires 0 <= a && 0 <= b && a * a <= b * b
    ensures a <= b
  {
    assert (b + 1) * (b + 1) == b * b + 2 * b + 1;
    if b < a {
      MulMono2(b + 1, a, b + 1, a);
    }
  }

  lemma SquareOfSum(a: int, b: int)
    ensures (a + b) * (a + b) == (a - b) * (a - b) + 4 * (a * b)
  {
  }

  lemma SquareNonNegative(a: int)
    ensures 0 <= a * a
  {
  }

  lemma SquareOfDouble(a: int)
    ensures (2 * a) * (2 * a) == 4 * (a * a)
  {
  }
}
