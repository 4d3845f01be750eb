/** The hand-written 256-bit arithmetic of the exchange. Machine steps (shifts, wrapping
    adds, carries) are written out on u128 values; the contracts speak of integers. */
module Wide {
  import opened Primitives
  import opened Nonlinear
  import opened DexTypes

  datatype U256 = U256(hi: u128, lo: u128) {
    ghost function Value(): nat {
      hi * TWO128 + lo
    }
  }

  // ----- multiplication

  /** `a << 64` on u128: the upper half of `a` falls off. */
  function Shl64(a: u128): (r: u128)
    ensures r == (a % TWO64) * TWO64
  {
    (a % TWO64) * TWO64
  }

  /** Schoolbook product of two halves each; `mid` is meant to wrap. */
  function MulU128(a: u128, b: u128): (r: U256)
    ensures r.Value() == a * b
  {
    var aLo, aHi := a % TWO64, a / TWO64;
    var bLo, bHi := b % TWO64, b / TWO64;
    HalfProduct(aLo, bLo);
    HalfProduct(aLo, bHi);
    HalfProduct(aHi, bLo);
    HalfProduct(aHi, bHi);
    var ll: u128, lh: u128, hl: u128, hh: u128 := aLo * bLo, aLo * bHi, aHi * bLo, aHi * bHi;
    var mid := WrapAdd(lh, hl);
    var lo := WrapAdd(ll, Shl64(mid));
    var carry := (if lo < ll then 1 else 0) + (if mid < lh then TWO64 else 0);
    MulParts(a, b, ll, lh, hl, hh, mid, lo, carry);
    U256(hh + mid / TWO64 + carry, lo)
  }

  lemma HalfProduct(x: int, y: int)
    requires 0 <= x < TWO64 && 0 <= y < TWO64
    ensures 0 <= x * y < TWO128
  {
    MulBelow(x, y, TWO64);
    assert TWO64 * TWO64 == TWO128;
  }

  lemma ProductBound(a: int, b: int)
    requires 0 <= a < TWO128 && 0 <= b < TWO128
    ensures 0 <= a * b < TWO128 * TWO128
  {
    MulBelow(a, b, TWO128);
  }

  lemma SplitProduct(a: int, b: int, aHi: int, aLo: int, bHi: int, bLo: int)
    requires a == aHi * TWO64 + aLo && b == bHi * TWO64 + bLo
    ensures a * b == aLo * bLo + (aLo * bHi + aHi * bLo) * TWO64 + (aHi * bHi) * TWO128
  {
    calc {
      a * b;
      (aHi * TWO64 + aLo) * (bHi * TWO64 + bLo);
      (aHi * TWO64) * (bHi * TWO64) + (aHi * TWO64) * bLo + aLo * (bHi * TWO64) + aLo * bLo;
    }
    assert (aHi * TWO64) * (bHi * TWO64) == (aHi * bHi) * TWO128;
    assert (aHi * TWO64) * bLo == (aHi * bLo) * TWO64;
    assert aLo * (bHi * TWO64) == (aLo * bHi) * TWO64;
  }

  lemma MulParts(a: u128, b: u128, ll: u128, lh: u128, hl: u128, hh: u128, mid: u128, lo: u128, carry: int)
    requires ll == (a % TWO64) * (b % TWO64) && lh == (a % TWO64) * (b / TWO64)
    requires hl == (a / TWO64) * (b % TWO64) && hh == (a / TWO64) * (b / TWO64)
    requires mid == WrapAdd(lh, hl) && lo == WrapAdd(ll, Shl64(mid))
    requires carry == (if lo < ll then 1 else 0) + (if mid < lh then TWO64 else 0)
    ensures 0 <= hh + mid / TWO64 + carry < TWO128
    ensures (hh + mid / TWO64 + carry) * TWO128 + lo == a * b
  {
    SplitProduct(a, b, a / TWO64, a % TWO64, b / TWO64, b % TWO64);
    ProductBound(a, b);
    assert mid == (mid / TWO64) * TWO64 + mid % TWO64;
  }

  // ----- division

  ghost function Pow2(i: nat): (p: nat)
    ensures 0 < p
  {
    if i == 0 then 1 else 2 * Pow2(i - 1)
  }

  lemma {:induction false} Pow2Add(i: nat, j: nat)
    ensures Pow2(i + j) == Pow2(i) * Pow2(j)
    decreases i
  {
    if i > 0 {
      Pow2Add(i - 1, j);
      assert Pow2(i + j) == 2 * Pow2(i - 1 + j);
    }
  }

  lemma Pow2Of128()
    ensures Pow2(64) == TWO64 && Pow2(128) == TWO128 && Pow2(127) * 2 == TWO128
  {
    assert Pow2(8) == 256;
    Pow2Add(8, 8);
    assert Pow2(16) == 0x1_0000;
    Pow2Add(16, 16);
    assert Pow2(32) == 0x1_0000_0000;
    Pow2Add(32, 32);
    Pow2Add(64, 64);
  }

  /** What dividing by `d` should give: the floor, or an error when there is none in u128. */
  ghost function Quotient(n: nat, d: u128): Result<u128, DexError> {
    if d == 0 || n / d > U128_MAX then Err(Overflow) else Ok(n / d)
  }

  /** One bit of long division, with the bit shifted out of `rem` kept in `overflow`. */
  method DivStep(rem: u128, bit: int, d: u128) returns (next: u128, carried: bool)
    requires 0 <= bit <= 1 && rem < d
    ensures next < d
    ensures 2 * rem + bit == (if carried then d else 0) + next
  {
    var overflow := rem / 0x8000_0000_0000_0000_0000_0000_0000_0000;
    next := (2 * rem + bit) % TWO128;
    carried := overflow != 0 || next >= d;
    if carried {
      next := WrapSub(next, d);
    }
  }

  lemma HalveQuotient(n: nat, p: nat)
    requires 0 < p
    ensures n / p == 2 * (n / (2 * p)) + n / p % 2
  {
    var q := n / p;
    var h, r := q / 2, q % 2;
    DivBounds(n, p);
    var hp := h * p;
    assert h * (2 * p) == 2 * hp;
    assert (2 * h + r) * p == 2 * hp + r * p;
    MulMono2(0, r, 0, p);
    MulMono(r, 1, p);
    DivUnique(n, 2 * p, h);
  }

  lemma HalveShift(n: nat, i: nat)
    ensures n / Pow2(i) == 2 * (n / Pow2(i + 1)) + n / Pow2(i) % 2
  {
    HalveQuotient(n, Pow2(i));
  }

  /** Dividing further by two on the bit side: quotient and remainder both double. */
  lemma DivStepCorrect(t: nat, t': nat, bit: int, d: nat, rem': int, carried: bool)
    requires 0 < d && t' == 2 * t + bit && 0 <= rem' < d
    requires 2 * (t % d) + bit == (if carried then d else 0) + rem'
    ensures t' % d == rem'
    ensures t' / d == 2 * (t / d) + (if carried then 1 else 0)
  {
    DivBounds(t, d);
    var q := 2 * (t / d) + (if carried then 1 else 0);
    assert q * d == 2 * ((t / d) * d) + (if carried then d else 0);
    DivUnique(t', d, q);
  }

  lemma LowBit(n: U256, i: nat)
    requires i < 128
    ensures n.Value() / Pow2(i) % 2 == n.lo / Pow2(i) % 2
  {
    Pow2Of128();
    Pow2Add(i, 128 - i);
    EvenHigh(n.hi, n.lo, Pow2(i), Pow2(127 - i));
    assert Pow2(128 - i) == 2 * Pow2(127 - i);
    assert n.hi * (Pow2(i) * (2 * Pow2(127 - i))) == n.hi * TWO128;
  }

  lemma Regroup(hi: nat, p: nat, half: nat)
    ensures (2 * (hi * half)) * p == hi * (p * (2 * half))
  {
    calc {
      (2 * (hi * half)) * p;
      hi * half * (2 * p);
      hi * (half * (2 * p));
      { assert half * (2 * p) == p * (2 * half); }
      hi * (p * (2 * half));
    }
  }

  lemma EvenSum(x: int, y: int)
    ensures (2 * x + y) % 2 == y % 2
  {
  }

  lemma QuotientOfSum(high: nat, x: nat, lo: nat, p: nat)
    requires 0 < p && high == x * p
    ensures (high + lo) / p == x + lo / p
  {
    DivBounds(lo, p);
    assert (x + lo / p) * p == x * p + (lo / p) * p;
    DivUnique(high + lo, p, x + lo / p);
  }

  lemma EvenHigh(hi: nat, lo: nat, p: nat, half: nat)
    requires 0 < p
    ensures (hi * (p * (2 * half)) + lo) / p % 2 == lo / p % 2
  {
    var x := hi * half;
    Regroup(hi, p, half);
    QuotientOfSum(hi * (p * (2 * half)), 2 * x, lo, p);
    EvenSum(x, lo / p);
  }

  lemma HighWord(n: U256)
    ensures n.Value() / Pow2(128) == n.hi
  {
    Pow2Of128();
    DivUnique(n.Value(), TWO128, n.hi);
  }

  lemma QuotientBits(v: nat, d: nat, i: nat)
    requires 0 < d && v / d < TWO128
    ensures v / Pow2(i) / d * Pow2(i) < TWO128
  {
    var p := Pow2(i);
    DivBounds(v, p);
    DivBounds(v / p, d);
    assert (v / p / d * p) * d == (v / p / d * d) * p;
    MulMono(v / p / d * d, v / p, p);
    DivGe(v, d, v / p / d * p);
  }

  /** Long division of `v` by `d` has reached bit `i`: `rem` and `quo` are the remainder and
      the quotient of the bits read so far, the quotient already shifted into place. */
  ghost predicate DividedTo(v: nat, d: nat, i: nat, rem: int, quo: int) {
    && 0 < d
    && rem == v / Pow2(i) % d
    && quo == v / Pow2(i) / d * Pow2(i)
  }

  lemma DividedStart(v: nat, d: nat, i: nat, hi: nat)
    requires v / Pow2(i) == hi < d
    ensures DividedTo(v, d, i, hi, 0)
  {
    DivUnique(hi, d, 0);
  }

  lemma DividedEnd(v: nat, d: nat, rem: int, quo: int)
    requires DividedTo(v, d, 0, rem, quo)
    ensures rem == v % d && quo == v / d
  {
    assert Pow2(0) == 1;
  }

  lemma DividedNext(v: nat, d: nat, i: nat, rem: int, quo: int, bit: int, next: int, carried: bool)
    requires DividedTo(v, d, i + 1, rem, quo)
    requires bit == v / Pow2(i) % 2 && 0 <= next < d
    requires 2 * rem + bit == (if carried then d else 0) + next
    ensures DividedTo(v, d, i, next, quo + (if carried then Pow2(i) else 0))
  {
    HalveShift(v, i);
    DivBounds(v, Pow2(i + 1));
    NextParts(v / Pow2(i + 1), v / Pow2(i), d, Pow2(i + 1), Pow2(i), rem, quo, bit, next, carried);
  }

  lemma NextParts(t: nat, t': nat, d: nat, p: nat, p': nat, rem: int, quo: int, bit: int, next: int, carried: bool)
    requires 0 < d && t' == 2 * t + bit && 0 <= next < d
    requires p == 2 * p' && rem == t % d && quo == t / d * p
    requires 2 * rem + bit == (if carried then d else 0) + next
    ensures t' % d == next
    ensures t' / d * p' == quo + (if carried then p' else 0)
  {
    DivStepCorrect(t, t', bit, d, next, carried);
    var q := t / d;
    assert (2 * q) * p' == q * (2 * p') == q * p;
    assert (2 * q + 1) * p' == (2 * q) * p' + p';
  }

  /** First pass: bring the remainder of the high word down. */
  method HighRemainder(hi: u128, d: u128) returns (rem: u128)
    requires hi < d
    ensures rem == hi
  {
    rem := 0;
    ghost var quo := 0;
    Pow2Of128();
    DivUnique(hi, Pow2(128), 0);
    DividedStart(hi, d, 128, 0);
    for i := 128 downto 0
      invariant rem < d && DividedTo(hi, d, i, rem, quo)
    {
      var bit := hi / Pow2Word(i) % 2;
      var next, carried := DivStep(rem, bit, d);
      DividedNext(hi, d, i, rem, quo, bit, next, carried);
      rem, quo := next, quo + (if carried then Pow2(i) else 0);
    }
    DividedEnd(hi, d, rem, quo);
    DivUnique(hi, d, 0);
  }

  /** Second pass: one quotient bit per bit of the low word. */
  method LongDivide(n: U256, d: u128) returns (result: u128)
    requires n.hi < d && n.Value() / d < TWO128
    ensures result == n.Value() / d
  {
    ghost var v := n.Value();
    var rem := HighRemainder(n.hi, d);
    HighWord(n);
    DividedStart(v, d, 128, n.hi);
    result := 0;
    for i := 128 downto 0
      invariant rem < d && DividedTo(v, d, i, rem, result)
    {
      var bit := n.lo / Pow2Word(i) % 2;
      LowBit(n, i);
      var next, carried := DivStep(rem, bit, d);
      DividedNext(v, d, i, rem, result, bit, next, carried);
      QuotientBits(v, d, i);
      rem := next;
      if carried {
        result := result + Pow2Word(i);  // bit i of result is still clear, so `|=` adds it
      }
    }
    DividedEnd(v, d, rem, result);
  }

  /** Bit-by-bit long division. The result is the exact floor quotient; it fails exactly
      when the divisor is zero or the quotient needs more than 128 bits. */
  method DivU128(n: U256, d: u128) returns (r: Result<u128, DexError>)
    ensures r == Quotient(n.Value(), d)
  {
    if d == 0 {
      return Err(Overflow);
    }
    if n.hi == 0 {
      assert n.lo < TWO128 * d by { MulMono(1, d, TWO128); }
      DivLe(n.lo, d, U128_MAX);
      return Ok(n.lo / d);
    }
    if n.hi >= d {
      DivGe(n.Value(), d, TWO128);
      MulMono(d, n.hi, TWO128);
      return Err(Overflow);
    }
    MulMono(n.hi + 1, d, TWO128);
    DivLe(n.Value(), d, U128_MAX);
    var q := LongDivide(n, d);
    return Ok(q);
  }

  /** The run-time counterpart of Pow2. */
  function Pow2Word(i: nat): (p: nat)
    ensures p == Pow2(i)
  {
    if i == 0 then 1 else 2 * Pow2Word(i - 1)
  }

  // ----- square roots

  ghost predicate IsFloorSqrt(n: nat, r: nat) {
    r * r <= n < (r + 1) * (r + 1)
  }

  ghost function FloorSqrt(n: nat): (r: nat)
    ensures IsFloorSqrt(n, r)
  {
    if n == 0 then 0 else
      var s := FloorSqrt(n - 1);
      assert (s + 2) * (s + 2) == (s + 1) * (s + 1) + 2 * s + 3;
      if (s + 1) * (s + 1) <= n then s + 1 else s
  }

  lemma FloorSqrtUnique(n: nat, r: nat)
    requires IsFloorSqrt(n, r)
    ensures r == FloorSqrt(n)
  {
    var s := FloorSqrt(n);
    if r < s {
      MulMono2(r + 1, s, r + 1, s);
    } else if s < r {
      MulMono2(s + 1, r, s + 1, r);
    }
  }

  /** A Newton step never falls below the root (the mean of x and n/x bounds it). */
  lemma NewtonFromAbove(n: nat, x: nat, y: nat)
    requires 0 < x && y == (x + n / x) / 2
    ensures n < (y + 1) * (y + 1)
  {
    var q := n / x;
    DivBounds(n, x);
    var s := x + (q + 1);
    SquareOfSum(x, q + 1);
    SquareNonNegative(x - (q + 1));
    assert x * (q + 1) == q * x + x;
    var t := 2 * (y + 1);
    MulMono2(s, t, s, t);
    SquareOfDouble(y + 1);
  }

  /** A step that does not decrease x certifies that x is not above the root. */
  lemma NewtonStops(n: nat, x: nat, q: nat)
    requires 0 < x && q <= n / x && x <= (x + q) / 2
    ensures x * x <= n
  {
    DivBounds(n, x);
    MulMono(x, n / x, x);
  }

  method SqrtU128(n: u128) returns (r: u128)
    ensures IsFloorSqrt(n, r)
  {
    if n == 0 {
      return 0;
    }
    if n <= 3 {
      return 1;
    }
    var x: u128 := n;
    var y: u128 := (x + 1) / 2;
    DivUnique(n, n, 1);
    NewtonFromAbove(n, x, y);
    while y < x
      invariant 1 <= y && 1 <= x && y == (x + n / x) / 2
      invariant n < (x + 1) * (x + 1) && n < (y + 1) * (y + 1)
      invariant x <= n && (y < x ==> y <= (n + 1) / 2)
      decreases x
    {
      ghost var x0 := x;
      x := y;
      NewtonSumFits(n, x);
      y := (x + n / x) / 2;
      NewtonFromAbove(n, x, y);
    }
    NewtonStops(n, x, n / x);
    return x;
  }

  /** The sum inside a Newton step stays in u128 and the step stays positive. */
  lemma NewtonSumFits(n: u128, x: u128)
    requires 4 <= n && 2 <= x <= (n + 1) / 2 && n < (x + 1) * (x + 1)
    ensures 1 <= n / x && 2 <= x + n / x < TWO128
  {
    DivGe(n, x, 1);
    DivLe(n, x, n / 2);
    MulMono2(n / 2 + 1, n / 2 + 1, 2, x);
  }

  /** sqrt_u256 starts from (sqrt(hi) + 1) << 64. When sqrt(hi) + 1 is 2^64 that shift
      leaves zero, and the loop stops at once on zero. */
  ghost function SqrtSpec(n: nat): nat {
    if n / TWO128 < (TWO64 - 1) * (TWO64 - 1) then FloorSqrt(n) else 0
  }

  lemma StartFitsIff(hi: u128, s: nat)
    requires IsFloorSqrt(hi, s)
    ensures s <= TWO64 - 1
    ensures s < TWO64 - 1 <==> hi < (TWO64 - 1) * (TWO64 - 1)
  {
    var m := TWO64 - 1;
    if s > m {
      MulMono2(m + 1, s, m + 1, s);
      assert false;
    }
    if s < m {
      MulMono2(s + 1, m, s + 1, m);
    }
  }

  lemma StartIsAbove(n: U256, s: nat)
    requires IsFloorSqrt(n.hi, s)
    ensures n.Value() < ((s + 1) * TWO64) * ((s + 1) * TWO64)
  {
    var t := s + 1;
    assert (t * TWO64) * (t * TWO64) == (t * t) * TWO128;
    MulMono(n.hi + 1, t * t, TWO128);
  }

  /** Above the root, or stuck at zero. */
  ghost predicate Bounds(n: nat, x: u128, fits: bool) {
    if fits then 0 < x && n < (x + 1) * (x + 1) else x == 0
  }

  lemma StartBounds(n: U256, s: nat)
    requires IsFloorSqrt(n.hi, s) && s <= TWO64 - 1
    ensures Bounds(n.Value(), Shl64(s + 1), s < TWO64 - 1)
  {
    if s < TWO64 - 1 {
      StartIsAbove(n, s);
      var x := (s + 1) * TWO64;
      assert Shl64(s + 1) == x;
      MulMono2(x, x + 1, x, x + 1);
    }
  }

  /** Newton's method on 256 bits: the exact floor root whenever the high word is below
      (2^64 - 1)^2, and zero otherwise. */
  method SqrtU256(n: U256) returns (x: u128)
    ensures x == SqrtSpec(n.Value())
  {
    DivUnique(n.Value(), TWO128, n.hi);
    if n.hi == 0 {
      x := SqrtU128(n.lo);
      FloorSqrtUnique(n.lo, x);
      return;
    }
    var s := SqrtU128(n.hi);
    StartFitsIff(n.hi, s);
    x := Shl64(s + 1);
    ghost var fits := s < TWO64 - 1;
    StartBounds(n, s);
    while true
      invariant Bounds(n.Value(), x, fits)
      decreases x
    {
      var div := DivOrMax(n, x);
      var next := Average(x, div);
      if next >= x {
        if fits {
          NewtonStops(n.Value(), x, div);
          FloorSqrtUnique(n.Value(), x);
        }
        return;
      }
      NewtonFromAbove(n.Value(), x, next);
      x := next;
    }
  }

  method DivOrMax(n: U256, x: u128) returns (div: u128)
    ensures x == 0 ==> div == U128_MAX
    ensures x > 0 ==> div == Min(n.Value() / x, U128_MAX)
  {
    var q := DivU128(n, x);
    div := if q.Ok? then q.value else U128_MAX;
  }

  /** The floored mean without a carry. */
  function Average(a: u128, b: u128): (m: u128)
    ensures m == (a + b) / 2
  {
    a / 2 + b / 2 + (a % 2 + b % 2) / 2
  }
}
