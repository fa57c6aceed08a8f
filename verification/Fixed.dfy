/** Saturating Q32.32 arithmetic on raw values, and the exact integer square root. */
module Fixed {
  import opened Common

  type I64 = x: int | -0x8000_0000_0000_0000 <= x < 0x8000_0000_0000_0000

  /** A fixed-point number is its raw value: `raw / 2^32`. */
  type Fx = I64

  const ONE: Fx := 0x1_0000_0000
  const MAX: Fx := 0x7FFF_FFFF_FFFF_FFFF
  const MIN: Fx := -0x8000_0000_0000_0000
  const FRAC_1_SQRT_2: Fx := 0xB504_F334

  function Sat(v: int): (r: I64)
    ensures MIN <= v <= MAX ==> r == v
    ensures v > MAX ==> r == MAX
    ensures v < MIN ==> r == MIN
  {
    if v > MAX then MAX else if v < MIN then MIN else v
  }

  function Add(a: Fx, b: Fx): Fx { Sat(a + b) }

  function Sub(a: Fx, b: Fx): Fx { Sat(a - b) }

  function Neg(a: Fx): Fx { Sat(-(a as int)) }

  function Abs(a: Fx): Fx { if a < 0 then Sat(-(a as int)) else a }

  function Max(a: Fx, b: Fx): Fx { if a > b then a else b }

  function Clamp(a: Fx, lo: Fx, hi: Fx): Fx {
    if a < lo then lo else if a > hi then hi else a
  }

  /** The product is reduced by an arithmetic shift, so it floors. */
  function Mul(a: Fx, b: Fx): Fx { Sat(a * b / ONE) }

  /** Integer division rounding toward zero, as every division in the source does. */
  function TruncDiv(a: int, b: int): (q: int)
    requires b != 0
  {
    if (a >= 0) == (b > 0) then (if a >= 0 then a else -a) / (if b > 0 then b else -b)
    else -((if a >= 0 then a else -a) / (if b > 0 then b else -b))
  }

  function Div(a: Fx, b: Fx): Fx {
    if b == 0 then (if a > 0 then MAX else if a < 0 then MIN else 0)
    else Sat(TruncDiv(a * ONE, b))
  }

  function FloorInt(a: Fx): int { a / ONE }

  function Size(x: int): nat { if x < 0 then -x else x }

  /** A product is the exact one rounded down, clamped to what fits. */
  lemma MulFloors(a: Fx, b: Fx)
    ensures var r: int := Mul(a, b);
            if a * b >= (MAX + 1) * ONE then r == MAX
            else if a * b < MIN * ONE then r == MIN
            else r * ONE <= a * b < (r + 1) * ONE
  {
  }

  /** A quotient is the exact one rounded toward zero, clamped to what fits; over zero it is
      the extreme of the numerator's sign. */
  lemma DivTruncates(a: Fx, b: Fx)
    ensures b == 0 ==> Div(a, b) == if a > 0 then MAX else if a < 0 then MIN else 0
    ensures b != 0 ==>
              var r: int := Div(a, b);
              if (a >= 0) == (b > 0) then
                && r >= 0 && Size(r) * Size(b) <= Size(a) * ONE
                && (r == MAX || Size(a) * ONE < (Size(r) + 1) * Size(b))
              else
                && r <= 0 && Size(r) * Size(b) <= Size(a) * ONE
                && (r == MIN || Size(a) * ONE < (Size(r) + 1) * Size(b))
  {
    if b != 0 {
      var n, d := Size(a) * ONE, Size(b);
      assert Size(a * ONE) == n && (a * ONE >= 0 <==> a >= 0);
      var q := n / d;
      QuotientNonNegative(n, d);
      assert n == d * q + n % d;
      assert q * d == d * q && (q + 1) * d == d * q + d;
      assert TruncDiv(a * ONE, b) == if (a >= 0) == (b > 0) then q else -q;
      MulLess(d, Size(Div(a, b)), q);
    }
  }

  // ---------------------------------------------------------------------------
  // Square root

  /** The exact floor of the square root, by digits in base two. */
  function Isqrt(n: nat): (r: nat)
    ensures r * r <= n < (r + 1) * (r + 1)
  {
    if n == 0 then 0
    else
      var q := Isqrt(n / 4);
      IsqrtDigit(n, q);
      if (2 * q + 1) * (2 * q + 1) <= n then 2 * q + 1 else 2 * q
  }

  lemma IsqrtDigit(n: nat, q: nat)
    requires q * q <= n / 4 < (q + 1) * (q + 1)
    ensures (2 * q) * (2 * q) <= n < (2 * q + 2) * (2 * q + 2)
  {
    assert (2 * q) * (2 * q) == 4 * (q * q);
    assert (2 * q + 2) * (2 * q + 2) == 4 * ((q + 1) * (q + 1));
  }

  lemma IsqrtUnique(n: nat, r: nat)
    requires r * r <= n < (r + 1) * (r + 1)
    ensures Isqrt(n) == r
  {
    var q := Isqrt(n);
    if q < r {
      SquareMono(q + 1, r);
    } else if r < q {
      SquareMono(r + 1, q);
    }
  }

  lemma SquareMono(a: nat, b: nat)
    requires a <= b
    ensures a * a <= b * b
  {
    assert a * a <= a * b <= b * b;
  }

  function Pow4(k: nat): (p: nat)
    ensures p > 0
  {
    if k == 0 then 1 else 4 * Pow4(k - 1)
  }

  function Pow2(k: nat): (p: nat)
    ensures p > 0
  {
    if k == 0 then 1 else 2 * Pow2(k - 1)
  }

  lemma {:induction false} Pow4Square(k: nat)
    ensures Pow4(k) == Pow2(k) * Pow2(k)
  {
    if k > 0 {
      Pow4Square(k - 1);
    }
  }

  /** The index of the largest power of four not above `n`. */
  function TopDigit(n: nat): (k: nat)
    requires n > 0
    ensures Pow4(k) <= n < Pow4(k + 1)
  {
    if n < 4 then 0 else TopDigit(n / 4) + 1
  }

  /** What adding the digit `p` to `root` does to its square. */
  lemma DigitSquare(root: nat, p: nat)
    ensures (root + p) * (root + p) == root * root + root * (2 * p) + p * p
    ensures root * (2 * p) / 2 == root * p
    ensures (root + p) * p == root * p + p * p
  {
    assert root * (2 * p) == 2 * (root * p);
  }

  /** Where the restoring loop stands. With `root` the digits decided so far, `x` is the
      increment the next digit would add to its square and `rem` is what is left of `n`. */
  ghost predicate Restoring(n: nat, root: nat, step: nat, x: nat, rem: int) {
    rem == n - root * root && x == root * step && root * root <= n < (root + step) * (root + step)
  }

  /** One step, for the digit `Pow2(k)`. */
  lemma DigitDecided(n: nat, root: nat, k: nat, x: nat, rem: int)
    requires Restoring(n, root, 2 * Pow2(k), x, rem)
    ensures rem >= x + Pow4(k) ==> Restoring(n, root + Pow2(k), Pow2(k), x / 2 + Pow4(k), rem - (x + Pow4(k)))
    ensures rem < x + Pow4(k) ==> Restoring(n, root, Pow2(k), x / 2, rem)
    ensures Pow4(k) / 4 == if k == 0 then 0 else Pow4(k - 1)
    ensures Pow2(k) == if k == 0 then 1 else 2 * Pow2(k - 1)
  {
    Pow4Square(k);
    DigitSquare(root, Pow2(k));
    assert root + Pow2(k) + Pow2(k) == root + 2 * Pow2(k);
  }

  lemma RestoringStarts(n: nat)
    requires n > 0
    ensures Restoring(n, 0, 2 * Pow2(TopDigit(n)), 0, n)
  {
    var p := Pow2(TopDigit(n));
    Pow4Square(TopDigit(n));
    assert (2 * p) * (2 * p) == 4 * (p * p);
  }

  lemma RestoringEnds(n: nat, root: nat, x: nat, rem: int)
    requires Restoring(n, root, 1, x, rem)
    ensures x == Isqrt(n) && x * x <= n < (x + 1) * (x + 1)
  {
    assert x == root;
    IsqrtUnique(n, x);
  }

  /** The restoring loop, from the highest digit down. */
  method IsqrtLoop(n: nat) returns (x: nat)
    ensures x == Isqrt(n)
    ensures x * x <= n < (x + 1) * (x + 1)
  {
    if n == 0 {
      return 0;
    }
    ghost var k: int := TopDigit(n);
    var bit := Pow4(TopDigit(n));
    x := 0;
    var rem: int := n;
    ghost var root: nat := 0;
    RestoringStarts(n);
    hide Isqrt, Pow2, Pow4, TopDigit, Restoring;
    while bit != 0
      invariant -1 <= k
      invariant bit == if k >= 0 then Pow4(k) else 0
      invariant Restoring(n, root, if k >= 0 then 2 * Pow2(k) else 1, x, rem)
      decreases bit
    {
      DigitDecided(n, root, k, x, rem);
      ghost var p := Pow2(k);
      if rem >= x + bit {
        rem := rem - (x + bit);
        x := x / 2 + bit;
        root := root + p;
      } else {
        x := x / 2;
      }
      bit := bit / 4;
      k := k - 1;
    }
    RestoringEnds(n, root, x, rem);
  }

  /** Negative inputs return zero rather than trapping. */
  function Sqrt(a: Fx): (r: Fx)
    ensures a > 0 ==> 0 <= r && r * r <= a * ONE < (r + 1) * (r + 1)
    ensures a <= 0 ==> r == 0
    ensures 0 <= a <= ONE ==> r <= ONE
  {
    if a <= 0 then 0
    else
      var r := Isqrt(a * ONE);
      SqrtFits(a, r);
      r
  }

  lemma SqrtFits(a: Fx, r: nat)
    requires a > 0 && r * r <= a * ONE
    ensures r <= MAX
    ensures a <= ONE ==> r <= ONE
  {
    if r > MAX {
      SquareMono(MAX + 1, r);
    }
    if a <= ONE && r > ONE {
      SquareMono(ONE + 1, r);
    }
  }
}
