/** Smallest-three compression of rotations. */
module Quaternions {
  import opened Common
  import opened Fixed
  import opened Bits

  datatype Quat = Quat(x: Fx, y: Fx, z: Fx, w: Fx)

  datatype SmallestThree = SmallestThree(largest: nat, a: nat, b: nat, c: nat)

  /** Maps `[-1/sqrt 2, 1/sqrt 2]` onto `bits` bits, rounding to nearest. */
  function UnitIndex(v: Fx, bits: nat): (q: nat) {
    var range: nat := Pow2(bits) - 1;
    var num := (Clamp(v, Neg(FRAC_1_SQRT_2), FRAC_1_SQRT_2) + FRAC_1_SQRT_2) * range;
    var q := (num + FRAC_1_SQRT_2) / (2 * FRAC_1_SQRT_2);
    if q < 0 then 0 else if q > range then range else q
  }

  function UnitValue(q: nat, bits: nat): Fx
    requires bits > 0
  {
    var range := Pow2(bits) - 1;
    Sat((q * 2 * FRAC_1_SQRT_2 + range / 2) / range - FRAC_1_SQRT_2)
  }

  function Components(q: Quat): (s: seq<Fx>)
    ensures |s| == 4
  {
    [q.x, q.y, q.z, q.w]
  }

  /** The first component of largest magnitude among the first `n`. */
  function LargestOf(s: seq<Fx>, n: nat): (i: nat)
    requires 0 < n <= |s|
    ensures i < n
    ensures forall j :: 0 <= j < n ==> Abs(s[j]) <= Abs(s[i])
    ensures forall j :: 0 <= j < i ==> Abs(s[j]) < Abs(s[i])
  {
    if n == 1 then 0
    else
      var i := LargestOf(s, n - 1);
      if Abs(s[n - 1]) > Abs(s[i]) then n - 1 else i
  }

  function Kept(s: seq<Fx>, largest: nat): (k: seq<Fx>)
    requires |s| == 4 && largest < 4
    ensures |k| == 3
  {
    s[..largest] + s[largest + 1..]
  }

  function CompressQuat(q: Quat, bits: nat): (s: SmallestThree)
    ensures s.largest < 4
  {
    var s := Components(q);
    var largest := LargestOf(s, 4);
    var k := Kept(s, largest);
    var sign := (v: Fx) => if s[largest] < 0 then Neg(v) else v;
    SmallestThree(largest, UnitIndex(sign(k[0]), bits), UnitIndex(sign(k[1]), bits), UnitIndex(sign(k[2]), bits))
  }

  /** The two loops of the source: find the largest component, then fill the slots. */
  method CompressQuatLoop(q: Quat, bits: nat) returns (r: SmallestThree)
    ensures r == CompressQuat(q, bits)
  {
    hide UnitIndex, Abs, Neg;
    var comps := Components(q);
    var largest := 0;
    var best := Abs(comps[0]);
    var i := 1;
    while i < 4
      invariant 1 <= i <= 4
      invariant largest == LargestOf(comps, i) && best == Abs(comps[largest])
    {
      if Abs(comps[i]) > best {
        best := Abs(comps[i]);
        largest := i;
      }
      i := i + 1;
    }
    var negate := comps[largest] < 0;
    ghost var all := Indices(q, largest, bits);
    IndicesAre(q, largest, negate, bits);
    hide LargestOf, Kept, Components, CompressQuat, Indices;
    var out: seq<nat> := [];
    i := 0;
    while i < 4
      invariant 0 <= i <= 4
      invariant out == all[..if i <= largest then i else i - 1]
    {
      if i != largest {
        var v := if negate then Neg(comps[i]) else comps[i];
        out := out + [UnitIndex(v, bits)];
      }
      i := i + 1;
    }
    r := SmallestThree(largest, out[0], out[1], out[2]);
  }

  /** The three indices sent, in order. */
  ghost function Indices(q: Quat, largest: nat, bits: nat): (s: seq<nat>)
    requires largest < 4
    ensures |s| == 3
  {
    var k := Kept(Components(q), largest);
    var negate := Components(q)[largest] < 0;
    seq(3, j requires 0 <= j < 3 => UnitIndex(if negate then Neg(k[j]) else k[j], bits))
  }

  lemma IndicesAre(q: Quat, largest: nat, negate: bool, bits: nat)
    requires largest == LargestOf(Components(q), 4) && negate == (Components(q)[largest] < 0)
    ensures var all := Indices(q, largest, bits);
            && CompressQuat(q, bits) == SmallestThree(largest, all[0], all[1], all[2])
            && forall i :: 0 <= i < 4 && i != largest ==>
                 all[if i < largest then i else i - 1] ==
                 UnitIndex(if negate then Neg(Components(q)[i]) else Components(q)[i], bits)
  {
    hide UnitIndex, LargestOf, Neg;
  }

  /** The omitted component, from the three that were kept. */
  function Omitted(a: Fx, b: Fx, c: Fx): Fx {
    Sqrt(Max(Sub(ONE, Add(Add(Mul(a, a), Mul(b, b)), Mul(c, c))), 0))
  }

  function DecompressQuat(s: SmallestThree, bits: nat): Quat
    requires bits > 0
  {
    var a, b, c := UnitValue(s.a, bits), UnitValue(s.b, bits), UnitValue(s.c, bits);
    var l := Omitted(a, b, c);
    match s.largest
    case 0 => Quat(l, a, b, c)
    case 1 => Quat(a, l, b, c)
    case 2 => Quat(a, b, l, c)
    case _ => Quat(a, b, c, l)
  }

  function NormSquared(q: Quat): int {
    q.x * q.x + q.y * q.y + q.z * q.z + q.w * q.w
  }

  lemma FloorSquare(a: Fx) returns (floor: int, rest: int)
    requires -ONE <= a <= ONE
    ensures Mul(a, a) == floor && a * a == floor * ONE + rest
    ensures 0 <= floor <= ONE && 0 <= rest < ONE
  {
    floor, rest := a * a / ONE, a * a % ONE;
    SquareBound(a);
  }

  lemma SquareBound(a: int)
    requires -ONE <= a <= ONE
    ensures 0 <= a * a <= ONE * ONE
  {
    var m: nat := if a < 0 then -a else a;
    assert a * a == m * m;
    SquareMono(m, ONE);
  }

  lemma UnitValueBound(q: nat, bits: nat)
    requires bits > 0 && q < Pow2(bits)
    ensures -FRAC_1_SQRT_2 <= UnitValue(q, bits) <= FRAC_1_SQRT_2
  {
    var range: nat := Pow2(bits) - 1;
    assert range * (2 * FRAC_1_SQRT_2 + 1) == range * (2 * FRAC_1_SQRT_2) + range;
    DivAtMost(q * 2 * FRAC_1_SQRT_2 + range / 2, range, 2 * FRAC_1_SQRT_2);
  }

  /** What a decoded rotation's exact squared norm is worth: one, less the square root's
      rounding, plus the three products' rounding. When the three kept squares already
      exceed one, the omitted component is zero. */
  lemma NearUnit(s: SmallestThree, bits: nat)
    requires bits > 0 && s.a < Pow2(bits) && s.b < Pow2(bits) && s.c < Pow2(bits)
    ensures var a, b, c := UnitValue(s.a, bits), UnitValue(s.b, bits), UnitValue(s.c, bits);
            var sum := Mul(a, a) + Mul(b, b) + Mul(c, c);
            var n := NormSquared(DecompressQuat(s, bits));
            if sum <= ONE then ONE * ONE - 2 * ONE <= n < ONE * ONE + 3 * ONE
            else n == a * a + b * b + c * c
  {
    var a, b, c := UnitValue(s.a, bits), UnitValue(s.b, bits), UnitValue(s.c, bits);
    UnitValueBound(s.a, bits);
    UnitValueBound(s.b, bits);
    UnitValueBound(s.c, bits);
    var fa, ra := FloorSquare(a);
    var fb, rb := FloorSquare(b);
    var fc, rc := FloorSquare(c);
    var sum := fa + fb + fc;
    DecodedNorm(s, bits);
    OmittedIs(a, b, c, fa, fb, fc);
    hide UnitValue, Mul, NormSquared, DecompressQuat, Omitted, Sqrt;
    if sum <= ONE {
      SqrtNear(ONE - sum);
    }
  }

  lemma DecodedNorm(s: SmallestThree, bits: nat)
    requires bits > 0
    ensures var a, b, c := UnitValue(s.a, bits), UnitValue(s.b, bits), UnitValue(s.c, bits);
            var l := Omitted(a, b, c);
            NormSquared(DecompressQuat(s, bits)) == l * l + a * a + b * b + c * c
  {
    hide UnitValue, Omitted;
  }

  lemma OmittedIs(a: Fx, b: Fx, c: Fx, fa: nat, fb: nat, fc: nat)
    requires fa <= ONE && fb <= ONE && fc <= ONE
    requires Mul(a, a) == fa && Mul(b, b) == fb && Mul(c, c) == fc
    ensures Omitted(a, b, c) == if fa + fb + fc <= ONE then Sqrt(ONE - (fa + fb + fc)) else 0
  {
    hide Mul;
  }

  /** Squaring the rounded root loses at most twice the root. */
  lemma SqrtNear(gap: Fx)
    requires 0 <= gap <= ONE
    ensures gap * ONE - 2 * ONE <= Sqrt(gap) * Sqrt(gap) <= gap * ONE
  {
    hide Sqrt;
    var l: int := Sqrt(gap);
    assert (l + 1) * (l + 1) == l * l + 2 * l + 1;
  }

  /** A component's index stands for a value that rounds back to it. */
  lemma UnitRoundTrip(q: nat, bits: nat)
    requires 1 <= bits <= 30 && q < Pow2(bits)
    ensures UnitIndex(UnitValue(q, bits), bits) == q
  {
    var range: nat := Pow2(bits) - 1;
    RangeBound(bits);
    UnitValueBound(q, bits);
    UnitIndexIs(UnitValue(q, bits), bits);
    UnitValueIs(q, bits);
    hide Pow2, UnitValue, UnitIndex;
    Rounding(q, range);
  }

  lemma RangeBound(bits: nat)
    requires 1 <= bits <= 30
    ensures 2 <= Pow2(bits) <= 0x4000_0000
  {
    assert Pow2(1) == 2;
    Pow2Thirty();
    hide Pow2;
    Pow2Mono(bits, 30);
    Pow2Mono(1, bits);
  }

  lemma Pow2Thirty()
    ensures Pow2(30) == 0x4000_0000
  {
    assert Pow2(10) == 1024;
    hide Pow2;
    Pow2Add(10, 10);
    Pow2Add(20, 10);
  }

  lemma UnitValueIs(q: nat, bits: nat)
    requires 1 <= bits && q < Pow2(bits)
    ensures var range: nat := Pow2(bits) - 1;
            range > 0 && UnitValue(q, bits) + FRAC_1_SQRT_2 == (q * 2 * FRAC_1_SQRT_2 + range / 2) / range
  {
    UnitValueBound(q, bits);
  }

  /** Rounding down to steps of `range` and back up to the nearest multiple of the span loses
      nothing, because the span is more than twice the range. */
  lemma Rounding(q: nat, range: nat)
    requires 1 <= range < 0x4000_0000
    ensures ((q * 2 * FRAC_1_SQRT_2 + range / 2) / range * range + FRAC_1_SQRT_2) / (2 * FRAC_1_SQRT_2) == q
  {
    var n := q * 2 * FRAC_1_SQRT_2 + range / 2;
    var w, e := n / range, n % range;
    assert w * range == n - e;
    var rest := range / 2 - e + FRAC_1_SQRT_2;
    assert w * range + FRAC_1_SQRT_2 == (2 * FRAC_1_SQRT_2) * q + rest;
    assert 0 <= rest < 2 * FRAC_1_SQRT_2;
    QuotientIs((2 * FRAC_1_SQRT_2) * q + rest, 2 * FRAC_1_SQRT_2, q, rest);
  }

  lemma QuotientIs(n: nat, d: nat, q: nat, rest: nat)
    requires d > 0 && n == d * q + rest && rest < d
    ensures n / d == q
  {
    var v := n / d;
    assert n == d * v + n % d;
    if v < q {
      assert d * (v + 1) == d * v + d;
      MulLess(d, v + 1, q);
    } else if v > q {
      assert d * (q + 1) == d * q + d;
      MulLess(d, q + 1, v);
    }
  }

  /** Compressing what a receiver holds gives back the encoding it came from exactly when the
      omitted component is still the first of largest magnitude. */
  lemma RecompressionFixed(e: SmallestThree, bits: nat)
    requires 1 <= bits <= 30 && e.largest < 4
    requires e.a < Pow2(bits) && e.b < Pow2(bits) && e.c < Pow2(bits)
    ensures CompressQuat(DecompressQuat(e, bits), bits) == e <==>
            LargestOf(Components(DecompressQuat(e, bits)), 4) == e.largest
  {
    var s := Components(DecompressQuat(e, bits));
    var a, b, c := UnitValue(e.a, bits), UnitValue(e.b, bits), UnitValue(e.c, bits);
    UnitRoundTrip(e.a, bits);
    UnitRoundTrip(e.b, bits);
    UnitRoundTrip(e.c, bits);
    OmittedSign(a, b, c);
    DecodedComponents(e, bits);
    hide UnitValue, UnitIndex, Omitted, LargestOf, Kept, DecompressQuat, Components, Pow2;
    if LargestOf(s, 4) == e.largest {
      assert s[e.largest] >= 0;
    }
  }

  lemma DecodedComponents(e: SmallestThree, bits: nat)
    requires bits > 0 && e.largest < 4
    ensures var s := Components(DecompressQuat(e, bits));
            var a, b, c := UnitValue(e.a, bits), UnitValue(e.b, bits), UnitValue(e.c, bits);
            s[e.largest] == Omitted(a, b, c) && Kept(s, e.largest) == [a, b, c]
  {
    hide UnitValue, Omitted;
  }

  lemma OmittedSign(a: Fx, b: Fx, c: Fx)
    ensures Omitted(a, b, c) >= 0
  {
    hide Mul, Add, Sub;
  }

  // ----- what compression keeps -----

  /** Within half a step of the component, and the rounding of the step itself. */
  predicate NearUnitValue(held: int, v: int, bits: nat) {
    var range: nat := Pow2(bits) - 1;
    2 * range * Size(held - v) <= 2 * FRAC_1_SQRT_2 + range
  }

  lemma UnitIndexIs(v: Fx, bits: nat)
    requires -FRAC_1_SQRT_2 <= v <= FRAC_1_SQRT_2
    ensures var range: nat := Pow2(bits) - 1;
            UnitIndex(v, bits) == ((v + FRAC_1_SQRT_2) * range + FRAC_1_SQRT_2) / (2 * FRAC_1_SQRT_2) <= range
  {
    var range: nat := Pow2(bits) - 1;
    NearestIndex(v + FRAC_1_SQRT_2, range, ((v + FRAC_1_SQRT_2) * range + FRAC_1_SQRT_2) / (2 * FRAC_1_SQRT_2));
  }

  lemma UnitNear(v: Fx, bits: nat)
    requires bits > 0 && -FRAC_1_SQRT_2 <= v <= FRAC_1_SQRT_2
    ensures UnitIndex(v, bits) < Pow2(bits)
    ensures NearUnitValue(UnitValue(UnitIndex(v, bits), bits), v, bits)
  {
    var range: nat := Pow2(bits) - 1;
    var q := UnitIndex(v, bits);
    UnitIndexIs(v, bits);
    hide UnitIndex, Pow2;
    NearestIndex(v + FRAC_1_SQRT_2, range, q);
    UnitValueIs(q, bits);
    hide UnitValue;
    NearestValue(v + FRAC_1_SQRT_2, range, q);
  }

  lemma NearestIndex(u: nat, range: nat, q: int)
    requires u <= 2 * FRAC_1_SQRT_2 && q == (u * range + FRAC_1_SQRT_2) / (2 * FRAC_1_SQRT_2)
    ensures 0 <= q <= range
    ensures 2 * FRAC_1_SQRT_2 * q - FRAC_1_SQRT_2 <= u * range < 2 * FRAC_1_SQRT_2 * q + FRAC_1_SQRT_2
  {
    MulLess(range, u, 2 * FRAC_1_SQRT_2);
    assert u * range == range * u && range * (2 * FRAC_1_SQRT_2) == 2 * FRAC_1_SQRT_2 * range;
  }

  lemma NearestValue(u: nat, range: nat, q: nat)
    requires range > 0
    requires 2 * FRAC_1_SQRT_2 * q - FRAC_1_SQRT_2 <= u * range < 2 * FRAC_1_SQRT_2 * q + FRAC_1_SQRT_2
    ensures 2 * range * Size((q * 2 * FRAC_1_SQRT_2 + range / 2) / range - u) <= 2 * FRAC_1_SQRT_2 + range
  {
    var n := q * 2 * FRAC_1_SQRT_2 + range / 2;
    var w := n / range;
    assert n == range * w + n % range;
    var d := w - u;
    assert range * d == range * w - u * range;
    assert range * Size(d) == Size(range * d);
    assert 2 * range * Size(d) == 2 * (range * Size(d));
  }

  /** Every component but the first largest fits the range the indices cover, as it does in
      any rotation. */
  predicate KeptFit(s: seq<Fx>)
    requires |s| == 4
  {
    forall j :: 0 <= j < 4 && j != LargestOf(s, 4) ==> -FRAC_1_SQRT_2 <= s[j] <= FRAC_1_SQRT_2
  }

  /** A rotation comes back as itself or its negation, which is the same rotation: the omitted
      component is not negative, and each kept one is near the original's, negated exactly
      when the omitted one was negative. */
  lemma RotationKept(q: Quat, bits: nat, i: nat)
    requires bits > 0 && i < 4 && KeptFit(Components(q))
    ensures var s, held := Components(q), Components(DecompressQuat(CompressQuat(q, bits), bits));
            var largest := LargestOf(s, 4);
            if i == largest then held[i] >= 0
            else NearUnitValue(held[i], if s[largest] < 0 then -s[i] else s[i], bits)
  {
    hide UnitValue, UnitIndex, Omitted, LargestOf, DecompressQuat, Components, Pow2, NearUnitValue;
    var s, e := Components(q), CompressQuat(q, bits);
    var largest := LargestOf(s, 4);
    var k := Kept(s, largest);
    var held := Components(DecompressQuat(e, bits));
    DecodedComponents(e, bits);
    OmittedSign(UnitValue(e.a, bits), UnitValue(e.b, bits), UnitValue(e.c, bits));
    if i != largest {
      var n := if i < largest then i else i - 1;
      assert k[n] == s[i];
      assert Kept(held, largest)[n] == held[i];
      UnitNear(if s[largest] < 0 then Neg(k[n]) else k[n], bits);
    }
  }

  const ROTATION := Quat(1938644300, 983064032, -2619392745, -2619306989)
  const HELD := Quat(-1938574122, -982646301, 2617527292, 2621379708)

  lemma RotationSent()
    ensures CompressQuat(ROTATION, 10) == SmallestThree(2, 185, 346, 953)
  {
    assert Pow2(10) == 1024;
    assert LargestOf(Components(ROTATION), 4) == 2;
    assert Kept(Components(ROTATION), 2) == [ROTATION.x, ROTATION.y, ROTATION.w];
  }

  lemma HeldComponents()
    ensures UnitValue(185, 10) == HELD.x && UnitValue(346, 10) == HELD.y && UnitValue(953, 10) == HELD.w
  {
    assert Pow2(10) == 1024;
  }

  lemma RotationHeld()
    ensures DecompressQuat(SmallestThree(2, 185, 346, 953), 10) == HELD
  {
    HeldComponents();
    hide UnitValue, Pow2, Isqrt;
    var left: Fx := ONE - (Mul(HELD.x, HELD.x) + Mul(HELD.y, HELD.y) + Mul(HELD.w, HELD.w));
    IsqrtUnique(left * ONE, HELD.z);
  }

  lemma RotationSentAgain()
    ensures CompressQuat(HELD, 10) == SmallestThree(3, 185, 346, 952)
  {
    assert Pow2(10) == 1024;
    assert LargestOf(Components(HELD), 4) == 3;
    assert Kept(Components(HELD), 3) == [HELD.x, HELD.y, HELD.z];
  }

  /** Decoding and encoding again is not the identity: this rotation, as a receiver holds
      it at ten bits a component, changes when it is compressed a second time. */
  lemma RecompressionDrifts()
    ensures var held := DecompressQuat(CompressQuat(ROTATION, 10), 10);
            DecompressQuat(CompressQuat(held, 10), 10) != held
  {
    RotationSent();
    RotationHeld();
    RotationSentAgain();
    hide CompressQuat, Omitted;
    assert Pow2(10) == 1024;
    assert DecompressQuat(SmallestThree(3, 185, 346, 952), 10).z == UnitValue(952, 10);
  }
}
