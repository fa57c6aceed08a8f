/** Quantization: the smallest integer that carries the declared precision. Every
    computation is exact integer arithmetic on raw values. */
module Quantization {
  import opened Common
  import opened Fixed
  import opened Bits

  /** A declared range: what `validate` accepts. */
  ghost predicate RangeValid(min: Fx, max: Fx, step: Fx) {
    step > 0 && min < max
  }

  function MaxIndex(min: Fx, max: Fx, step: Fx): (n: nat)
    requires step > 0 && min < max
    ensures n < U64
    ensures n * step <= max - min < (n + 1) * step
  {
    var n := (max - min) / step;
    SpanSteps(max - min, step, n);
    n
  }

  lemma SpanSteps(span: nat, step: nat, n: int)
    requires step > 0 && n == span / step
    ensures 0 <= n <= span && n * step <= span < (n + 1) * step
  {
    assert span == step * n + span % step;
    assert (n + 1) * step == n * step + step;
    if n < 0 {
      MulAtLeast(step, -n);
    }
    if n > span {
      MulAtLeast(step, n - span);
      assert step * n == step * (n - span) + step * span;
      assert step * span >= span by { MulAtLeastRight(step, span); }
    }
  }

  lemma MulAtLeastRight(step: nat, span: nat)
    requires step >= 1
    ensures step * span >= span
  {
    assert (step - 1) * span >= 0;
    assert step * span == (step - 1) * span + span;
  }

  function BitWidth(n: nat): (b: nat)
    ensures n < Pow2(b)
  {
    if n == 0 then 0 else BitWidth(n / 2) + 1
  }

  lemma {:induction false} BitWidthBound(n: nat, b: nat)
    requires n < Pow2(b)
    ensures BitWidth(n) <= b
  {
    if n > 0 {
      BitWidthBound(n / 2, b - 1);
    }
  }

  function QuantizedBits(min: Fx, max: Fx, step: Fx): (b: nat)
    requires step > 0 && min < max
    ensures b <= 64
  {
    Pow2Values();
    BitWidthBound(MaxIndex(min, max, step), 64);
    BitWidth(MaxIndex(min, max, step))
  }

  /** Rounds half away from zero; values outside the range saturate into it. */
  function Quantize(v: Fx, min: Fx, max: Fx, step: Fx): (q: nat)
    requires step > 0 && min < max
    ensures q <= MaxIndex(min, max, step)
  {
    var num := Clamp(v, min, max) - min;
    var rounded := (num + step / 2) / step;
    var hi := MaxIndex(min, max, step);
    if rounded < 0 then 0 else if rounded > hi then hi else rounded
  }

  function Dequantize(q: nat, min: Fx, step: Fx): Fx {
    Sat(min + q * step)
  }

  /** The values the receiver can hold, exactly: no index in range saturates. */
  lemma DequantizeExact(q: nat, min: Fx, max: Fx, step: Fx)
    requires step > 0 && min < max && q <= MaxIndex(min, max, step)
    ensures Dequantize(q, min, step) == min + q * step
    ensures min <= Dequantize(q, min, step) <= max
  {
    MulOrder(q, MaxIndex(min, max, step), step);
  }

  lemma MulOrder(a: nat, b: nat, m: nat)
    requires a <= b
    ensures 0 <= a * m <= b * m
  {
    assert (b - a) * m >= 0;
    assert b * m == a * m + (b - a) * m;
  }

  /** A quantized index always fits the width the schema declares for it. */
  lemma QuantizedFits(v: Fx, min: Fx, max: Fx, step: Fx)
    requires step > 0 && min < max
    ensures Quantize(v, min, max, step) < Pow2(QuantizedBits(min, max, step))
  {
  }

  /** Quantizing what the receiver holds gives back the same index. */
  lemma QuantizeIdempotent(q: nat, min: Fx, max: Fx, step: Fx)
    requires step > 0 && min < max && q <= MaxIndex(min, max, step)
    ensures Quantize(Dequantize(q, min, step), min, max, step) == q
  {
    DequantizeExact(q, min, max, step);
    DivModUnique(q * step + step / 2, step, q, step / 2);
  }

  function Distance(a: int, b: int): nat {
    if a < b then b - a else a - b
  }

  /** Quantization as a rounded division on the clamped span. */
  lemma QuantizeForm(v: Fx, min: Fx, max: Fx, step: Fx) returns (num: nat, hi: nat)
    requires step > 0 && min < max
    ensures num == Clamp(v, min, max) - min && hi == MaxIndex(min, max, step)
    ensures num < (hi + 1) * step
    ensures var rounded := (num + step / 2) / step;
            Quantize(v, min, max, step) == if rounded > hi then hi else rounded
  {
    num, hi := Clamp(v, min, max) - min, MaxIndex(min, max, step);
    SpanSteps(num + step / 2, step, (num + step / 2) / step);
  }

  /** The rounding step, on a span already clamped into the range. */
  lemma RoundedNear(num: nat, step: nat, hi: nat, q: nat, j: nat)
    requires step > 0 && num < (hi + 1) * step && j <= hi
    requires var rounded := (num + step / 2) / step; q == if rounded > hi then hi else rounded
    ensures Distance(num, q * step) < step
    ensures q < hi || num <= hi * step ==> 2 * Distance(num, q * step) <= step
    ensures Distance(num, q * step) <= Distance(num, j * step)
  {
    var rounded := (num + step / 2) / step;
    SpanSteps(num + step / 2, step, rounded);
    NextMultiple(rounded, step);
    NextMultiple(hi, step);
    MultiplesApart(hi, rounded, step);
    MultiplesApart(j, q, step);
    MultiplesApart(q, j, step);
  }

  lemma NextMultiple(a: nat, step: nat)
    ensures (a + 1) * step == a * step + step
  {
  }

  lemma MultiplesApart(a: nat, b: nat, step: nat)
    ensures a < b ==> a * step + step <= b * step
  {
    if a < b {
      NextMultiple(a, step);
      MulOrder(a + 1, b, step);
    }
  }

  /** The index sent is the nearest one there is, for values in the range and out of it. */
  lemma QuantizeNearest(v: Fx, min: Fx, max: Fx, step: Fx, j: nat)
    requires step > 0 && min < max && j <= MaxIndex(min, max, step)
    ensures Distance(v, Dequantize(Quantize(v, min, max, step), min, step)) <= Distance(v, Dequantize(j, min, step))
  {
    hide Quantize, MaxIndex, Dequantize;
    var q := Quantize(v, min, max, step);
    DequantizeExact(q, min, max, step);
    DequantizeExact(j, min, max, step);
    RoundedNearest(v, min, max, step, j);
    RoundedNearest(v, min, max, step, 0);
    ClampNear(v, Clamp(v, min, max), min, max, q * step, j * step);
  }

  lemma RoundedNearest(v: Fx, min: Fx, max: Fx, step: Fx, j: nat)
    requires step > 0 && min < max && j <= MaxIndex(min, max, step)
    ensures Distance(Clamp(v, min, max) - min, Quantize(v, min, max, step) * step) <= Distance(Clamp(v, min, max) - min, j * step)
  {
    hide Quantize, MaxIndex;
    var num, hi := QuantizeForm(v, min, max, step);
    RoundedNear(num, step, hi, Quantize(v, min, max, step), j);
  }

  lemma ClampNear(v: int, c: int, min: int, max: int, a: int, b: int)
    requires c == if v < min then min else if v > max then max else v
    requires min <= min + a <= max && min <= min + b <= max
    requires Distance(c - min, a) <= Distance(c - min, b)
    requires Distance(c - min, a) <= Distance(c - min, 0)
    ensures Distance(v, min + a) <= Distance(v, min + b)
  {
  }

  /** Inside the range the error is under one step, and at most half a step except in
      a last, partial step. */
  lemma QuantizeError(v: Fx, min: Fx, max: Fx, step: Fx)
    requires step > 0 && min < max && min <= v <= max
    ensures var held := Dequantize(Quantize(v, min, max, step), min, step);
            && Distance(v, held) < step
            && (v <= min + MaxIndex(min, max, step) * step ==> 2 * Distance(v, held) <= step)
  {
    hide Quantize, MaxIndex, Dequantize;
    var q := Quantize(v, min, max, step);
    var num, hi := QuantizeForm(v, min, max, step);
    RoundedNear(num, step, hi, q, 0);
    DequantizeExact(q, min, max, step);
  }
}
