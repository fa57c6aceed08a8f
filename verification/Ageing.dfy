/** What letting the gain grow with age buys: a candidate's longest wait goes with the square
    root of the ratio between gains, not with the ratio. */
module Ageing {
  import opened Common
  import opened Fixed
  import opened Priority
  import opened Starvation

  /** The staleness factor before anything saturates: one, and one more each scale's worth of
      ticks. */
  lemma StalenessIs(ticks: nat, scale: Fx)
    requires scale >= ONE && ticks < I32_MAX
    ensures 0 <= ticks * ONE * ONE / scale <= ticks * ONE
    ensures Staleness(ticks, scale) == ONE + ticks * ONE * ONE / scale
  {
    var x: nat := ticks * ONE;
    QuotientNonNegative(x * ONE, scale);
    MulLess(x, ONE, scale);
    DivAtMost(x * ONE, scale, x) by { assert scale * (x + 1) == scale * x + scale; }
    DivNat(x, scale);
  }

  /** An entity at least a scale old, `2 * m` times as old, is at least `m` times as stale. */
  lemma StalerByAge(scale: Fx, span: nat, b: nat, m: nat)
    requires ONE <= scale <= span * ONE && b >= span && m >= 1 && 2 * m * b < I32_MAX
    ensures Staleness(2 * m * b, scale) >= m * Staleness(b, scale)
  {
    hide Staleness;
    var n: nat := b * ONE * ONE;
    var older: nat := 2 * m * b;
    Twice(m, b);
    StalenessIs(b, scale);
    StalenessIs(older, scale);
    SpanReached(scale, span, b);
    QuotientScales(n, scale, 2 * m);
    HalfEach(m, n / scale);
  }

  lemma Twice(m: nat, b: nat)
    requires m >= 1
    ensures b <= 2 * m * b && 2 * m * b * ONE * ONE == 2 * m * (b * ONE * ONE)
  {
    MulLess(b, 1, 2 * m);
  }

  lemma SpanReached(scale: Fx, span: nat, b: nat)
    requires ONE <= scale <= span * ONE && b >= span
    ensures b * ONE * ONE / scale >= ONE
  {
    var n: nat := b * ONE * ONE;
    MulLess(ONE, scale, b * ONE);
    assert scale * ONE <= n;
    var v := n / scale;
    assert n == scale * v + n % scale && scale * (v + 1) == scale * v + scale;
    if v < ONE {
      MulLess(scale, v + 1, ONE);
    }
  }

  lemma HalfEach(m: nat, x: nat)
    requires x >= ONE
    ensures ONE + 2 * m * x >= m * (ONE + x)
  {
    MulLess(m, ONE, x);
    assert 2 * m * x == m * x + m * x && m * (ONE + x) == m * ONE + m * x;
  }

  lemma QuotientScales(n: nat, d: nat, k: nat)
    requires d > 0
    ensures (k * n) / d >= k * (n / d)
  {
    var q, r := n / d, n % d;
    assert k * n == d * (k * q) + k * r by {
      assert n == d * q + r;
      assert k * (d * q) == d * (k * q);
    }
    var v := (k * n) / d;
    assert k * n == d * v + (k * n) % d;
    assert d * (v + 1) == d * v + d;
    if v < k * q {
      MulLess(d, v + 1, k * q);
    }
  }

  lemma HeavierByAge(low: Fx, scale: Fx, span: nat, b: nat, m: nat)
    requires low > 0 && ONE <= scale <= span * ONE && b >= span && m >= 1 && 2 * m * b < I32_MAX
    requires Weight(low, scale, 2 * m * b) < MAX
    ensures Weight(low, scale, 2 * m * b) >= m * Weight(low, scale, b)
  {
    hide Staleness;
    var st, older := Staleness(b, scale), Staleness(2 * m * b, scale);
    StalerByAge(scale, span, b, m);
    WeightOrder(low, scale, b, b);
    StalenessOrder(b, b, scale);
    MulLess(low, m * st, older);
    assert low * (m * st) == m * (low * st);
    QuotientScales(low * st, ONE, m);
    QuotientOrder(m * (low * st), low * older, ONE);
    AtMostQuotient(low * st, m);
  }

  lemma AtMostQuotient(n: nat, m: nat)
    ensures m * Sat(n / ONE) <= m * (n / ONE)
  {
    MulLess(m, Sat(n / ONE), n / ONE);
  }

  lemma {:induction false} SumAbove(low: Fx, scale: Fx, x: nat, n: nat)
    requires low > 0 && scale > 0
    ensures WeightSum(low, scale, x + n) >= n * Weight(low, scale, x)
    decreases n
  {
    hide Weight;
    if n > 0 {
      SumAbove(low, scale, x, n - 1);
      WeightOrder(low, scale, x, x + n);
      assert n * Weight(low, scale, x) == (n - 1) * Weight(low, scale, x) + Weight(low, scale, x);
    } else {
      WeightSumGrows(low, scale, 0, x);
    }
  }

  lemma {:induction false} SumBelow(low: Fx, scale: Fx, b: nat)
    requires low > 0 && scale > 0
    ensures WeightSum(low, scale, b) <= b * Weight(low, scale, b)
    decreases b
  {
    hide Weight;
    if b > 0 {
      SumBelow(low, scale, b - 1);
      WeightOrder(low, scale, b - 1, b);
      MulLess(b - 1, Weight(low, scale, b - 1), Weight(low, scale, b));
      assert b * Weight(low, scale, b) == (b - 1) * Weight(low, scale, b) + Weight(low, scale, b);
    }
  }

  /** Past one scale, a candidate `4 * m` times as old has scored at least `2 * m * m` times as
      much. */
  lemma ScoreGrowsSquare(low: Fx, scale: Fx, span: nat, b: nat, m: nat)
    requires low > 0 && ONE <= scale <= span * ONE && b >= span && m >= 1 && 4 * m * b < I32_MAX
    requires WeightSum(low, scale, 4 * m * b) < MAX
    ensures WeightSum(low, scale, 4 * m * b) >= 2 * m * m * WeightSum(low, scale, b)
  {
    hide Weight, WeightSum;
    var x: nat := 2 * m * b;
    assert x + x == 4 * m * b;
    SumAbove(low, scale, x, x);
    SumBelow(low, scale, b);
    MulLess(b, 1, 2 * m);
    WeightOrder(low, scale, x, x);
    var w, older := Weight(low, scale, b), Weight(low, scale, x);
    MulLess(older, 1, x);
    HeavierByAge(low, scale, span, b, m);
    MulLess(x, m * w, older);
    assert x * (m * w) == 2 * m * m * (b * w);
    MulLess(2 * m * m, WeightSum(low, scale, b), b * w);
  }

  lemma SquareOutgrows(ratio: nat, m: nat, sum: nat, later: int)
    requires 1 <= ratio <= m * m && sum >= 1 && later >= 2 * m * m * sum
    ensures later > (2 * ratio - 1) * sum
  {
    MulLess(sum, 2 * ratio, 2 * (m * m));
    assert 2 * m * m * sum == sum * (2 * (m * m));
    assert sum * (2 * ratio) == (2 * ratio - 1) * sum + sum;
  }

  /** What can outrank a candidate that has waited `t` ticks, `t` long enough, is more than
      `t / (4 * m)` ticks old itself, for any `m` whose square reaches the ratio. */
  lemma AgedOutrankingAge(low: Fx, scale: Fx, span: nat, ratio: nat, m: nat, a: nat, t: nat)
    requires low > 0 && ONE <= scale <= span * ONE && 1 <= ratio <= m * m && m >= 1 && a >= 1
    requires 4 * m * span <= t < I32_MAX && WeightSum(low, scale, t) < MAX
    requires (2 * ratio - 1) * WeightSum(low, scale, a) >= WeightSum(low, scale, t)
    ensures 4 * m * a > t
  {
    hide Weight, WeightSum;
    if 4 * m * a <= t {
      var b := if a < span then span else a;
      assert 4 * m * b <= t;
      WeightSumGrows(low, scale, a, b);
      WeightSumGrows(low, scale, 4 * m * b, t);
      ScoreGrowsSquare(low, scale, span, b, m);
      var sum := WeightSum(low, scale, b);
      SquareOutgrows(ratio, m, sum, WeightSum(low, scale, 4 * m * b));
      MulLess(2 * ratio - 1, WeightSum(low, scale, a), sum);
    }
  }

  lemma AgedBlockerAge(acc: Accumulator, observer: Entity, rounds: seq<Round>, entities: set<Entity>, low: Fx, ratio: nat,
                       span: nat, m: nat, e: Entity, f: Entity, t1: nat, t: nat)
    requires AllContested(rounds, entities, low, ratio) && e in entities && f in entities
    requires low > 0 && ONE <= acc.scale <= span * ONE && 1 <= ratio <= m * m && m >= 1 && t1 < t < |rounds|
    requires 4 * m * span <= t + 1 < I32_MAX
    requires EntryOf(acc, observer, e).score >= 0
    requires forall s: nat :: s < t ==> e !in SentAt(acc, observer, rounds, s)
    requires forall s: nat :: s <= t ==> EntryOf(ScoredAt(acc, observer, rounds, s), observer, e).score < MAX
    requires f in SentAt(acc, observer, rounds, t1)
    requires EntryOf(ScoredAt(acc, observer, rounds, t), observer, f).score >=
             EntryOf(ScoredAt(acc, observer, rounds, t), observer, e).score
    ensures 4 * m * (t - t1) > t + 1
  {
    hide EntryOf, WeightSum, SentAt, ScoredAt, Contested;
    SinceSent(acc, observer, rounds, entities, low, ratio, f, t1, t);
    WhileWaiting(acc, observer, rounds, entities, low, ratio, e, t);
    AgedOutrankingAge(low, acc.scale, span, ratio, m, t - t1, t + 1);
  }

  /** The longest wait under ageing, `count` candidates competing. */
  function AgedWait(count: nat, span: nat, m: nat): nat
    requires count >= 1
  {
    2 * (4 * m * if count - 1 < span then span else count - 1)
  }

  /** No long starvation: where the staleness scale is `span` ticks or less, and at least one,
      a candidate is sent within `8 * m * max(|entities| - 1, span) + 1` ticks, for any `m` whose
      square reaches the ratio between gains. */
  lemma NoLongStarvation(acc: Accumulator, observer: Entity, rounds: seq<Round>, entities: set<Entity>, low: Fx,
                         ratio: nat, span: nat, m: nat, e: Entity)
    requires AllContested(rounds, entities, low, ratio) && e in entities
    requires low > 0 && ONE <= acc.scale <= span * ONE && 1 <= ratio <= m * m && m >= 1
    requires EntryOf(acc, observer, e).score >= 0
    requires forall s: nat :: s < |rounds| ==> EntryOf(ScoredAt(acc, observer, rounds, s), observer, e).score < MAX
    requires |rounds| == AgedWait(|entities|, span, m) + 1 < I32_MAX
    ensures exists t: nat :: t < |rounds| && e in SentAt(acc, observer, rounds, t)
  {
    hide EntryOf, ScoredAt, SentAt, Contested;
    if forall t: nat :: t < |rounds| ==> e !in SentAt(acc, observer, rounds, t) {
      var others := entities - {e};
      var share := 4 * m;
      assert |others| == |entities| - 1;
      var most := if |others| < span then span else |others|;
      var half := share * most;
      assert |rounds| == 2 * half + 1;
      MulLess(share, |others|, most);
      MulLess(share, span, most);
      assert 4 * m * span <= half;
      var bs := Blockers(acc, observer, rounds, entities, low, ratio, e, half, half + 1);
      assert |others| * share == share * |others|;
      var f := Pigeonhole(bs, others, share);
      forall i, j | 0 <= i < j < |bs| && bs[i] == f && bs[j] == f
        ensures share * (j - i) >= half + 2
      {
        AgedBlockerAge(acc, observer, rounds, entities, low, ratio, span, m, e, f, half + i, half + j);
      }
      var last := Spread(bs, f, share, half + 2);
      TooFar(share, half, Count(bs, f) - 1, last);
    }
  }
}
