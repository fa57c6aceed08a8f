/** No candidate starves: how long one can be passed over depends only on how many compete
    and how far apart their gains are. */
module Starvation {
  import opened Common
  import opened Fixed
  import opened Priority

  /** One tick for one observer: every candidate accumulates once, then the budget is spent. */
  datatype Round = Round(amounts: map<Entity, Fx>, candidates: seq<(Entity, nat)>, budget: nat)

  ghost predicate Lists(r: Round, e: Entity) {
    exists i :: 0 <= i < |r.candidates| && r.candidates[i].0 == e
  }

  /** The same entities compete every tick, each fits the budget alone, and gains stay
      between `low` and `ratio` times `low`. */
  ghost predicate Contested(r: Round, entities: set<Entity>, low: Fx, ratio: nat) {
    && DistinctCandidates(r.candidates)
    && (forall e :: Lists(r, e) <==> e in entities)
    && (forall i :: 0 <= i < |r.candidates| ==> r.candidates[i].1 <= r.budget)
    && (forall e :: e in entities ==> e in r.amounts && low <= r.amounts[e] <= ratio * low)
  }

  function AccumulateAll(acc: Accumulator, observer: Entity, r: Round, n: nat): Accumulator
    requires n <= |r.candidates|
    requires forall i :: 0 <= i < |r.candidates| ==> r.candidates[i].0 in r.amounts
  {
    if n == 0 then acc
    else
      var e := r.candidates[n - 1].0;
      Accumulate(AccumulateAll(acc, observer, r, n - 1), observer, e, r.amounts[e])
  }

  predicate Priced(r: Round) {
    forall i :: 0 <= i < |r.candidates| ==> r.candidates[i].0 in r.amounts
  }

  function Scored(acc: Accumulator, observer: Entity, r: Round): Accumulator
    requires Priced(r)
  {
    AccumulateAll(acc, observer, r, |r.candidates|)
  }

  /** The accumulator before round `t`. */
  function Before(acc: Accumulator, observer: Entity, rounds: seq<Round>, t: nat): Accumulator
    requires t <= |rounds| && forall i :: 0 <= i < |rounds| ==> Priced(rounds[i])
  {
    if t == 0 then acc
    else
      var r := rounds[t - 1];
      Select(Scored(Before(acc, observer, rounds, t - 1), observer, r), observer, r.candidates, r.budget).0
  }

  function ScoredAt(acc: Accumulator, observer: Entity, rounds: seq<Round>, t: nat): Accumulator
    requires t < |rounds| && forall i :: 0 <= i < |rounds| ==> Priced(rounds[i])
  {
    Scored(Before(acc, observer, rounds, t), observer, rounds[t])
  }

  function SentAt(acc: Accumulator, observer: Entity, rounds: seq<Round>, t: nat): seq<Entity>
    requires t < |rounds| && forall i :: 0 <= i < |rounds| ==> Priced(rounds[i])
  {
    Select(ScoredAt(acc, observer, rounds, t), observer, rounds[t].candidates, rounds[t].budget).1.entities
  }

  // ----- what one tick adds -----

  function Weight(low: Fx, scale: Fx, age: nat): Fx {
    Mul(low, Staleness(age, scale))
  }

  /** The least a candidate scores over its first `age` ticks. */
  function WeightSum(low: Fx, scale: Fx, age: nat): int {
    if age == 0 then 0 else WeightSum(low, scale, age - 1) + Weight(low, scale, age)
  }

  function Capped(ticks: nat): nat {
    if ticks < I32_MAX then ticks else I32_MAX
  }

  lemma StalenessOrder(a: nat, b: nat, scale: Fx)
    requires scale > 0 && a <= b
    ensures ONE <= Staleness(a, scale) <= Staleness(b, scale)
  {
    hide Div, Add;
    FalloffOrder(scale, Capped(a) * ONE, Capped(b) * ONE);
  }

  lemma ProductOrder(a: nat, b: nat, x: nat, y: nat)
    requires a <= b && x <= y
    ensures a * x <= b * y
  {
    MulLess(a, x, y);
    MulLess(y, a, b);
  }

  lemma MulOrder(a: Fx, b: Fx, x: Fx, y: Fx)
    requires 0 <= a <= b && 0 <= x <= y
    ensures 0 <= Mul(a, x) <= Mul(b, y)
  {
    ProductOrder(a, b, x, y);
    QuotientOrder(a * x, b * y, ONE);
    QuotientNonNegative(a * x, ONE);
  }

  lemma WeightOrder(low: Fx, scale: Fx, a: nat, b: nat)
    requires low > 0 && scale > 0 && a <= b
    ensures 1 <= Weight(low, scale, a) <= Weight(low, scale, b)
  {
    hide Staleness;
    StalenessOrder(a, a, scale);
    StalenessOrder(a, b, scale);
    MulOrder(low, low, Staleness(a, scale), Staleness(b, scale));
    MulOrder(low, low, ONE, Staleness(a, scale));
    assert Mul(low, ONE) == low by { TimesOne(low); }
  }

  lemma TimesOne(x: Fx)
    ensures Mul(x, ONE) == x
  {
  }

  /** A gain within the ratio adds at least one weight and less than twice the ratio of
      them: flooring costs at most the one unit per weight. */
  lemma IncrementBounds(low: Fx, ratio: nat, amount: Fx, scale: Fx, ticks: nat)
    requires low > 0 && scale > 0 && ratio >= 1 && low <= amount <= ratio * low
    ensures var inc, w := Mul(amount, Staleness(ticks, scale)), Weight(low, scale, ticks);
            w <= inc <= (2 * ratio - 1) * w
  {
    hide Staleness;
    var st := Staleness(ticks, scale);
    StalenessOrder(ticks, ticks, scale);
    WeightOrder(low, scale, ticks, ticks);
    MulOrder(low, amount, st, st);
    FloorRatio(low * st, ratio, amount * st) by {
      ProductOrder(low, low, ONE, st);
      ProductOrder(amount, ratio * low, st, st);
      assert ratio * low * st == ratio * (low * st);
    }
    SatRatio(low * st / ONE, 2 * ratio - 1, amount * st / ONE);
  }

  lemma FloorRatio(x: nat, ratio: nat, y: nat)
    requires ratio >= 1 && x >= ONE && y <= ratio * x
    ensures y / ONE <= (2 * ratio - 1) * (x / ONE)
  {
    var q := x / ONE;
    assert q >= 1;
    assert y <= ratio * x <= ratio * (ONE * q + (ONE - 1)) by {
      MulLess(ratio, x, ONE * q + (ONE - 1));
    }
    assert ratio * (ONE * q + (ONE - 1)) == ONE * (ratio * q + ratio) - ratio by {
      assert ratio * (ONE * q) == ONE * (ratio * q);
      assert ratio * (ONE - 1) == ONE * ratio - ratio;
      assert ratio * (ONE * q + (ONE - 1)) == ratio * (ONE * q) + ratio * (ONE - 1);
      assert ONE * (ratio * q + ratio) == ONE * (ratio * q) + ONE * ratio;
    }
    assert y / ONE <= ratio * q + ratio - 1;
    assert (2 * ratio - 1) * q == ratio * q + (ratio - 1) * q;
    MulLess(ratio - 1, 1, q);
  }

  lemma SatRatio(w: nat, k: nat, y: nat)
    requires w >= 1 && k >= 1 && y <= k * w
    ensures Sat(y) <= k * Sat(w)
  {
    if w > MAX {
      MulLess(MAX, 1, k);
    }
  }

  // ----- sums of weights -----

  lemma {:induction false} WeightSumGrows(low: Fx, scale: Fx, a: nat, b: nat)
    requires low > 0 && scale > 0 && a <= b
    ensures a <= WeightSum(low, scale, a) <= WeightSum(low, scale, b)
    decreases b
  {
    hide Weight;
    if b > 0 {
      WeightOrder(low, scale, b, b);
      if a == b {
        WeightSumGrows(low, scale, a - 1, a - 1);
      } else {
        WeightSumGrows(low, scale, a, b - 1);
      }
    }
  }

  lemma {:induction false} WeightSumSplits(low: Fx, scale: Fx, x: nat, a: nat)
    requires low > 0 && scale > 0
    ensures WeightSum(low, scale, x + a) >= WeightSum(low, scale, x) + WeightSum(low, scale, a)
    decreases a
  {
    hide Weight;
    if a > 0 {
      WeightSumSplits(low, scale, x, a - 1);
      WeightOrder(low, scale, a, x + a);
    }
  }

  /** An entity `d` times as old has scored at least `d` times as much. */
  lemma {:induction false} WeightSumScales(low: Fx, scale: Fx, d: nat, a: nat)
    requires low > 0 && scale > 0
    ensures WeightSum(low, scale, d * a) >= d * WeightSum(low, scale, a)
    decreases d
  {
    hide Weight;
    if d > 0 {
      WeightSumScales(low, scale, d - 1, a);
      assert (d - 1) * a + a == d * a;
      WeightSumSplits(low, scale, (d - 1) * a, a);
      assert d * WeightSum(low, scale, a) == (d - 1) * WeightSum(low, scale, a) + WeightSum(low, scale, a);
    } else {
      assert d * a == 0;
    }
  }

  /** What can outrank a candidate that has waited `t` ticks is more than `t / (2 * ratio)`
      ticks old itself. */
  lemma OutrankingAge(low: Fx, scale: Fx, ratio: nat, a: nat, t: nat)
    requires low > 0 && scale > 0 && ratio >= 1 && a >= 1
    requires (2 * ratio - 1) * WeightSum(low, scale, a) >= WeightSum(low, scale, t)
    ensures 2 * ratio * a > t
  {
    hide Weight, WeightSum;
    var w := WeightSum(low, scale, a);
    WeightSumGrows(low, scale, a, a);
    assert 2 * ratio * w == (2 * ratio - 1) * w + w;
    if 2 * ratio * a <= t {
      WeightSumScales(low, scale, 2 * ratio, a);
      WeightSumGrows(low, scale, 2 * ratio * a, t);
    }
  }

  // ----- one round, entity by entity -----

  lemma {:induction false} AccumulateAllEach(acc: Accumulator, observer: Entity, r: Round, n: nat, e: Entity)
    requires Priced(r) && DistinctCandidates(r.candidates) && n <= |r.candidates|
    ensures AccumulateAll(acc, observer, r, n).scale == acc.scale
    ensures EntryOf(AccumulateAll(acc, observer, r, n), observer, e) ==
            if exists i :: 0 <= i < n && r.candidates[i].0 == e
            then Grow(EntryOf(acc, observer, e), r.amounts[e], acc.scale) else EntryOf(acc, observer, e)
  {
    hide Grow;
    if n > 0 {
      AccumulateAllEach(acc, observer, r, n - 1, e);
      var last := r.candidates[n - 1].0;
      if last == e {
        assert !exists i :: 0 <= i < n - 1 && r.candidates[i].0 == e;
      } else if exists i :: 0 <= i < n && r.candidates[i].0 == e {
        var i :| 0 <= i < n && r.candidates[i].0 == e;
        assert i < n - 1;
      }
    }
  }

  lemma ScoredEach(acc: Accumulator, observer: Entity, r: Round, entities: set<Entity>, low: Fx, ratio: nat, e: Entity)
    requires Contested(r, entities, low, ratio) && e in entities
    ensures Priced(r)
    ensures Scored(acc, observer, r).scale == acc.scale
    ensures EntryOf(Scored(acc, observer, r), observer, e) == Grow(EntryOf(acc, observer, e), r.amounts[e], acc.scale)
  {
    hide Grow;
    forall i | 0 <= i < |r.candidates|
      ensures r.candidates[i].0 in r.amounts
    {
      assert Lists(r, r.candidates[i].0);
    }
    assert Lists(r, e);
    AccumulateAllEach(acc, observer, r, |r.candidates|, e);
  }

  ghost predicate AllContested(rounds: seq<Round>, entities: set<Entity>, low: Fx, ratio: nat) {
    forall i :: 0 <= i < |rounds| ==> Contested(rounds[i], entities, low, ratio) && Priced(rounds[i])
  }

  lemma RoundKeepsScale(acc: Accumulator, observer: Entity, r: Round, entities: set<Entity>, low: Fx, ratio: nat)
    requires Contested(r, entities, low, ratio) && Priced(r)
    ensures Select(Scored(acc, observer, r), observer, r.candidates, r.budget).0.scale == acc.scale
  {
    hide Select, AccumulateAll;
    AccumulateAllEach(acc, observer, r, |r.candidates|, observer);
    SelectKeeps(Scored(acc, observer, r), observer, r.candidates, r.budget);
  }

  lemma {:induction false} ScaleKept(acc: Accumulator, observer: Entity, rounds: seq<Round>, entities: set<Entity>,
                                     low: Fx, ratio: nat, t: nat)
    requires AllContested(rounds, entities, low, ratio) && t <= |rounds|
    ensures Before(acc, observer, rounds, t).scale == acc.scale
  {
    hide Select, Scored, Contested;
    if t > 0 {
      ScaleKept(acc, observer, rounds, entities, low, ratio, t - 1);
      RoundKeepsScale(Before(acc, observer, rounds, t - 1), observer, rounds[t - 1], entities, low, ratio);
    }
  }

  /** The next round starts a sent entity over and leaves any other as it was. */
  lemma NextEntry(acc: Accumulator, observer: Entity, rounds: seq<Round>, entities: set<Entity>, low: Fx, ratio: nat,
                  t: nat, e: Entity)
    requires AllContested(rounds, entities, low, ratio) && t < |rounds|
    ensures EntryOf(Before(acc, observer, rounds, t + 1), observer, e) ==
            if e in SentAt(acc, observer, rounds, t) then NEW_ENTRY
            else EntryOf(ScoredAt(acc, observer, rounds, t), observer, e)
  {
    hide Select, Scored, EntryOf;
    SelectKeeps(ScoredAt(acc, observer, rounds, t), observer, rounds[t].candidates, rounds[t].budget);
  }

  /** A score this many ticks after a reset is at most the heaviest possible. */
  lemma {:induction false} SinceSent(acc: Accumulator, observer: Entity, rounds: seq<Round>, entities: set<Entity>,
                                     low: Fx, ratio: nat, f: Entity, t1: nat, t: nat)
    requires AllContested(rounds, entities, low, ratio) && f in entities
    requires low > 0 && ratio >= 1 && acc.scale > 0
    requires t1 < t < |rounds| && f in SentAt(acc, observer, rounds, t1)
    ensures var entry := EntryOf(ScoredAt(acc, observer, rounds, t), observer, f);
            && entry.ticks <= t - t1
            && 0 <= entry.score <= (2 * ratio - 1) * WeightSum(low, acc.scale, t - t1)
    decreases t
  {
    hide EntryOf, Weight, WeightSum, SentAt, ScoredAt, Before, Scored, Contested, Grow;
    var scale, k := acc.scale, 2 * ratio - 1;
    NextEntry(acc, observer, rounds, entities, low, ratio, t - 1, f);
    ScaleKept(acc, observer, rounds, entities, low, ratio, t);
    var before := EntryOf(Before(acc, observer, rounds, t), observer, f);
    if t - 1 > t1 {
      SinceSent(acc, observer, rounds, entities, low, ratio, f, t1, t - 1);
    }
    WeightSumGrows(low, scale, 0, t - t1 - 1);
    assert 0 <= before.score <= k * WeightSum(low, scale, t - t1 - 1) by {
      assert k * WeightSum(low, scale, t - t1 - 1) >= 0;
    }
    ScoredFrom(acc, observer, rounds, entities, low, ratio, t, f);
    GrowAtMost(before, rounds[t].amounts[f], low, ratio, scale, t - t1);
  }

  lemma ScoredFrom(acc: Accumulator, observer: Entity, rounds: seq<Round>, entities: set<Entity>, low: Fx, ratio: nat,
                   t: nat, e: Entity)
    requires AllContested(rounds, entities, low, ratio) && e in entities && t < |rounds|
    ensures e in rounds[t].amounts && low <= rounds[t].amounts[e] <= ratio * low
    ensures EntryOf(ScoredAt(acc, observer, rounds, t), observer, e) ==
            Grow(EntryOf(Before(acc, observer, rounds, t), observer, e), rounds[t].amounts[e], acc.scale)
  {
    hide EntryOf, Before, Scored, Grow;
    ScaleKept(acc, observer, rounds, entities, low, ratio, t);
    ScoredEach(Before(acc, observer, rounds, t), observer, rounds[t], entities, low, ratio, e);
  }

  lemma GrowAtMost(entry: Entry, amount: Fx, low: Fx, ratio: nat, scale: Fx, age: nat)
    requires low > 0 && scale > 0 && ratio >= 1 && low <= amount <= ratio * low && age >= 1
    requires entry.ticks <= age - 1
    requires 0 <= entry.score <= (2 * ratio - 1) * WeightSum(low, scale, age - 1)
    ensures var g := Grow(entry, amount, scale);
            g.ticks <= age && 0 <= g.score <= (2 * ratio - 1) * WeightSum(low, scale, age)
  {
    hide Weight, Staleness, Mul, WeightSum;
    var g, k := Grow(entry, amount, scale), 2 * ratio - 1;
    var w, before := Weight(low, scale, age), WeightSum(low, scale, age - 1);
    WeightSumNext(low, scale, age);
    IncrementBounds(low, ratio, amount, scale, g.ticks);
    WeightOrder(low, scale, g.ticks, g.ticks);
    WeightOrder(low, scale, g.ticks, age);
    MulLess(k, Weight(low, scale, g.ticks), w);
    Distributes(k, before, w);
  }

  lemma WeightSumNext(low: Fx, scale: Fx, age: nat)
    requires age >= 1
    ensures WeightSum(low, scale, age) == WeightSum(low, scale, age - 1) + Weight(low, scale, age)
  {
  }

  lemma Distributes(k: int, a: int, b: int)
    ensures k * (a + b) == k * a + k * b
  {
  }

  lemma GrowAtLeast(entry: Entry, amount: Fx, low: Fx, ratio: nat, scale: Fx, age: nat)
    requires low > 0 && scale > 0 && ratio >= 1 && low <= amount <= ratio * low && age >= 1
    requires entry.ticks >= age - 1 || entry.ticks >= I32_MAX
    requires entry.score >= WeightSum(low, scale, age - 1)
    requires Grow(entry, amount, scale).score < MAX
    ensures var g := Grow(entry, amount, scale);
            (g.ticks >= age || g.ticks >= I32_MAX) && g.score >= WeightSum(low, scale, age)
  {
    hide Weight, Staleness, Mul;
    var g := Grow(entry, amount, scale);
    IncrementBounds(low, ratio, amount, scale, g.ticks);
    if g.ticks >= age {
      WeightOrder(low, scale, age, g.ticks);
    } else {
      WeightOrder(low, scale, age, age);
      assert Weight(low, scale, g.ticks) == Weight(low, scale, age) by {
        StalenessCapped(g.ticks, age, scale);
      }
    }
    WeightSumGrows(low, scale, 0, age - 1);
  }

  lemma StalenessCapped(a: nat, b: nat, scale: Fx)
    requires a >= I32_MAX && b >= I32_MAX
    ensures forall low: Fx :: Weight(low, scale, a) == Weight(low, scale, b)
  {
  }

  /** A candidate passed over so far has scored at least the lightest possible. */
  lemma {:induction false} WhileWaiting(acc: Accumulator, observer: Entity, rounds: seq<Round>, entities: set<Entity>,
                                        low: Fx, ratio: nat, e: Entity, t: nat)
    requires AllContested(rounds, entities, low, ratio) && e in entities
    requires low > 0 && ratio >= 1 && acc.scale > 0 && t < |rounds|
    requires EntryOf(acc, observer, e).score >= 0
    requires forall s: nat :: s < t ==> e !in SentAt(acc, observer, rounds, s)
    requires forall s: nat :: s <= t ==> EntryOf(ScoredAt(acc, observer, rounds, s), observer, e).score < MAX
    ensures var entry := EntryOf(ScoredAt(acc, observer, rounds, t), observer, e);
            && (entry.ticks >= t + 1 || entry.ticks >= I32_MAX)
            && entry.score >= WeightSum(low, acc.scale, t + 1)
  {
    hide EntryOf, Weight, WeightSum, SentAt, ScoredAt, Scored, Contested, Grow;
    var before := EntryOf(Before(acc, observer, rounds, t), observer, e);
    if t > 0 {
      WhileWaiting(acc, observer, rounds, entities, low, ratio, e, t - 1);
      NextEntry(acc, observer, rounds, entities, low, ratio, t - 1, e);
    } else {
      NoWeight(low, acc.scale);
    }
    ScoredFrom(acc, observer, rounds, entities, low, ratio, t, e);
    GrowAtLeast(before, rounds[t].amounts[e], low, ratio, acc.scale, t + 1);
  }

  lemma NoWeight(low: Fx, scale: Fx)
    ensures WeightSum(low, scale, 0) == 0
  {
  }

  // ----- counting -----

  function Count<T(==)>(s: seq<T>, x: T): nat {
    if s == [] then 0 else Count(s[..|s| - 1], x) + if s[|s| - 1] == x then 1 else 0
  }

  function Without<T(==)>(s: seq<T>, x: T): seq<T> {
    if s == [] then []
    else if s[|s| - 1] == x then Without(s[..|s| - 1], x)
    else Without(s[..|s| - 1], x) + [s[|s| - 1]]
  }

  lemma {:induction false} WithoutCounts<T>(s: seq<T>, x: T, y: T)
    ensures |Without(s, x)| == |s| - Count(s, x)
    ensures y != x ==> Count(Without(s, x), y) == Count(s, y)
    ensures forall z :: z in Without(s, x) ==> z in s && z != x
  {
    if s != [] {
      WithoutCounts(s[..|s| - 1], x, y);
      if s[|s| - 1] != x {
        assert Without(s, x)[..|Without(s, x)| - 1] == Without(s[..|s| - 1], x);
      }
    }
  }

  /** More than `q` for each of the elements of a set means more than `q` for one of them. */
  lemma {:induction false} Pigeonhole<T>(s: seq<T>, from: set<T>, q: nat) returns (x: T)
    requires (forall y :: y in s ==> y in from) && |s| > |from| * q
    ensures x in from && Count(s, x) > q
    decreases |from|
  {
    assert s[0] in s;
    x :| x in from;
    if Count(s, x) <= q {
      WithoutCounts(s, x, x);
      assert |from| * q == |from - {x}| * q + q by {
        assert |from - {x}| == |from| - 1;
      }
      var other := Pigeonhole(Without(s, x), from - {x}, q);
      WithoutCounts(s, x, other);
      x := other;
    }
  }

  /** Occurrences at least `gap / d` apart: the last of `c` is `(c - 1) * gap / d` in. */
  lemma {:induction false} Spread<T>(s: seq<T>, x: T, d: nat, gap: nat) returns (last: nat)
    requires Count(s, x) > 0
    requires forall i, j :: 0 <= i < j < |s| && s[i] == x && s[j] == x ==> d * (j - i) >= gap
    ensures last < |s| && s[last] == x && d * last >= (Count(s, x) - 1) * gap
  {
    var init := s[..|s| - 1];
    if s[|s| - 1] != x {
      last := Spread(init, x, d, gap);
    } else {
      last := |s| - 1;
      if Count(init, x) == 0 {
        assert (Count(s, x) - 1) * gap == 0;
      } else {
        var prior := Spread(init, x, d, gap);
        GapAdds(d, prior, last, Count(init, x), gap);
      }
    }
  }

  lemma GapAdds(d: nat, prior: nat, last: nat, c: nat, gap: nat)
    requires prior <= last && c >= 1 && d * prior >= (c - 1) * gap && d * (last - prior) >= gap
    ensures d * last >= c * gap
  {
    assert d * last == d * prior + d * (last - prior);
    assert c * gap == (c - 1) * gap + gap;
  }

  // ----- no starvation -----

  /** Whoever is sent while `e` waits is older than its share of the wait. */
  lemma BlockerAge(acc: Accumulator, observer: Entity, rounds: seq<Round>, entities: set<Entity>, low: Fx, ratio: nat,
                   e: Entity, f: Entity, t1: nat, t: nat)
    requires AllContested(rounds, entities, low, ratio) && e in entities && f in entities
    requires low > 0 && ratio >= 1 && acc.scale > 0 && t1 < t < |rounds|
    requires EntryOf(acc, observer, e).score >= 0
    requires forall s: nat :: s < t ==> e !in SentAt(acc, observer, rounds, s)
    requires forall s: nat :: s <= t ==> EntryOf(ScoredAt(acc, observer, rounds, s), observer, e).score < MAX
    requires f in SentAt(acc, observer, rounds, t1)
    requires EntryOf(ScoredAt(acc, observer, rounds, t), observer, f).score >=
             EntryOf(ScoredAt(acc, observer, rounds, t), observer, e).score
    ensures 2 * ratio * (t - t1) > t + 1
  {
    hide EntryOf, WeightSum, SentAt, ScoredAt, Contested;
    SinceSent(acc, observer, rounds, entities, low, ratio, f, t1, t);
    WhileWaiting(acc, observer, rounds, entities, low, ratio, e, t);
    OutrankingAge(low, acc.scale, ratio, t - t1, t + 1);
  }

  /** Some other candidate, scoring at least as high, is sent in a round that skips `e`. */
  lemma BlockerExists(acc: Accumulator, observer: Entity, rounds: seq<Round>, entities: set<Entity>, low: Fx,
                      ratio: nat, e: Entity, t: nat) returns (f: Entity)
    requires AllContested(rounds, entities, low, ratio) && e in entities && t < |rounds|
    requires e !in SentAt(acc, observer, rounds, t)
    ensures f in entities && f != e && f in SentAt(acc, observer, rounds, t)
    ensures EntryOf(ScoredAt(acc, observer, rounds, t), observer, f).score >=
            EntryOf(ScoredAt(acc, observer, rounds, t), observer, e).score
  {
    hide EntryOf, Select, ScoredAt;
    var r := rounds[t];
    assert Lists(r, e);
    var k :| 0 <= k < |r.candidates| && r.candidates[k].0 == e;
    f := LeftOutBehind(ScoredAt(acc, observer, rounds, t), observer, r.candidates, r.budget, k);
    assert Lists(r, f);
  }

  /** The blockers of the rounds `from .. from + n`. */
  lemma {:induction false} Blockers(acc: Accumulator, observer: Entity, rounds: seq<Round>, entities: set<Entity>,
                                    low: Fx, ratio: nat, e: Entity, from: nat, n: nat) returns (bs: seq<Entity>)
    requires AllContested(rounds, entities, low, ratio) && e in entities && from + n <= |rounds|
    requires forall s: nat :: s < |rounds| ==> e !in SentAt(acc, observer, rounds, s)
    ensures |bs| == n
    ensures forall f :: f in bs ==> f in entities - {e}
    ensures forall i: nat :: i < n ==>
              && bs[i] in SentAt(acc, observer, rounds, from + i)
              && EntryOf(ScoredAt(acc, observer, rounds, from + i), observer, bs[i]).score >=
                 EntryOf(ScoredAt(acc, observer, rounds, from + i), observer, e).score
  {
    hide EntryOf, ScoredAt, SentAt, Contested;
    bs := [];
    if n > 0 {
      var before := Blockers(acc, observer, rounds, entities, low, ratio, e, from, n - 1);
      var f := BlockerExists(acc, observer, rounds, entities, low, ratio, e, from + n - 1);
      bs := before + [f];
    }
  }

  /** The longest a candidate can be passed over, `count` of them competing. */
  function LongestWait(count: nat, ratio: nat): nat
    requires count >= 1
  {
    4 * ratio * (count - 1)
  }

  /** No starvation: among `entities` candidates that each fit the budget alone, accumulate
      once a tick and gain within a fixed ratio, every one is sent within
      `4 * ratio * (|entities| - 1) + 1` ticks, from any state in which its own score is not
      negative and while that score does not saturate. Other scores may be anything. */
  lemma NoStarvation(acc: Accumulator, observer: Entity, rounds: seq<Round>, entities: set<Entity>, low: Fx,
                     ratio: nat, e: Entity)
    requires AllContested(rounds, entities, low, ratio) && e in entities
    requires low > 0 && ratio >= 1 && acc.scale > 0
    requires EntryOf(acc, observer, e).score >= 0
    requires forall s: nat :: s < |rounds| ==> EntryOf(ScoredAt(acc, observer, rounds, s), observer, e).score < MAX
    requires |rounds| == LongestWait(|entities|, ratio) + 1
    ensures exists t: nat :: t < |rounds| && e in SentAt(acc, observer, rounds, t)
  {
    hide EntryOf, ScoredAt, SentAt, Contested;
    if forall t: nat :: t < |rounds| ==> e !in SentAt(acc, observer, rounds, t) {
      var others := entities - {e};
      var share := 2 * ratio;
      var half := share * |others|;
      assert |others| == |entities| - 1;
      assert |rounds| == 2 * half + 1 by {
        assert 4 * ratio * |others| == 2 * (share * |others|);
      }
      var bs := Blockers(acc, observer, rounds, entities, low, ratio, e, half, half + 1);
      assert |others| * share == half;
      var f := Pigeonhole(bs, others, share);
      forall i, j | 0 <= i < j < |bs| && bs[i] == f && bs[j] == f
        ensures share * (j - i) >= half + 2
      {
        BlockerAge(acc, observer, rounds, entities, low, ratio, e, f, half + i, half + j);
      }
      var last := Spread(bs, f, share, half + 2);
      TooFar(share, half, Count(bs, f) - 1, last);
    }
  }

  lemma TooFar(share: nat, half: nat, gaps: nat, last: nat)
    requires share >= 1 && gaps >= share && last <= half
    ensures share * last < gaps * (half + 2)
  {
    MulLess(share, last, half);
    MulLess(half + 2, share, gaps);
    assert (half + 2) * share == share * half + 2 * share;
  }
}
