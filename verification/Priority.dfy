/** Priority accumulation: which of the relevant entities to send an observer this tick. */
module Priority {
  import opened Common
  import opened Fixed
  import Worlds

  type Entity = Worlds.Entity

  const I32_MAX: nat := 0x7FFF_FFFF

  datatype Entry = Entry(score: Fx, ticks: nat)

  const NEW_ENTRY: Entry := Entry(0, 0)

  datatype Accumulator = Accumulator(entries: map<(Entity, Entity), Entry>, scale: Fx)

  function EntryOf(acc: Accumulator, observer: Entity, e: Entity): Entry {
    if (observer, e) in acc.entries then acc.entries[(observer, e)] else NEW_ENTRY
  }

  /** One plus the age over the staleness scale. */
  function Staleness(ticks: nat, scale: Fx): Fx {
    Add(ONE, Div((if ticks < I32_MAX then ticks else I32_MAX) * ONE, scale))
  }

  function Grow(entry: Entry, amount: Fx, scale: Fx): Entry {
    var ticks := if entry.ticks + 1 < U32 then entry.ticks + 1 else U32 - 1;
    Entry(Add(entry.score, Mul(amount, Staleness(ticks, scale))), ticks)
  }

  function Accumulate(acc: Accumulator, observer: Entity, e: Entity, amount: Fx): Accumulator {
    acc.(entries := acc.entries[(observer, e) := Grow(EntryOf(acc, observer, e), amount, acc.scale)])
  }

  function Reset(acc: Accumulator, observer: Entity, e: Entity): Accumulator {
    acc.(entries := acc.entries[(observer, e) := NEW_ENTRY])
  }

  // ----- selection -----

  datatype Ranked = Ranked(entity: Entity, size: nat, score: Fx)

  /** Higher scores first, ties by index. */
  predicate Precedes(a: Ranked, b: Ranked) {
    a.score > b.score || (a.score == b.score && a.entity.index <= b.entity.index)
  }

  /** Inserts after everything it does not strictly precede, so equals keep their order. */
  function InsertRanked(x: Ranked, sorted: seq<Ranked>): seq<Ranked> {
    if sorted == [] then [x]
    else
      var last := sorted[|sorted| - 1];
      if Precedes(last, x) then sorted + [x]
      else InsertRanked(x, sorted[..|sorted| - 1]) + [last]
  }

  /** The stable sort of the candidates by rank. */
  function Rank(acc: Accumulator, observer: Entity, candidates: seq<(Entity, nat)>): seq<Ranked> {
    if candidates == [] then []
    else
      var (e, size) := candidates[|candidates| - 1];
      InsertRanked(Ranked(e, size, EntryOf(acc, observer, e).score), Rank(acc, observer, candidates[..|candidates| - 1]))
  }

  datatype Selection = Selection(entities: seq<Entity>, bytes: nat, deferred: nat)

  /** The greedy pass over the ranking; each chosen entity starts over. */
  function Choose(acc: Accumulator, observer: Entity, ranked: seq<Ranked>, budget: nat): (Accumulator, Selection) {
    if ranked == [] then (acc, Selection([], 0, 0))
    else
      var (before, s) := Choose(acc, observer, ranked[..|ranked| - 1], budget);
      var r := ranked[|ranked| - 1];
      if s.bytes + r.size <= budget then
        (Reset(before, observer, r.entity), Selection(s.entities + [r.entity], s.bytes + r.size, s.deferred))
      else (before, s.(deferred := s.deferred + 1))
  }

  function Select(acc: Accumulator, observer: Entity, candidates: seq<(Entity, nat)>, budget: nat)
    : (Accumulator, Selection)
  {
    Choose(acc, observer, Rank(acc, observer, candidates), budget)
  }

  // ----- what the ranking is -----

  ghost predicate Sorted(ranked: seq<Ranked>) {
    forall i, j :: 0 <= i < j < |ranked| ==> Precedes(ranked[i], ranked[j])
  }

  lemma {:induction false} InsertAdds(x: Ranked, sorted: seq<Ranked>)
    ensures multiset(InsertRanked(x, sorted)) == multiset(sorted) + multiset{x}
  {
    if sorted != [] {
      var init, last := sorted[..|sorted| - 1], sorted[|sorted| - 1];
      assert sorted == init + [last];
      InsertAdds(x, init);
    }
  }

  ghost predicate AllPrecede(ranked: seq<Ranked>, x: Ranked) {
    forall i :: 0 <= i < |ranked| ==> Precedes(ranked[i], x)
  }

  lemma SortedSnoc(init: seq<Ranked>, last: Ranked)
    ensures Sorted(init + [last]) <==> Sorted(init) && AllPrecede(init, last)
  {
    hide Precedes;
    var all := init + [last];
    assert all[..|init|] == init && all[|init|] == last;
    if Sorted(all) {
      assert forall i :: 0 <= i < |init| ==> all[i] == init[i];
    }
  }

  lemma {:induction false} InsertPrecede(x: Ranked, sorted: seq<Ranked>, y: Ranked)
    requires AllPrecede(sorted, y) && Precedes(x, y)
    ensures AllPrecede(InsertRanked(x, sorted), y)
  {
    hide Precedes;
    if sorted != [] {
      InsertPrecede(x, sorted[..|sorted| - 1], y);
    }
  }

  lemma {:induction false} InsertSorts(x: Ranked, sorted: seq<Ranked>)
    requires Sorted(sorted)
    ensures Sorted(InsertRanked(x, sorted))
  {
    hide Sorted, AllPrecede;
    if sorted == [] {
      OneSorted(x);
    } else {
      var init, last := sorted[..|sorted| - 1], sorted[|sorted| - 1];
      assert sorted == init + [last];
      SortedSnoc(init, last);
      if Precedes(last, x) {
        AllPrecedeChain(init, last, x);
        SortedSnoc(sorted, x);
      } else {
        InsertSorts(x, init);
        InsertPrecede(x, init, last);
        SortedSnoc(InsertRanked(x, init), last);
      }
    }
  }

  lemma OneSorted(x: Ranked)
    ensures Sorted([x])
  {
  }

  lemma AllPrecedeChain(init: seq<Ranked>, last: Ranked, x: Ranked)
    requires AllPrecede(init, last) && Precedes(last, x)
    ensures AllPrecede(init + [last], x)
  {
  }

  function AsRanked(acc: Accumulator, observer: Entity, c: (Entity, nat)): Ranked {
    Ranked(c.0, c.1, EntryOf(acc, observer, c.0).score)
  }

  function AllRanked(acc: Accumulator, observer: Entity, candidates: seq<(Entity, nat)>): (r: seq<Ranked>)
    ensures |r| == |candidates|
    ensures forall i :: 0 <= i < |r| ==> r[i] == AsRanked(acc, observer, candidates[i])
  {
    seq(|candidates|, i requires 0 <= i < |candidates| => AsRanked(acc, observer, candidates[i]))
  }

  /** The ranking is the candidates with their scores, rearranged into order. */
  lemma {:induction false} RankSorts(acc: Accumulator, observer: Entity, candidates: seq<(Entity, nat)>)
    ensures Sorted(Rank(acc, observer, candidates))
    ensures multiset(Rank(acc, observer, candidates)) == multiset(AllRanked(acc, observer, candidates))
  {
    hide InsertRanked, Sorted, EntryOf;
    if candidates == [] {
      assert Sorted(Rank(acc, observer, candidates)) by { EmptySorted(); }
    } else {
      var init, last := candidates[..|candidates| - 1], candidates[|candidates| - 1];
      RankSorts(acc, observer, init);
      InsertSorts(AsRanked(acc, observer, last), Rank(acc, observer, init));
      InsertAdds(AsRanked(acc, observer, last), Rank(acc, observer, init));
      assert AllRanked(acc, observer, candidates) == AllRanked(acc, observer, init) + [AsRanked(acc, observer, last)];
    }
  }

  lemma EmptySorted()
    ensures Sorted([])
  {
  }

  lemma InMultiset<T>(a: seq<T>, b: seq<T>, x: T)
    requires multiset(a) == multiset(b) && x in a
    ensures x in b
  {
    assert x in multiset(a);
  }

  // ----- what choosing promises -----

  ghost predicate DistinctRanked(ranked: seq<Ranked>) {
    forall i, j :: 0 <= i < j < |ranked| ==> ranked[i].entity != ranked[j].entity
  }

  /** The total size of the ranked entities in `kept`. */
  function SizeSum(ranked: seq<Ranked>, kept: set<Entity>): nat {
    if ranked == [] then 0
    else SizeSum(ranked[..|ranked| - 1], kept) +
         if ranked[|ranked| - 1].entity in kept then ranked[|ranked| - 1].size else 0
  }

  lemma {:induction false} SizeSumLocal(ranked: seq<Ranked>, a: set<Entity>, b: set<Entity>)
    requires forall r :: r in ranked ==> (r.entity in a <==> r.entity in b)
    ensures SizeSum(ranked, a) == SizeSum(ranked, b)
  {
    if ranked != [] {
      SizeSumLocal(ranked[..|ranked| - 1], a, b);
    }
  }

  function Members(es: seq<Entity>): set<Entity> {
    set e | e in es
  }

  /** The packet is within budget and its cost is what its entities cost; everything else is
      deferred; exactly the chosen start over. */
  lemma {:induction false} ChooseKeeps(acc: Accumulator, observer: Entity, ranked: seq<Ranked>, budget: nat)
    requires DistinctRanked(ranked)
    ensures var (after, s) := Choose(acc, observer, ranked, budget);
            && s.bytes == SizeSum(ranked, Members(s.entities)) <= budget
            && |s.entities| + s.deferred == |ranked|
            && (forall e :: e in s.entities ==> exists i :: 0 <= i < |ranked| && ranked[i].entity == e)
            && after.scale == acc.scale
            && (forall e :: EntryOf(after, observer, e) ==
                            if e in s.entities then NEW_ENTRY else EntryOf(acc, observer, e))
  {
    if ranked != [] {
      var init, r := ranked[..|ranked| - 1], ranked[|ranked| - 1];
      ChooseKeeps(acc, observer, init, budget);
      var (before, s) := Choose(acc, observer, init, budget);
      var (after, t) := Choose(acc, observer, ranked, budget);
      assert r.entity !in s.entities;
      SizeSumLocal(init, Members(s.entities), Members(t.entities));
      forall e | e in t.entities
        ensures exists i :: 0 <= i < |ranked| && ranked[i].entity == e
      {
        if e in s.entities {
          var i :| 0 <= i < |init| && init[i].entity == e;
          assert ranked[i].entity == e;
        } else {
          assert ranked[|ranked| - 1].entity == e;
        }
      }
    }
  }

  /** Each ranked entity is chosen exactly when it still fits after those chosen before it. */
  lemma {:induction false} ChooseTurn(acc: Accumulator, observer: Entity, ranked: seq<Ranked>, budget: nat, i: nat)
    requires DistinctRanked(ranked) && i < |ranked|
    ensures var s, so_far := Choose(acc, observer, ranked, budget).1, Choose(acc, observer, ranked[..i], budget).1;
            && so_far.entities <= s.entities
            && (ranked[i].entity in s.entities <==> so_far.bytes + ranked[i].size <= budget)
  {
    var init := ranked[..|ranked| - 1];
    ChooseKeeps(acc, observer, init, budget);
    if i < |init| {
      ChooseTurn(acc, observer, init, budget, i);
      assert init[..i] == ranked[..i];
    } else {
      assert ranked[..i] == init;
      assert ranked[i].entity !in Choose(acc, observer, init, budget).1.entities;
    }
  }

  ghost predicate DistinctCandidates(candidates: seq<(Entity, nat)>) {
    forall i, j :: 0 <= i < j < |candidates| ==> candidates[i].0 != candidates[j].0
  }

  lemma {:induction false} InsertDistinct(x: Ranked, sorted: seq<Ranked>)
    requires DistinctRanked(sorted) && forall i :: 0 <= i < |sorted| ==> sorted[i].entity != x.entity
    ensures DistinctRanked(InsertRanked(x, sorted))
  {
    if sorted != [] {
      var init, last := sorted[..|sorted| - 1], sorted[|sorted| - 1];
      if !Precedes(last, x) {
        InsertDistinct(x, init);
        InsertAdds(x, init);
        var r := InsertRanked(x, init);
        forall i | 0 <= i < |r|
          ensures r[i].entity != last.entity
        {
          InMultiset(r, init + [x], r[i]);
          var j :| 0 <= j < |init + [x]| && (init + [x])[j] == r[i];
        }
      }
    }
  }

  lemma {:induction false} RankDistinct(acc: Accumulator, observer: Entity, candidates: seq<(Entity, nat)>)
    requires DistinctCandidates(candidates)
    ensures DistinctRanked(Rank(acc, observer, candidates))
  {
    hide InsertRanked, EntryOf;
    if candidates != [] {
      var init, last := candidates[..|candidates| - 1], AsRanked(acc, observer, candidates[|candidates| - 1]);
      RankDistinct(acc, observer, init);
      RankSorts(acc, observer, init);
      var ranked := Rank(acc, observer, init);
      forall i | 0 <= i < |ranked|
        ensures ranked[i].entity != last.entity
      {
        InMultiset(ranked, AllRanked(acc, observer, init), ranked[i]);
        var j :| 0 <= j < |init| && AsRanked(acc, observer, init[j]) == ranked[i];
      }
      InsertDistinct(last, ranked);
    }
  }

  /** A candidate that fits the budget alone is left out only behind one at least as high,
      which is sent instead. */
  lemma LeftOutBehind(acc: Accumulator, observer: Entity, candidates: seq<(Entity, nat)>, budget: nat, k: nat)
    returns (blocker: Entity)
    requires DistinctCandidates(candidates) && k < |candidates| && candidates[k].1 <= budget
    requires candidates[k].0 !in Select(acc, observer, candidates, budget).1.entities
    ensures blocker in Select(acc, observer, candidates, budget).1.entities && blocker != candidates[k].0
    ensures exists j :: 0 <= j < |candidates| && candidates[j].0 == blocker
    ensures EntryOf(acc, observer, blocker).score >= EntryOf(acc, observer, candidates[k].0).score
  {
    hide Rank, EntryOf;
    var ranked := Rank(acc, observer, candidates);
    RankSorts(acc, observer, candidates);
    RankDistinct(acc, observer, candidates);
    var all := AllRanked(acc, observer, candidates);
    assert all[k] in all;
    InMultiset(all, ranked, all[k]);
    var i :| 0 <= i < |ranked| && ranked[i] == all[k];
    ChooseTurn(acc, observer, ranked, budget, i);
    ChooseKeeps(acc, observer, ranked[..i], budget);
    var so_far := Choose(acc, observer, ranked[..i], budget).1;
    SomethingChosen(acc, observer, ranked[..i], budget);
    blocker := so_far.entities[0];
    assert blocker in so_far.entities;
    var j :| 0 <= j < |ranked[..i]| && ranked[..i][j].entity == blocker;
    assert Precedes(ranked[j], ranked[i]);
    assert ranked[j] in ranked;
    InMultiset(ranked, all, ranked[j]);
    var c :| 0 <= c < |all| && all[c] == ranked[j];
    assert candidates[c].0 == blocker;
  }

  lemma {:induction false} SomethingChosen(acc: Accumulator, observer: Entity, ranked: seq<Ranked>, budget: nat)
    ensures Choose(acc, observer, ranked, budget).1.bytes > 0 ==>
              Choose(acc, observer, ranked, budget).1.entities != []
  {
    if ranked != [] {
      SomethingChosen(acc, observer, ranked[..|ranked| - 1], budget);
    }
  }

  /** The selection, stated on the candidates. */
  lemma SelectKeeps(acc: Accumulator, observer: Entity, candidates: seq<(Entity, nat)>, budget: nat)
    requires DistinctCandidates(candidates)
    ensures var (after, s) := Select(acc, observer, candidates, budget);
            && s.bytes <= budget
            && |s.entities| + s.deferred == |candidates|
            && after.scale == acc.scale
            && (forall e :: e in s.entities ==> exists i :: 0 <= i < |candidates| && candidates[i].0 == e)
            && (forall e :: EntryOf(after, observer, e) ==
                            if e in s.entities then NEW_ENTRY else EntryOf(acc, observer, e))
  {
    hide Rank, EntryOf, Choose;
    var ranked := Rank(acc, observer, candidates);
    RankSorts(acc, observer, candidates);
    RankDistinct(acc, observer, candidates);
    ChooseKeeps(acc, observer, ranked, budget);
    var all := AllRanked(acc, observer, candidates);
    assert |ranked| == |multiset(ranked)| == |all|;
    var s := Select(acc, observer, candidates, budget).1;
    forall e | e in s.entities
      ensures exists i :: 0 <= i < |candidates| && candidates[i].0 == e
    {
      var j :| 0 <= j < |ranked| && ranked[j].entity == e;
      assert ranked[j] in ranked;
      InMultiset(ranked, all, ranked[j]);
      var c :| 0 <= c < |all| && all[c] == ranked[j];
      assert candidates[c].0 == e;
    }
  }

  // ----- the rule for a tick's gain -----

  /** Halves at `half`, never below zero distance. */
  function Gain(base: Fx, half: Fx, distance: Fx): Fx {
    Div(base, Add(ONE, Div(Max(distance, 0), half)))
  }

  lemma DivNat(a: Fx, b: Fx)
    requires a >= 0 && b > 0
    ensures Div(a, b) == Sat(a * ONE / b) >= 0
  {
    assert a * ONE >= 0;
    QuotientNonNegative(a * ONE, b);
  }

  lemma SatOrder(a: int, b: int)
    requires a <= b
    ensures Sat(a) <= Sat(b)
  {
  }

  lemma FalloffOrder(half: Fx, a: Fx, b: Fx)
    requires half > 0 && 0 <= a <= b
    ensures ONE <= Add(ONE, Div(a, half)) <= Add(ONE, Div(b, half))
  {
    hide Div;
    DivNat(a, half);
    DivNat(b, half);
    QuotientOrder(a * ONE, b * ONE, half);
    SatOrder(a * ONE / half, b * ONE / half);
  }

  /** Nearer never gains less. */
  lemma GainMonotone(base: Fx, half: Fx, near: Fx, far: Fx)
    requires base >= 0 && half > 0 && near <= far
    ensures Gain(base, half, far) <= Gain(base, half, near)
  {
    hide Div, Add;
    var a, b := Max(near, 0), Max(far, 0);
    FalloffOrder(half, a, b);
    var da, db := Add(ONE, Div(a, half)), Add(ONE, Div(b, half));
    DivNat(base, da);
    DivNat(base, db);
    DivisorOrder(base * ONE, da, db);
    SatOrder(base * ONE / db, base * ONE / da);
  }

  lemma DivisorOrder(n: nat, d: nat, e: nat)
    requires 0 < d <= e
    ensures n / e <= n / d
  {
    var qd, qe := n / d, n / e;
    assert n == d * qd + n % d && n == e * qe + n % e;
    if qe > qd {
      MulLess(e, qd + 1, qe);
      assert e * (qd + 1) >= d * (qd + 1) by { MulLess(qd + 1, d, e); }
    }
  }

  /** One, and one more each half distance. */
  function Falloff(half: Fx, distance: Fx): int
    requires half > 0
  {
    ONE + Max(distance, 0) * ONE / half
  }

  /** The gain is the base over the falloff, rounded down: the whole base at no distance, half
      of it at `half`. */
  lemma GainIs(base: Fx, half: Fx, distance: Fx)
    requires base >= 0 && half > 0
    ensures distance <= 0 ==> Gain(base, half, distance) == base
    ensures distance == half ==> Gain(base, half, distance) == base / 2
    ensures var fall, gain: int := Falloff(half, distance), Gain(base, half, distance);
            fall <= MAX ==> gain * fall <= base * ONE < (gain + 1) * fall
  {
    hide Gain;
    FalloffAt(half, distance);
    var fall := Falloff(half, distance);
    if fall <= MAX {
      GainOver(base, half, distance);
      hide Falloff;
      RoundedDown(base * ONE, fall);
    }
  }

  lemma FalloffAt(half: Fx, distance: Fx)
    requires half > 0
    ensures distance <= 0 ==> Falloff(half, distance) == ONE
    ensures distance == half ==> Falloff(half, distance) == 2 * ONE
  {
    if distance == half {
      OverItself(half);
    }
    if distance <= 0 {
      assert 0 * ONE / half == 0;
    }
  }

  lemma GainOver(base: Fx, half: Fx, distance: Fx)
    requires base >= 0 && half > 0 && Falloff(half, distance) <= MAX
    ensures Falloff(half, distance) >= ONE
    ensures Gain(base, half, distance) == base * ONE / Falloff(half, distance)
  {
    hide Div;
    var d := Max(distance, 0);
    DivNat(d, half);
    QuotientNonNegative(d * ONE, half);
    DivNat(base, Falloff(half, distance));
    RatioFits(base, Falloff(half, distance));
  }

  lemma OverItself(d: Fx)
    requires d > 0
    ensures d * ONE / d == ONE
  {
    var v := d * ONE / d;
    assert d * ONE == d * v + d * ONE % d && d * (v + 1) == d * v + d;
    FactorBound(d, v, ONE) by { assert d * (ONE + 1) == d * ONE + d; }
    if v < ONE {
      MulLess(d, v + 1, ONE);
    }
  }

  lemma RoundedDown(n: nat, d: nat)
    requires d > 0
    ensures n / d * d <= n < (n / d + 1) * d
  {
    assert n == d * (n / d) + n % d;
  }

  lemma RatioFits(a: Fx, d: Fx)
    requires a >= 0 && d >= ONE
    ensures a * ONE / d <= a
  {
    MulLess(a, ONE, d);
    DivAtMost(a * ONE, d, a) by { assert d * (a + 1) == a * d + d; }
  }

  /** The promise that a gain never reaches zero holds at every distance exactly when the
      base, shifted up, reaches the falloff at the greatest distance. */
  lemma GainNeverZero(base: Fx, half: Fx)
    requires base >= 0 && half > 0
    ensures (forall distance: Fx :: Gain(base, half, distance) > 0) <==>
            base * ONE >= Add(ONE, Div(MAX, half))
  {
    hide Div, Add;
    FalloffOrder(half, MAX, MAX);
    var floor := Add(ONE, Div(MAX, half));
    DivNat(base, floor);
    PositiveQuotient(base * ONE, floor);
    assert Gain(base, half, MAX) == Div(base, floor);
    if base * ONE >= floor {
      forall distance: Fx
        ensures Gain(base, half, distance) > 0
      {
        GainMonotone(base, half, distance, MAX);
      }
    }
  }

  lemma PositiveQuotient(n: nat, d: nat)
    requires d > 0
    ensures n / d > 0 <==> n >= d
  {
    assert n == d * (n / d) + n % d;
    if n / d > 0 {
      MulAtLeast(d, n / d);
    }
  }

  // ----- the accumulator itself -----

  class PriorityAccumulator {
    var entries: map<(Entity, Entity), Entry>
    const stalenessScale: Fx

    ghost function View(): Accumulator
      reads this
    {
      Accumulator(entries, stalenessScale)
    }

    constructor (scale: Fx)
      requires scale > 0
      ensures View() == Accumulator(map[], scale)
    {
      entries := map[];
      stalenessScale := scale;
    }

    method AddPriority(observer: Entity, entity: Entity, amount: Fx)
      modifies this
      ensures View() == Accumulate(old(View()), observer, entity, amount)
    {
      var slot := if (observer, entity) in entries then entries[(observer, entity)] else NEW_ENTRY;
      slot := slot.(ticks := if slot.ticks + 1 < U32 then slot.ticks + 1 else U32 - 1);
      var staleness := Staleness(slot.ticks, stalenessScale);
      slot := slot.(score := Add(slot.score, Mul(amount, staleness)));
      entries := entries[(observer, entity) := slot];
    }

    method Score(observer: Entity, entity: Entity) returns (score: Fx)
      ensures score == EntryOf(View(), observer, entity).score
    {
      score := if (observer, entity) in entries then entries[(observer, entity)].score else 0;
    }

    method StartOver(observer: Entity, entity: Entity)
      modifies this
      ensures View() == Reset(old(View()), observer, entity)
    {
      entries := entries[(observer, entity) := NEW_ENTRY];
    }

    method Forget(observer: Entity, entity: Entity)
      modifies this
      ensures entries == old(entries) - {(observer, entity)}
      ensures EntryOf(View(), observer, entity) == NEW_ENTRY
      ensures forall o, e :: (o, e) != (observer, entity) ==> EntryOf(View(), o, e) == old(EntryOf(View(), o, e))
    {
      entries := entries - {(observer, entity)};
    }

    method RemoveObserver(observer: Entity)
      modifies this
      ensures entries.Keys == set k | k in old(entries) && k.0 != observer
      ensures forall k :: k in entries ==> entries[k] == old(entries)[k]
      ensures forall o, e :: EntryOf(View(), o, e) == if o == observer then NEW_ENTRY else old(EntryOf(View(), o, e))
    {
      entries := map k | k in entries && k.0 != observer :: entries[k];
    }

    method Pick(observer: Entity, candidates: seq<(Entity, nat)>, budget: nat) returns (s: Selection)
      modifies this
      ensures (View(), s) == Select(old(View()), observer, candidates, budget)
    {
      var ranked := Rank(Accumulator(entries, stalenessScale), observer, candidates);
      ghost var before := View();
      var chosen: seq<Entity>, used: nat, deferred: nat := [], 0, 0;
      var i := 0;
      while i < |ranked|
        invariant 0 <= i <= |ranked|
        invariant (View(), Selection(chosen, used, deferred)) ==
                  Choose(before, observer, ranked[..i], budget)
      {
        var r := ranked[i];
        assert ranked[..i + 1][..i] == ranked[..i];
        if used + r.size <= budget {
          used := used + r.size;
          chosen := chosen + [r.entity];
          StartOver(observer, r.entity);
        } else {
          deferred := deferred + 1;
        }
        i := i + 1;
      }
      assert ranked[..|ranked|] == ranked;
      s := Selection(chosen, used, deferred);
    }
  }
}
