/** Which real input each simulated tick was given, from the schedule of calls alone. Nothing
    here mentions a ring, a snapshot or a rollback: the session refines this account. */
module InputSources {
  import opened Common
  import opened Ticks
  import opened Inputs
  import opened Rollback
  import opened Convergence
  import opened SessionRuns
  import opened InputDelay

  /** For each player and tick, the tick whose real input it was given; `None` is the default. */
  type Sources = map<PlayerId, seq<Option<Tick>>>

  ghost function Newest(arrived: set<Tick>): Option<Tick> {
    if exists n :: IsNewest(n, arrived) then
      var n :| IsNewest(n, arrived);
      Some(n)
    else None
  }

  /** A tick's own input once it has arrived; until then the newest that has. */
  ghost function Guess(arrived: set<Tick>, t: Tick): Option<Tick> {
    if t in arrived then Some(t) else Newest(arrived)
  }

  ghost function InputFrom<S, I>(m: Match<S, I>, p: PlayerId, source: Option<Tick>): I {
    if source.None? then m.default else m.truth(p)(source.value)
  }

  /** What an arrival can contradict: a tick simulated on another input, before its own came. */
  ghost predicate Wrong<S, I>(m: Match<S, I>, delivered: map<PlayerId, set<Tick>>, from: Sources, p: PlayerId, t: Tick) {
    && p in delivered && p in from && t !in delivered[p] && 1 <= t <= |from[p]|
    && InputFrom(m, p, from[p][t - 1]) != m.truth(p)(t)
  }

  /** The ticks from `t` on are guessed again. */
  ghost function Again(sources: seq<Option<Tick>>, arrived: set<Tick>, t: Tick): (r: seq<Option<Tick>>)
    requires 1 <= t <= |sources| < U32
    ensures |r| == |sources|
  {
    seq(|sources|, k requires 0 <= k < |sources| => if k < t - 1 then sources[k] else Guess(arrived, k + 1))
  }

  function Later<I>(current: Tick, call: Call<I>): Tick {
    if call.Step? then Plus(current, 1) else current
  }

  ghost function SourcedBy<S, I>(m: Match<S, I>, current: Tick, delivered: map<PlayerId, set<Tick>>, from: Sources, call: Call<I>)
    : (r: Sources)
    requires forall p :: p in from ==> |from[p]| == current
    ensures r.Keys == from.Keys
    ensures current + 1 < U32 ==> forall p :: p in r ==> |r[p]| == Later(current, call)
  {
    match call
    case Step => map p | p in from :: from[p] + [Guess(if p in delivered then delivered[p] else {}, Plus(current, 1))]
    case Remote(p, t) =>
      if Wrong(m, delivered, from, p, t) then from[p := Again(from[p], delivered[p] + {t}, t)] else from
    case _ => from
  }

  /** The inputs handed over, by schedule alone. */
  ghost function HandedBy<S, I>(m: Match<S, I>, current: Tick, delivered: map<PlayerId, set<Tick>>, call: Call<I>)
    : map<PlayerId, set<Tick>>
  {
    match call
    case Local(p) => if p in delivered then Deliver(delivered, p, Plus(current, m.config.inputDelay + 1)) else delivered
    case Remote(p, t) => if p in delivered then Deliver(delivered, p, t) else delivered
    case _ => delivered
  }

  /** A correction for a tick `max_rollback` or more behind is refused; nothing else is. */
  ghost predicate Accepted<S, I>(m: Match<S, I>, current: Tick, delivered: map<PlayerId, set<Tick>>, from: Sources, call: Call<I>) {
    match call
    case Remote(p, t) => Wrong(m, delivered, from, p, t) ==> current < t + m.config.maxRollback
    case _ => true
  }

  // ---------------------------------------------------------------------------
  // One call

  ghost predicate SourcedFor<S, I>(m: Match<S, I>, used: seq<map<PlayerId, I>>, sources: seq<Option<Tick>>, p: PlayerId) {
    && |sources| == |used|
    && forall k :: 0 <= k < |used| ==> p in used[k] && used[k][p] == InputFrom(m, p, sources[k])
  }

  /** The timeline is the one the sources name. */
  ghost predicate Sourced<S, I>(m: Match<S, I>, used: seq<map<PlayerId, I>>, from: Sources) {
    && from.Keys == m.ids && AllPlay(used, m.ids)
    && forall p :: p in m.ids ==> SourcedFor(m, used, from[p], p)
  }

  lemma NewestIs(arrived: set<Tick>, n: Tick)
    requires IsNewest(n, arrived)
    ensures Newest(arrived) == Some(n)
  {
  }

  lemma KnownInput<S, I>(m: Match<S, I>, ring: PlayerInputs<I>, arrived: set<Tick>, p: PlayerId)
    requires |ring.slots| > 0 && Knows(ring, arrived, m.truth(p))
    ensures LastKnown(ring, m.default) == InputFrom(m, p, Newest(arrived))
  {
    if arrived != {} {
      NewestIs(arrived, ring.lastConfirmed.value);
    }
  }

  /** The next tick's input is the one guessed from what has arrived. */
  lemma NextIsGuess<S, I>(m: Match<S, I>, ring: PlayerInputs<I>, w: Window, line: Timeline<I>, p: PlayerId)
    requires PlayerInv(ring, w, line) && line.truth == m.truth(p) && line.default == m.default
    requires Knows(ring, line.delivered, m.truth(p)) && |line.used| == w.hi && w.hi + 1 < HALF
    ensures PredictOne(ring, w.hi + 1, m.default).1 == InputFrom(m, p, Guess(line.delivered, w.hi + 1))
  {
    var t: Tick := w.hi + 1;
    KnownInput(m, ring, line.delivered, p);
    assert t in Held(ring) <==> At(ring, t).Some?;
    if t in line.delivered {
      assert DeliveredInForce(Held(ring), w, line);
      assert EntriesTrue(LogOf(ring), w, line);
    } else {
      NotHeldYet(ring, w, line, m.truth(p), t);
    }
  }

  lemma StepSourced<S(!new), I(!new)>(m: Match<S, I>, s: Session<S, I>, w: World<S>, used: seq<map<PlayerId, I>>,
                                      delivered: map<PlayerId, set<Tick>>, from: Sources)
    requires Inv(s, w, m, used, delivered) && AllKnow(m, s.players, delivered) && Sourced(m, used, from)
    requires s.current + 1 < HALF
    ensures Sized(s)
    ensures Sourced(m, used + [InputsAt(s.players, s.current + 1, m.default)], SourcedBy<S, I>(m, s.current, delivered, from, Step))
  {
    hide Knows, PlayerInv, PredictOne, SavedInv, StateOf, MatchValid, Guess, InputFrom;
    var t: Tick := s.current + 1;
    var used' := used + [InputsAt(s.players, t, m.default)];
    var from' := SourcedBy<S, I>(m, s.current, delivered, from, Step);
    forall p | p in m.ids
      ensures SourcedFor(m, used', from'[p], p)
    {
      NextIsGuess(m, s.players[p], WindowOf(m, |used|), Line(m, used, delivered, p), p);
    }
  }

  /** A confirmation contradicts a prediction exactly when the schedule says so. */
  lemma ContradictsWhenWrong<S(!new), I(!new)>(
      m: Match<S, I>, s: Session<S, I>, w: World<S>, used: seq<map<PlayerId, I>>, delivered: map<PlayerId, set<Tick>>,
      from: Sources, p: PlayerId, t: Tick)
    requires Inv(s, w, m, used, delivered) && AllKnow(m, s.players, delivered) && Sourced(m, used, from)
    requires p in m.ids && 1 <= t && WindowOf(m, s.current).lo < t <= s.current + m.lead
    ensures Sized(s)
    ensures Confirm(s, p, t, m.truth(p)(t)).1 <==> Wrong(m, delivered, from, p, t)
  {
    hide SavedInv, StateOf, MatchValid, ConfirmOne, InputFrom, PlayerInv, Knows;
    var ring, win, line := s.players[p], WindowOf(m, |used|), Line(m, used, delivered, p);
    assert SourcedFor(m, used, from[p], p);
    ContradictsInRing(ring, win, line, t);
  }

  lemma RingClock<I>(ring: PlayerInputs<I>, w: Window, line: Timeline<I>)
    requires PlayerInv(ring, w, line)
    ensures ring.lastConfirmed.Some? ==> ring.lastConfirmed.value < HALF
  {
  }

  lemma ContradictsInRing<I>(ring: PlayerInputs<I>, w: Window, line: Timeline<I>, t: Tick)
    requires PlayerInv(ring, w, line) && Knows(ring, line.delivered, line.truth) && |line.used| == w.hi
    requires 1 <= t && w.lo < t <= w.top
    ensures ConfirmOne(ring, t, line.truth(t)).1 <==>
            t <= |line.used| && t !in line.delivered && line.used[t - 1] != line.truth(t)
  {
    RingBounds(ring, w, line);
    RingClock(ring, w, line);
    ConfirmLog(ring, t, line.truth(t));
    hide ConfirmOne;
    var held := Held(ring);
    assert HoldsUsed(held, w, line) && EntriesTrue(LogOf(ring), w, line) && DeliveredInForce(held, w, line);
    assert t in held <==> At(ring, t).Some?;
  }

  // ----- guessing again after a correction -----

  /** Ticks before `lo` stay; from `lo` to `hi` what is missing is filled with the newest known
      input. */
  ghost predicate Fills<I>(a: PlayerInputs<I>, b: PlayerInputs<I>, default: I, base: Tick, lo: Tick, hi: Tick)
    requires |a.slots| > 0
  {
    && |b.slots| == |a.slots| && b.lastKnown == a.lastKnown
    && (forall u: Tick :: base <= u < lo ==> At(b, u) == At(a, u))
    && (forall u: Tick :: lo <= u <= hi ==>
          At(b, u) == if At(a, u).Some? then At(a, u) else Some(Slot(u, LastKnown(a, default), Predicted)))
  }

  lemma PredictFills<I>(ring: PlayerInputs<I>, default: I, base: Tick, t: Tick, hi: Tick)
    requires |ring.slots| > 0 && base <= t <= hi && hi - base < |ring.slots|
    ensures var b := PredictOne(ring, t, default).0;
            && |b.slots| == |ring.slots| && b.lastKnown == ring.lastKnown
            && At(b, t) == (if At(ring, t).Some? then At(ring, t) else Some(Slot(t, LastKnown(ring, default), Predicted)))
            && forall u: Tick :: base <= u <= hi && u != t ==> At(b, u) == At(ring, u)
  {
    forall u: Tick | base <= u <= hi && u != t
      ensures At(PredictOne(ring, t, default).0, u) == At(ring, u)
    {
      if u % |ring.slots| == t % |ring.slots| {
        ResiduesDistinct(u, t, |ring.slots|);
      }
    }
  }

  lemma {:induction false} ResimulateFills<S, I>(sim: Simulate<S, I>, s: Session<S, I>, w: World<S>, base: Tick, t: Tick,
                                                 target: Tick, p: PlayerId)
    requires Sized(s) && p in s.players && base <= t <= target < HALF && target - base < |s.players[p].slots|
    ensures var r := Resimulate(sim, s, w, t, target);
            p in r.0.players && Fills(s.players[p], r.0.players[p], s.default, base, t, target)
    decreases target - t
  {
    hide At, Resimulate, FrameAt, PredictOne;
    ResimulateUnfolds(sim, s, w, t, target);
    var (s1, w1) := SimulateTick(sim, s, w, t);
    PredictFills(s.players[p], s.default, base, t, target);
    assert s1.players[p] == PredictOne(s.players[p], t, s.default).0;
    if t < target {
      ResimulateFills(sim, s1, w1, base, t + 1, target, p);
    }
  }

  lemma RollbackFills<S, I>(sim: Simulate<S, I>, s: Session<S, I>, w: World<S>, t: Tick, p: PlayerId)
    requires Sized(s) && p in s.players && 1 <= t <= s.current < HALF && s.current - t < |s.players[p].slots|
    requires RollbackTo(sim, s, w, t).2.Ok?
    ensures var r := RollbackTo(sim, s, w, t);
            p in r.0.players && Fills(s.players[p], r.0.players[p], s.default, t, t, s.current)
  {
    hide At, Resimulate;
    ResimulateFills(sim, s, SavedGet(s.saved, Minus(t, 1)).value, t, t, s.current, p);
  }

  /** What a contradicted confirmation leaves in the player's ring from `t` on: arrived inputs,
      and nothing else. */
  lemma OnlyArrivedLeft<I>(ring: PlayerInputs<I>, w: Window, line: Timeline<I>, t: Tick)
    requires PlayerInv(ring, w, line) && Knows(ring, line.delivered, line.truth) && |line.used| == w.hi
    requires 1 <= t && w.lo < t <= w.top && ConfirmOne(ring, t, line.truth(t)).1
    ensures var b := ConfirmOne(ring, t, line.truth(t)).0;
            forall u: Tick :: t <= u <= w.top ==>
              At(b, u) == if u == t || u in line.delivered then Some(Slot(u, line.truth(u), Confirmed)) else None
  {
    var g := LogOf(ring);
    RingBounds(ring, w, line);
    RingClock(ring, w, line);
    ConfirmLog(ring, t, line.truth(t));
    var b := ConfirmOne(ring, t, line.truth(t)).0;
    var after := LogOf(b);
    assert EntriesTrue(g, w, line) && DeliveredInForce(g.held, w, line);
    forall u: Tick | t <= u <= w.top
      ensures At(b, u) == if u == t || u in line.delivered then Some(Slot(u, line.truth(u), Confirmed)) else None
    {
      assert u in after.held <==> At(b, u).Some?;
      assert At(b, u).Some? ==> after.held[u] == At(b, u).value;
      assert At(ring, u).Some? ==> g.held[u] == At(ring, u).value;
      assert u in g.held <==> At(ring, u).Some?;
    }
  }

  /** After the correction, every tick from `t` on has its own input if that has arrived, and
      otherwise the newest that has. */
  lemma AgainInRing<S, I>(m: Match<S, I>, ring: PlayerInputs<I>, after: PlayerInputs<I>, w: Window, line: Timeline<I>,
                          line': Timeline<I>, t: Tick, p: PlayerId, u: Tick)
    requires PlayerInv(ring, w, line) && Knows(ring, line.delivered, line.truth) && |line.used| == w.hi
    requires line.truth == line'.truth == m.truth(p) && line'.delivered == line.delivered + {t} && |line'.used| == w.hi
    requires 1 <= t && w.lo < t <= u <= w.hi && ConfirmOne(ring, t, line.truth(t)).1
    requires Fills(ConfirmOne(ring, t, line.truth(t)).0, after, m.default, t, t, w.hi)
    requires PlayerInv(after, w, line') && Knows(ConfirmOne(ring, t, line.truth(t)).0, line'.delivered, line.truth)
    ensures line'.used[u - 1] == InputFrom(m, p, Guess(line'.delivered, u))
  {
    OnlyArrivedLeft(ring, w, line, t);
    var b := ConfirmOne(ring, t, line.truth(t)).0;
    KnownInput(m, b, line'.delivered, p);
    hide ConfirmOne, Knows;
    assert HoldsUsed(Held(after), w, line');
    assert u in Held(after) && Held(after)[u] == At(after, u).value;
  }

  /** A correction gives its player's ticks from there on the inputs they are guessed again
      with, and leaves every other player's alone. */
  lemma CorrectionSourced<S(!new), I(!new)>(
      m: Match<S, I>, s: Session<S, I>, w: World<S>, used: seq<map<PlayerId, I>>, delivered: map<PlayerId, set<Tick>>,
      from: Sources, q: PlayerId, t: Tick)
    requires Inv(s, w, m, used, delivered) && AllKnow(m, s.players, delivered) && Sourced(m, used, from) && Sized(s)
    requires Admissible(m, s.current, Remote(q, t)) && Confirm(s, q, t, m.truth(q)(t)).1
    requires Perform(m, s, w, Remote(q, t)).2
    ensures Sourced(m, UsedBy(m, s, w, Remote(q, t), used), SourcedBy(m, s.current, delivered, from, Remote(q, t)))
  {
    hide PlayerInv, Knows, SavedInv, StateOf, MatchValid, RollbackTo, ConfirmOne, Redone, InputFrom, Guess, WindowOf, Fills;
    ContradictsWhenWrong(m, s, w, used, delivered, from, q, t);
    PerformKeeps(m, s, w, Remote(q, t), used, delivered);
    ConfirmAllKnow(m, s, w, used, delivered, q, t);
    var used' := UsedBy(m, s, w, Remote(q, t), used);
    var from' := SourcedBy(m, s.current, delivered, from, Remote(q, t));
    var r := Perform(m, s, w, Remote(q, t)).0;
    forall p | p in m.ids
      ensures SourcedFor(m, used', from'[p], p)
    {
      assert SourcedFor(m, used, from[p], p);
      if p == q {
        CorrectedSourced(m, s, w, used, delivered, from, q, t);
      } else {
        OthersKept(m, s, w, used, delivered, q, t, p);
      }
    }
  }

  lemma OthersKept<S(!new), I(!new)>(
      m: Match<S, I>, s: Session<S, I>, w: World<S>, used: seq<map<PlayerId, I>>, delivered: map<PlayerId, set<Tick>>,
      q: PlayerId, t: Tick, p: PlayerId)
    requires Inv(s, w, m, used, delivered) && Sized(s) && p in m.ids && p != q
    requires Admissible(m, s.current, Remote(q, t)) && Confirm(s, q, t, m.truth(q)(t)).1
    ensures var again := UsedBy(m, s, w, Remote(q, t), used);
            |again| == |used| && forall k :: 0 <= k < |used| ==> p in again[k] && again[k][p] == used[k][p]
  {
    hide PlayersInv, SavedInv, StateOf, MatchValid, RollbackTo, ConfirmOne, Redone;
    var s1 := Confirm(s, q, t, m.truth(q)(t)).0;
    ContradictionPrepares(s, w, m, used, delivered, q, t);
    RollbackTime(m.sim, s1, w, t);
    WindowHeld(m, s, w, used, delivered, t, p);
    RollbackLeaves(m.sim, s1, w, t, p);
    RedoneLeaves(m, s, w, used, delivered, RollbackTo(m.sim, s1, w, t).0, t, p);
  }

  lemma CorrectedSourced<S(!new), I(!new)>(
      m: Match<S, I>, s: Session<S, I>, w: World<S>, used: seq<map<PlayerId, I>>, delivered: map<PlayerId, set<Tick>>,
      from: Sources, q: PlayerId, t: Tick)
    requires Inv(s, w, m, used, delivered) && AllKnow(m, s.players, delivered) && Sourced(m, used, from) && Sized(s)
    requires Wrong(m, delivered, from, q, t)
    requires Admissible(m, s.current, Remote(q, t)) && Confirm(s, q, t, m.truth(q)(t)).1
    requires Perform(m, s, w, Remote(q, t)).2
    ensures SourcedFor(m, UsedBy(m, s, w, Remote(q, t), used), Again(from[q], delivered[q] + {t}, t), q)
  {
    hide PlayerInv, Knows, SavedInv, StateOf, IgnoresSource, RollbackTo, ConfirmOne, InputFrom, Guess, Fills, FrameFrom;
    var s1 := Confirm(s, q, t, m.truth(q)(t)).0;
    ContradictionPrepares(s, w, m, used, delivered, q, t);
    PerformKeeps(m, s, w, Remote(q, t), used, delivered);
    ConfirmAllKnow(m, s, w, used, delivered, q, t);
    var used' := UsedBy(m, s, w, Remote(q, t), used);
    var r := Perform(m, s, w, Remote(q, t)).0;
    var sources := Again(from[q], delivered[q] + {t}, t);
    RollbackTime(m.sim, s1, w, t);
    RingCapacity(s.players[q], WindowOf(m, |used|), Line(m, used, delivered, q));
    assert s1.players[q] == ConfirmOne(s.players[q], t, m.truth(q)(t)).0;
    RollbackFills(m.sim, s1, w, t, q);
    RedonePrefix(used, r, m.default, t);
    assert SourcedFor(m, used, from[q], q);
    forall k | 0 <= k < |used'|
      ensures q in used'[k] && used'[k][q] == InputFrom(m, q, sources[k])
    {
      if k >= t - 1 {
        AgainInRing(m, s.players[q], r.players[q], WindowOf(m, |used|), Line(m, used, delivered, q),
                    Line(m, used', Deliver(delivered, q, t), q), t, q, k + 1);
      }
    }
  }

  lemma RingCapacity<I>(ring: PlayerInputs<I>, w: Window, line: Timeline<I>)
    requires PlayerInv(ring, w, line)
    ensures |ring.slots| == w.capacity && w.top - w.lo <= w.capacity
  {
  }

  // ---------------------------------------------------------------------------
  // Runs

  lemma RemoteSourced<S(!new), I(!new)>(
      m: Match<S, I>, s: Session<S, I>, w: World<S>, used: seq<map<PlayerId, I>>, delivered: map<PlayerId, set<Tick>>,
      from: Sources, p: PlayerId, t: Tick)
    requires Inv(s, w, m, used, delivered) && AllKnow(m, s.players, delivered) && Sourced(m, used, from) && Sized(s)
    requires Admissible<S, I>(m, s.current, Remote(p, t)) && forall q :: q in from ==> |from[q]| == s.current
    ensures Perform(m, s, w, Remote(p, t)).2 <==> Accepted<S, I>(m, s.current, delivered, from, Remote(p, t))
    ensures Perform(m, s, w, Remote(p, t)).2 ==>
              Sourced(m, UsedBy(m, s, w, Remote(p, t), used), SourcedBy<S, I>(m, s.current, delivered, from, Remote(p, t)))
  {
    hide Pending, Wrong, Redone, AllKnow, AddRemoteInput, Confirm, Again, Sourced;
    ContradictsWhenWrong(m, s, w, used, delivered, from, p, t);
    InvFacts(s, w, m, used, delivered);
    var _ := AddRemoteKeeps(s, w, m, used, delivered, p, t);
    if Confirm(s, p, t, m.truth(p)(t)).1 && Perform<S, I>(m, s, w, Remote(p, t)).2 {
      CorrectionSourced(m, s, w, used, delivered, from, p, t);
    }
  }

  lemma PerformSourced<S(!new), I(!new)>(
      m: Match<S, I>, s: Session<S, I>, w: World<S>, call: Call<I>, used: seq<map<PlayerId, I>>,
      delivered: map<PlayerId, set<Tick>>, from: Sources)
    requires Inv(s, w, m, used, delivered) && AllKnow(m, s.players, delivered) && Sourced(m, used, from)
    requires Admissible(m, s.current, call)
    ensures Sized(s)
    ensures forall p :: p in from ==> |from[p]| == s.current
    ensures Perform(m, s, w, call).2 <==> Accepted(m, s.current, delivered, from, call)
    ensures Perform(m, s, w, call).2 ==>
              Sourced(m, UsedBy(m, s, w, call, used), SourcedBy(m, s.current, delivered, from, call))
    ensures DeliveredBy(delivered, s, call) == HandedBy(m, s.current, delivered, call)
  {
    hide Pending, Wrong, Redone, AllKnow, RollbackTo, AddRemoteInput, Advance, Confirm, SyncTest, Again;
    InvFacts(s, w, m, used, delivered);
    TimelineLength(m, s, w, used, delivered);
    forall p | p in from
      ensures |from[p]| == s.current
    {
      assert SourcedFor(m, used, from[p], p);
    }
    match call
    case Step => StepSourced(m, s, w, used, delivered, from);
    case Local(p) =>
    case Remote(p, t) => RemoteSourced(m, s, w, used, delivered, from, p, t);
    case Rewind(t) =>
      var _ := RollbackHarmless(s, w, m, used, delivered, t);
      RewindSourced(m, s, w, used, delivered, t);
    case Check => SyncTestPasses(s, w, m, used, delivered);
  }

  lemma TimelineLength<S(!new), I(!new)>(m: Match<S, I>, s: Session<S, I>, w: World<S>, used: seq<map<PlayerId, I>>,
                                         delivered: map<PlayerId, set<Tick>>)
    requires Inv(s, w, m, used, delivered)
    ensures |used| == s.current && s.config == m.config
  {
  }

  /** Rolling back with nothing corrected gives every tick the same inputs again. */
  lemma RewindSourced<S(!new), I(!new)>(m: Match<S, I>, s: Session<S, I>, w: World<S>, used: seq<map<PlayerId, I>>,
                                        delivered: map<PlayerId, set<Tick>>, t: Tick)
    requires Inv(s, w, m, used, delivered) && Sized(s) && Admissible<S, I>(m, s.current, Rewind(t))
    ensures UsedBy(m, s, w, Rewind(t), used) == used
  {
    hide PlayersInv, SavedInv, StateOf, MatchValid, RollbackTo, Redone, WindowOf;
    WindowReaches(s, w, m, used, delivered, t);
    var _ := RollbackHarmless(s, w, m, used, delivered, t);
    PerformKeeps(m, s, w, Rewind(t), used, delivered);
    var r, again := RollbackTo(m.sim, s, w, t).0, UsedBy(m, s, w, Rewind(t), used);
    RollbackTime(m.sim, s, w, t);
    RedonePrefix(used, r, m.default, t);
    TimelineAll(m, s, w, used, delivered);
    forall p | p in m.ids
      ensures SameShare(again, used, p)
    {
      WindowHeld(m, s, w, used, delivered, t, p);
      RollbackLeaves(m.sim, s, w, t, p);
      RedoneLeaves(m, s, w, used, delivered, r, t, p);
    }
    TimelineAll(m, Perform(m, s, w, Rewind(t)).0, Perform(m, s, w, Rewind(t)).1, again, delivered);
    SharesDetermine(again, used, m.ids);
  }

  lemma TimelineAll<S(!new), I(!new)>(m: Match<S, I>, s: Session<S, I>, w: World<S>, used: seq<map<PlayerId, I>>,
                                      delivered: map<PlayerId, set<Tick>>)
    requires Inv(s, w, m, used, delivered)
    ensures AllPlay(used, m.ids)
  {
    hide PlayerInv, SavedInv, StateOf, MatchValid;
  }

  /** Every call is admissible, and none is a correction that comes too late. */
  ghost predicate AllAccepted<S, I>(m: Match<S, I>, current: Tick, delivered: map<PlayerId, set<Tick>>, from: Sources, calls: seq<Call<I>>)
    requires forall p :: p in from ==> |from[p]| == current
    decreases |calls|
  {
    |calls| > 0 ==>
      && Admissible(m, current, calls[0]) && Accepted(m, current, delivered, from, calls[0])
      && current + 1 < U32
      && AllAccepted(m, Later(current, calls[0]), HandedBy(m, current, delivered, calls[0]),
                     SourcedBy(m, current, delivered, from, calls[0]), calls[1..])
  }

  ghost function SourcesAfter<S, I>(m: Match<S, I>, current: Tick, delivered: map<PlayerId, set<Tick>>, from: Sources, calls: seq<Call<I>>)
    : Sources
    requires forall p :: p in from ==> |from[p]| == current
    requires AllAccepted(m, current, delivered, from, calls)
    decreases |calls|
  {
    if |calls| == 0 then from
    else SourcesAfter(m, Later(current, calls[0]), HandedBy(m, current, delivered, calls[0]),
                      SourcedBy(m, current, delivered, from, calls[0]), calls[1..])
  }

  lemma SourcedLengths<S(!new), I(!new)>(m: Match<S, I>, s: Session<S, I>, w: World<S>, used: seq<map<PlayerId, I>>,
                                         delivered: map<PlayerId, set<Tick>>, from: Sources)
    requires Inv(s, w, m, used, delivered) && Sourced(m, used, from)
    ensures Sized(s) && s.current + 1 < U32 && forall p :: p in from ==> |from[p]| == s.current
  {
    InvFacts(s, w, m, used, delivered);
    TimelineLength(m, s, w, used, delivered);
    forall p | p in from
      ensures |from[p]| == s.current
    {
      assert SourcedFor(m, used, from[p], p);
    }
  }

  /** The schedule alone says whether every call of a run returns Ok, and then which input
      every tick is given. */
  lemma {:induction false} RunSourced<S(!new), I(!new)>(
      m: Match<S, I>, s: Session<S, I>, w: World<S>, calls: seq<Call<I>>, used: seq<map<PlayerId, I>>,
      delivered: map<PlayerId, set<Tick>>, from: Sources)
    requires Inv(s, w, m, used, delivered) && AllKnow(m, s.players, delivered) && Sourced(m, used, from)
    ensures Sized(s) && forall p :: p in from ==> |from[p]| == s.current
    ensures Runs(m, s, w, calls) <==> AllAccepted(m, s.current, delivered, from, calls)
    ensures Runs(m, s, w, calls) ==>
              Sourced(m, UsedIn(m, s, w, calls, used), SourcesAfter(m, s.current, delivered, from, calls))
    decreases |calls|
  {
    hide Inv, Admissible, Perform, DeliveredBy, HandedBy, UsedBy, SourcedBy, Sourced, Accepted, AllKnow;
    SourcedLengths(m, s, w, used, delivered, from);
    if |calls| > 0 && Admissible(m, s.current, calls[0]) {
      PerformSourced(m, s, w, calls[0], used, delivered, from);
      PerformTime(m, s, w, calls[0]);
      var r := Perform(m, s, w, calls[0]);
      if r.2 {
        PerformKeeps(m, s, w, calls[0], used, delivered);
        PerformKnows(m, s, w, calls[0], used, delivered);
        RunSourced(m, r.0, r.1, calls[1..], UsedBy(m, s, w, calls[0], used), DeliveredBy(delivered, s, calls[0]),
                   SourcedBy(m, s.current, delivered, from, calls[0]));
      }
    }
  }

  // ---------------------------------------------------------------------------
  // Convergence, tick by tick

  ghost function NoTicks(ids: set<PlayerId>): (from: Sources)
    ensures forall p :: p in from ==> |from[p]| == 0
  {
    map p | p in ids :: []
  }

  /** The input each tick of a run from a fresh session ends with. */
  ghost function SourcesOf<S, I>(m: Match<S, I>, calls: seq<Call<I>>): Sources
    requires AllAccepted(m, 0, NothingDelivered(m.ids), NoTicks(m.ids), calls)
  {
    SourcesAfter(m, 0, NothingDelivered(m.ids), NoTicks(m.ids), calls)
  }

  /** A match from the start, before any call. */
  ghost predicate Playable<S(!new), I(!new)>(m: Match<S, I>) {
    MatchValid(m) && m.lead < HALF && m.start.tick == 0
  }

  lemma SourcesStart<S(!new), I(!new)>(m: Match<S, I>)
    requires Playable(m)
    ensures m.config.inputHistory > 0
    ensures Inv(Fresh(m), m.start, m, [], NothingDelivered(m.ids)) && AllKnow(m, Fresh(m).players, NothingDelivered(m.ids))
    ensures Sourced(m, [], NoTicks(m.ids)) && Fresh(m).current == 0
  {
    StartsRight(m);
  }

  /** Whether a run's calls all return Ok can be told from its schedule: no input arrives for a
      tick `max_rollback` or more behind that was simulated on another one. */
  lemma RunsExactly<S(!new), I(!new)>(m: Match<S, I>, calls: seq<Call<I>>)
    requires Playable(m)
    ensures Plays(m, calls) <==> AllAccepted(m, 0, NothingDelivered(m.ids), NoTicks(m.ids), calls)
  {
    hide MatchValid, Inv, AllKnow, Sourced, Runs, AllAccepted, Fresh;
    SourcesStart(m);
    RunSourced(m, Fresh(m), m.start, calls, [], NothingDelivered(m.ids), NoTicks(m.ids));
  }

  /** Convergence. Whatever interleaving of frames, local inputs, late, repeated or reordered
      remote inputs and rollbacks a run went through, the world is the straight run over inputs
      the schedule alone determines. A tick whose input has arrived has it; any other has the
      newest that had arrived when it was last guessed. These are the given inputs, with the
      default wherever none arrived, exactly when each of those guesses is the default. */
  lemma Converges<S(!new), I(!new)>(m: Match<S, I>, calls: seq<Call<I>>)
    requires Plays(m, calls)
    ensures AllAccepted(m, 0, NothingDelivered(m.ids), NoTicks(m.ids), calls)
    ensures var r := Final(m, Fresh(m), m.start, calls);
            var used := UsedIn(m, Fresh(m), m.start, calls, []);
            var delivered, from := ArrivedIn(m, calls), SourcesOf(m, calls);
            && |used| == r.0.current < HALF && r.1 == StateOf(m, used) && Sourced(m, used, from)
            && (forall p, t: Tick :: p in m.ids && 1 <= t <= |used| && p in delivered && t in delivered[p] ==>
                  InputFrom(m, p, from[p][t - 1]) == m.truth(p)(t))
            && (used == Given(m, delivered, |used|) <==> GuessesDefault(m, delivered, from))
  {
    hide MatchValid, AllKnow, Runs, AllAccepted, Fresh, StateOf, UsedIn, Final, DeliveredIn, Inv, InputFrom, Sourced;
    SourcesStart(m);
    var none := NothingDelivered(m.ids);
    RunSourced(m, Fresh(m), m.start, calls, [], none, NoTicks(m.ids));
    RunKeeps(m, Fresh(m), m.start, calls, [], none);
    var r, used, delivered := Final(m, Fresh(m), m.start, calls), UsedIn(m, Fresh(m), m.start, calls, []), ArrivedIn(m, calls);
    FinalFacts(r.0, r.1, m, used, delivered);
    GivenByTick(m, r.0, r.1, used, delivered, SourcesOf(m, calls));
  }

  ghost predicate GuessesFor<S, I>(m: Match<S, I>, arrived: set<Tick>, sources: seq<Option<Tick>>, p: PlayerId) {
    forall t: Tick :: 1 <= t <= |sources| && t !in arrived ==> InputFrom(m, p, sources[t - 1]) == m.default
  }

  /** Every tick for which nothing arrived was last guessed to be the default. */
  ghost predicate GuessesDefault<S, I>(m: Match<S, I>, delivered: map<PlayerId, set<Tick>>, from: Sources) {
    forall p :: p in from && p in delivered ==> GuessesFor(m, delivered[p], from[p], p)
  }

  lemma GivenByTick<S(!new), I(!new)>(m: Match<S, I>, s: Session<S, I>, w: World<S>, used: seq<map<PlayerId, I>>,
                                      delivered: map<PlayerId, set<Tick>>, from: Sources)
    requires Inv(s, w, m, used, delivered) && Sourced(m, used, from) && |used| < HALF
    ensures forall p, t: Tick :: p in m.ids && 1 <= t <= |used| && p in delivered && t in delivered[p] ==>
              InputFrom(m, p, from[p][t - 1]) == m.truth(p)(t)
    ensures used == Given(m, delivered, |used|) <==> GuessesDefault(m, delivered, from)
  {
    hide StateOf, MatchValid, SavedInv, PlayerInv, InputFrom, Given, SourcedFor, GuessesFor;
    var given := Given(m, delivered, |used|);
    GivenPlays(m, delivered, |used|);
    forall p | p in m.ids
      ensures p in delivered && SourcedFor(m, used, from[p], p)
      ensures forall t: Tick :: 1 <= t <= |used| && t in delivered[p] ==>
                t <= |from[p]| && InputFrom(m, p, from[p][t - 1]) == m.truth(p)(t)
      ensures SameShare(used, given, p) <==> GuessesFor(m, delivered[p], from[p], p)
    {
      PlayerByTick(s.players[p], m, used, delivered, from[p], p);
    }
    if forall p :: p in m.ids ==> SameShare(used, given, p) {
      SharesDetermine(used, given, m.ids);
    }
    if used == given {
      forall p | p in m.ids
        ensures SameShare(used, given, p)
      {
      }
    }
  }

  lemma GivenPlays<S, I>(m: Match<S, I>, delivered: map<PlayerId, set<Tick>>, n: nat)
    requires n < HALF
    ensures AllPlay(Given(m, delivered, n), m.ids)
  {
  }

  /** One player's input at one tick: what its source says, and the real one once arrived. */
  lemma UsedAt<S(!new), I(!new)>(ring: PlayerInputs<I>, m: Match<S, I>, used: seq<map<PlayerId, I>>,
                                 delivered: map<PlayerId, set<Tick>>, sources: seq<Option<Tick>>, p: PlayerId, t: Tick)
    requires p in m.ids && p in delivered && AllPlay(used, m.ids) && |used| < HALF && SourcedFor(m, used, sources, p)
    requires PlayerInv(ring, WindowOf(m, |used|), Line(m, used, delivered, p)) && 1 <= t <= |used|
    ensures used[t - 1][p] == InputFrom(m, p, sources[t - 1])
    ensures t in delivered[p] ==> used[t - 1][p] == m.truth(p)(t)
  {
    hide InputFrom;
    if t in delivered[p] {
      DeliveredUsed(ring, WindowOf(m, |used|), Line(m, used, delivered, p), t);
    }
  }

  lemma PlayerByTick<S(!new), I(!new)>(ring: PlayerInputs<I>, m: Match<S, I>, used: seq<map<PlayerId, I>>,
                                       delivered: map<PlayerId, set<Tick>>, sources: seq<Option<Tick>>, p: PlayerId)
    requires p in m.ids && p in delivered && AllPlay(used, m.ids) && |used| < HALF && SourcedFor(m, used, sources, p)
    requires PlayerInv(ring, WindowOf(m, |used|), Line(m, used, delivered, p))
    ensures |sources| == |used|
    ensures forall t: Tick :: 1 <= t <= |used| && t in delivered[p] ==> InputFrom(m, p, sources[t - 1]) == m.truth(p)(t)
    ensures SameShare(used, Given(m, delivered, |used|), p) <==> GuessesFor(m, delivered[p], sources, p)
  {
    hide InputFrom, PlayerInv;
    var given := Given(m, delivered, |used|);
    forall t: Tick | 1 <= t <= |used|
      ensures used[t - 1][p] == InputFrom(m, p, sources[t - 1])
      ensures t in delivered[p] ==> used[t - 1][p] == m.truth(p)(t)
      ensures given[t - 1][p] == if t in delivered[p] then m.truth(p)(t) else m.default
    {
      UsedAt(ring, m, used, delivered, sources, p, t);
    }
    hide Given, SourcedFor;
    GivenPlays(m, delivered, |used|);
    if GuessesFor(m, delivered[p], sources, p) {
      forall k | 0 <= k < |used|
        ensures used[k][p] == given[k][p]
      {
        assert used[(k + 1) - 1][p] == given[(k + 1) - 1][p];
      }
    }
    if SameShare(used, given, p) {
      forall t: Tick | 1 <= t <= |sources| && t !in delivered[p]
        ensures InputFrom(m, p, sources[t - 1]) == m.default
      {
        assert used[t - 1][p] == given[t - 1][p];
      }
    }
  }

  /** Two sessions given the same inputs, in any two orders, agree at the same tick when both
      guessed the default wherever nothing arrived. */
  lemma OrdersAgree<S(!new), I(!new)>(m: Match<S, I>, a: seq<Call<I>>, b: seq<Call<I>>)
    requires Plays(m, a) && Plays(m, b) && ArrivedIn(m, a) == ArrivedIn(m, b)
    requires AllAccepted(m, 0, NothingDelivered(m.ids), NoTicks(m.ids), a)
    requires AllAccepted(m, 0, NothingDelivered(m.ids), NoTicks(m.ids), b)
    requires Final(m, Fresh(m), m.start, a).0.current == Final(m, Fresh(m), m.start, b).0.current
    requires GuessesDefault(m, ArrivedIn(m, a), SourcesOf(m, a)) && GuessesDefault(m, ArrivedIn(m, b), SourcesOf(m, b))
    ensures Final(m, Fresh(m), m.start, a).1 == Final(m, Fresh(m), m.start, b).1
  {
    hide Runs, Final, DeliveredIn, UsedIn, MatchValid, StateOf, Fresh, AllAccepted, GuessesDefault, Sourced;
    Converges(m, a);
    Converges(m, b);
  }

  // ----- a first tick -----

  /** What had arrived when tick `t` was first simulated. */
  ghost function ArrivedBefore<S, I>(m: Match<S, I>, current: Tick, delivered: map<PlayerId, set<Tick>>, calls: seq<Call<I>>, t: Tick)
    : map<PlayerId, set<Tick>>
    decreases |calls|
  {
    if |calls| == 0 || (calls[0].Step? && current + 1 == t) then delivered
    else ArrivedBefore(m, Later(current, calls[0]), HandedBy(m, current, delivered, calls[0]), calls[1..], t)
  }

  ghost function HandedIn<S, I>(m: Match<S, I>, current: Tick, delivered: map<PlayerId, set<Tick>>, calls: seq<Call<I>>)
    : map<PlayerId, set<Tick>>
    decreases |calls|
  {
    if |calls| == 0 then delivered
    else HandedIn(m, Later(current, calls[0]), HandedBy(m, current, delivered, calls[0]), calls[1..])
  }

  ghost predicate NothingUpTo(delivered: map<PlayerId, set<Tick>>, p: PlayerId, t: Tick) {
    p in delivered && forall u :: u in delivered[p] ==> u > t
  }

  lemma {:induction false} NothingBefore<S, I>(m: Match<S, I>, current: Tick, delivered: map<PlayerId, set<Tick>>,
                                               calls: seq<Call<I>>, p: PlayerId, t: Tick)
    requires p in delivered && NothingUpTo(HandedIn(m, current, delivered, calls), p, t)
    ensures NothingUpTo(delivered, p, t)
    decreases |calls|
  {
    if |calls| > 0 {
      NothingBefore(m, Later(current, calls[0]), HandedBy(m, current, delivered, calls[0]), calls[1..], p, t);
    }
  }

  lemma {:induction false} TimeOnlyGrows<S, I>(m: Match<S, I>, current: Tick, delivered: map<PlayerId, set<Tick>>, from: Sources,
                                               calls: seq<Call<I>>, p: PlayerId, t: Tick)
    requires (forall q :: q in from ==> |from[q]| == current) && AllAccepted(m, current, delivered, from, calls)
    requires p in from && p in delivered && 1 <= t <= current
    requires NothingUpTo(HandedIn(m, current, delivered, calls), p, t)
    ensures var after := SourcesAfter(m, current, delivered, from, calls);
            p in after && t <= |after[p]| && after[p][t - 1] == from[p][t - 1]
    decreases |calls|
  {
    hide Wrong, Accepted, Admissible, Guess;
    if |calls| > 0 {
      var next := HandedBy(m, current, delivered, calls[0]);
      NothingBefore(m, Later(current, calls[0]), next, calls[1..], p, t);
      LaterTick(m, current, delivered, from, calls[0], p, t);
      TimeOnlyGrows(m, Later(current, calls[0]), next, SourcedBy(m, current, delivered, from, calls[0]), calls[1..], p, t);
    }
  }

  lemma LaterTick<S, I>(m: Match<S, I>, current: Tick, delivered: map<PlayerId, set<Tick>>, from: Sources, call: Call<I>,
                        p: PlayerId, t: Tick)
    requires (forall q :: q in from ==> |from[q]| == current) && current + 1 < U32
    requires p in from && p in delivered && 1 <= t <= current && NothingUpTo(HandedBy(m, current, delivered, call), p, t)
    ensures t <= Later(current, call) && SourcedBy(m, current, delivered, from, call)[p][t - 1] == from[p][t - 1]
  {
  }

  lemma {:induction false} FirstGuessStands<S, I>(m: Match<S, I>, current: Tick, delivered: map<PlayerId, set<Tick>>, from: Sources,
                                                  calls: seq<Call<I>>, p: PlayerId, t: Tick)
    requires (forall q :: q in from ==> |from[q]| == current) && AllAccepted(m, current, delivered, from, calls)
    requires p in from && p in delivered && current < t
    requires NothingUpTo(HandedIn(m, current, delivered, calls), p, t)
    ensures var after := SourcesAfter(m, current, delivered, from, calls);
            var arrived := ArrivedBefore(m, current, delivered, calls, t);
            && p in after && p in arrived
            && (t <= |after[p]| ==> after[p][t - 1] == Newest(arrived[p]))
    decreases |calls|
  {
    hide Wrong, Accepted, Admissible, Newest;
    if |calls| > 0 {
      var call := calls[0];
      var next, sources := HandedBy(m, current, delivered, call), SourcedBy(m, current, delivered, from, call);
      NothingBefore(m, current, delivered, calls, p, t);
      if call.Step? && current + 1 == t {
        TimeOnlyGrows(m, t, next, sources, calls[1..], p, t);
      } else {
        FirstGuessStands(m, Later(current, call), next, sources, calls[1..], p, t);
      }
    }
  }

  /** A tick of a player none of whose inputs up to it ever arrived has the default exactly when
      the player was mute when it was first simulated. */
  lemma FirstTickExactly<S(!new), I(!new)>(m: Match<S, I>, calls: seq<Call<I>>, p: PlayerId, t: Tick)
    requires Plays(m, calls) && p in m.ids
    requires var used := UsedIn(m, Fresh(m), m.start, calls, []); 1 <= t <= |used|
    requires NothingUpTo(ArrivedIn(m, calls), p, t)
    ensures var used := UsedIn(m, Fresh(m), m.start, calls, []);
            && p in used[t - 1]
            && (used[t - 1][p] == m.default <==> Mute(m, ArrivedBefore(m, 0, NothingDelivered(m.ids), calls, t), p))
  {
    hide MatchValid, Runs, AllAccepted, Fresh, StateOf, UsedIn, Final, DeliveredIn, Given, GuessesDefault, SourcesAfter, ArrivedBefore;
    Converges(m, calls);
    SourcesStart(m);
    var none := NothingDelivered(m.ids);
    HandedIsDelivered(m, Fresh(m), m.start, calls, [], none);
    FirstGuessStands(m, 0, none, NoTicks(m.ids), calls, p, t);
    assert SourcedFor(m, UsedIn(m, Fresh(m), m.start, calls, []), SourcesOf(m, calls)[p], p);
    NewestMute(m, ArrivedBefore(m, 0, none, calls, t), p);
  }

  lemma NewestMute<S, I>(m: Match<S, I>, delivered: map<PlayerId, set<Tick>>, p: PlayerId)
    requires p in delivered
    ensures InputFrom(m, p, Newest(delivered[p])) == m.default <==> Mute(m, delivered, p)
  {
    if n: Tick :| IsNewest(n, delivered[p]) {
      NewestIs(delivered[p], n);
    }
  }

  lemma {:induction false} HandedIsDelivered<S(!new), I(!new)>(
      m: Match<S, I>, s: Session<S, I>, w: World<S>, calls: seq<Call<I>>, used: seq<map<PlayerId, I>>, delivered: map<PlayerId, set<Tick>>)
    requires Inv(s, w, m, used, delivered) && Sized(s) && Runs(m, s, w, calls)
    ensures DeliveredIn(m, s, w, calls, delivered) == HandedIn(m, s.current, delivered, calls)
    decreases |calls|
  {
    hide Inv, Admissible, Perform, UsedBy;
    if |calls| > 0 {
      var r := Perform(m, s, w, calls[0]);
      TimelineLength(m, s, w, used, delivered);
      PerformTime(m, s, w, calls[0]);
      CurrentSmall(m, s, calls[0]);
      PerformKeeps(m, s, w, calls[0], used, delivered);
      HandedIsDelivered(m, r.0, r.1, calls[1..], UsedBy(m, s, w, calls[0], used), DeliveredBy(delivered, s, calls[0]));
    }
  }

  lemma CurrentSmall<S, I>(m: Match<S, I>, s: Session<S, I>, call: Call<I>)
    requires Admissible(m, s.current, call)
    ensures call.Step? ==> Later(s.current, call) == s.current + 1
  {
  }
}
