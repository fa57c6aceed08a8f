/** Convergence over whole runs. A session stamps local inputs `input_delay` ticks ahead, so
    nobody's input is ever meant for its first ticks: they are predictions for good, and the
    order in which inputs arrive can be told from them. */
module InputDelay {
  import opened Common
  import opened Ticks
  import opened Inputs
  import opened Rollback
  import opened Convergence
  import opened SessionRuns

  // ---------------------------------------------------------------------------
  // What a ring knows of the real inputs

  ghost predicate IsNewest(n: Tick, arrived: set<Tick>) {
    n in arrived && forall u :: u in arrived ==> u <= n
  }

  /** Confirmed entries arrived, and predictions repeat the newest arrival. */
  ghost predicate Knows<I>(ring: PlayerInputs<I>, arrived: set<Tick>, truth: Tick -> I)
    requires |ring.slots| > 0
  {
    && (forall u: Tick :: At(ring, u).Some? && At(ring, u).value.source.Confirmed? ==> u in arrived)
    && if arrived == {} then ring.lastConfirmed.None? && ring.lastKnown.None?
       else ring.lastConfirmed.Some? && IsNewest(ring.lastConfirmed.value, arrived)
            && ring.lastKnown == Some(truth(ring.lastConfirmed.value))
  }

  ghost predicate AllKnow<S, I>(m: Match<S, I>, players: map<PlayerId, PlayerInputs<I>>, delivered: map<PlayerId, set<Tick>>) {
    && players.Keys == delivered.Keys
    && forall p :: p in players ==> |players[p].slots| > 0 && Knows(players[p], delivered[p], m.truth(p))
  }

  lemma ConfirmKnows<I>(ring: PlayerInputs<I>, arrived: set<Tick>, truth: Tick -> I, t: Tick)
    requires |ring.slots| > 0 && Knows(ring, arrived, truth) && t < HALF
    requires forall u :: u in arrived ==> u < HALF
    requires forall u :: u in Held(ring) ==> u < HALF
    ensures Knows(ConfirmOne(ring, t, truth(t)).0, arrived + {t}, truth)
  {
    ConfirmLog(ring, t, truth(t));
    var r := ConfirmOne(ring, t, truth(t)).0;
    var g, after := LogOf(ring), LogOf(r);
    forall u: Tick | At(r, u).Some? && At(r, u).value.source.Confirmed?
      ensures u in arrived + {t}
    {
      assert u in after.held;
      assert u != t ==> u in g.held && At(ring, u) == Some(g.held[u]);
    }
  }

  /** Guessing leaves what is confirmed, and what guesses repeat, alone. */
  ghost predicate OnlyGuesses<I>(a: PlayerInputs<I>, b: PlayerInputs<I>)
    requires |a.slots| > 0
  {
    && |b.slots| == |a.slots| && b.lastConfirmed == a.lastConfirmed && b.lastKnown == a.lastKnown
    && forall u: Tick :: At(b, u).Some? && At(b, u).value.source.Confirmed? ==> At(a, u) == At(b, u)
  }

  ghost predicate AllGuesses<I>(a: map<PlayerId, PlayerInputs<I>>, b: map<PlayerId, PlayerInputs<I>>)
    requires RingsSized(a)
  {
    b.Keys == a.Keys && forall p :: p in a ==> OnlyGuesses(a[p], b[p])
  }

  lemma PredictGuesses<I>(ring: PlayerInputs<I>, t: Tick, default: I)
    requires |ring.slots| > 0
    ensures OnlyGuesses(ring, PredictOne(ring, t, default).0)
  {
    var q := PredictOne(ring, t, default).0;
    if At(ring, t).None? {
      forall u: Tick | At(q, u).Some? && At(q, u).value.source.Confirmed?
        ensures At(ring, u) == At(q, u)
      {
        assert u % |ring.slots| != t % |ring.slots|;
      }
    }
  }

  lemma AllPredictGuesses<I>(players: map<PlayerId, PlayerInputs<I>>, t: Tick, default: I)
    requires RingsSized(players)
    ensures AllGuesses(players, PredictAll(players, t, default))
  {
    hide PredictOne, OnlyGuesses;
    forall p | p in players
      ensures OnlyGuesses(players[p], PredictAll(players, t, default)[p])
    {
      PredictGuesses(players[p], t, default);
    }
  }

  lemma GuessesTrans<I>(a: map<PlayerId, PlayerInputs<I>>, b: map<PlayerId, PlayerInputs<I>>, c: map<PlayerId, PlayerInputs<I>>)
    requires RingsSized(a) && RingsSized(b) && AllGuesses(a, b) && AllGuesses(b, c)
    ensures AllGuesses(a, c)
  {
    hide At;
    forall p | p in a
      ensures OnlyGuesses(a[p], c[p])
    {
      assert OnlyGuesses(a[p], b[p]) && OnlyGuesses(b[p], c[p]);
    }
  }

  lemma GuessesSelf<I>(a: map<PlayerId, PlayerInputs<I>>)
    requires RingsSized(a)
    ensures AllGuesses(a, a)
  {
  }

  lemma {:induction false} ResimulateGuesses<S, I>(sim: Simulate<S, I>, s: Session<S, I>, w: World<S>, t: Tick, target: Tick)
    requires Sized(s)
    ensures AllGuesses(s.players, Resimulate(sim, s, w, t, target).0.players)
    decreases if IsNewer(t, target) then 0 else Minus(target, t) + 1
  {
    hide AllGuesses, FrameAt;
    if IsNewer(t, target) {
      GuessesSelf(s.players);
    } else {
      AllPredictGuesses(s.players, t, s.default);
      var (s1, w1) := SimulateTick(sim, s, w, t);
      if t != target {
        ResimulateGuesses(sim, s1, w1, Plus(t, 1), target);
        GuessesTrans(s.players, s1.players, Resimulate(sim, s1, w1, Plus(t, 1), target).0.players);
      }
    }
  }

  lemma RollbackGuesses<S, I>(sim: Simulate<S, I>, s: Session<S, I>, w: World<S>, t: Tick)
    requires Sized(s)
    ensures AllGuesses(s.players, RollbackTo(sim, s, w, t).0.players)
  {
    hide AllGuesses, Resimulate;
    GuessesSelf(s.players);
    if SavedGet(s.saved, Minus(t, 1)).Some? {
      ResimulateGuesses(sim, s, SavedGet(s.saved, Minus(t, 1)).value, t, s.current);
    }
  }

  lemma GuessesKnow<S, I>(m: Match<S, I>, a: map<PlayerId, PlayerInputs<I>>, b: map<PlayerId, PlayerInputs<I>>,
                          delivered: map<PlayerId, set<Tick>>)
    requires RingsSized(a) && AllKnow(m, a, delivered) && AllGuesses(a, b)
    ensures AllKnow(m, b, delivered)
  {
    hide Knows, OnlyGuesses;
    forall p | p in b
      ensures |b[p].slots| > 0 && Knows(b[p], delivered[p], m.truth(p))
    {
      GuessKnows(a[p], b[p], delivered[p], m.truth(p));
    }
  }

  lemma GuessKnows<I>(a: PlayerInputs<I>, b: PlayerInputs<I>, arrived: set<Tick>, truth: Tick -> I)
    requires |a.slots| > 0 && Knows(a, arrived, truth) && OnlyGuesses(a, b)
    ensures |b.slots| > 0 && Knows(b, arrived, truth)
  {
    hide At;
  }

  lemma ConfirmAllKnow<S(!new), I(!new)>(m: Match<S, I>, s: Session<S, I>, w: World<S>, used: seq<map<PlayerId, I>>,
                                         delivered: map<PlayerId, set<Tick>>, p: PlayerId, t: Tick)
    requires Inv(s, w, m, used, delivered) && AllKnow(m, s.players, delivered)
    requires p in m.ids && t < HALF
    ensures Sized(s) && p in delivered
    ensures AllKnow(m, Confirm(s, p, t, m.truth(p)(t)).0.players, Deliver(delivered, p, t))
  {
    hide Knows, ConfirmOne, SavedInv, StateOf, MatchValid;
    RingBounds(s.players[p], WindowOf(m, |used|), Line(m, used, delivered, p));
    ConfirmKnows(s.players[p], delivered[p], m.truth(p), t);
  }

  lemma RingBounds<I>(ring: PlayerInputs<I>, w: Window, line: Timeline<I>)
    requires PlayerInv(ring, w, line)
    ensures forall u :: u in line.delivered ==> u < HALF
    ensures forall u :: u in Held(ring) ==> u < HALF
  {
    assert EntriesTrue(LogOf(ring), w, line) && DeliveredInForce(Held(ring), w, line);
  }

  /** Every call keeps what the rings know. */
  lemma PerformKnows<S(!new), I(!new)>(
      m: Match<S, I>, s: Session<S, I>, w: World<S>, call: Call<I>, used: seq<map<PlayerId, I>>, delivered: map<PlayerId, set<Tick>>)
    requires Inv(s, w, m, used, delivered) && AllKnow(m, s.players, delivered)
    requires Admissible(m, s.current, call)
    ensures Sized(s)
    ensures AllKnow(m, Perform(m, s, w, call).0.players, DeliveredBy(delivered, s, call))
  {
    hide AllKnow, AllGuesses, Pending, RollbackTo, Confirm, FrameAt, SyncTest;
    InvFacts(s, w, m, used, delivered);
    match call
    case Step =>
      AllPredictGuesses(s.players, Plus(s.current, 1), s.default);
      GuessesKnow(m, s.players, Perform(m, s, w, call).0.players, delivered);
    case Local(p) => ConfirmAllKnow(m, s, w, used, delivered, p, LocalTarget(s));
    case Remote(p, t) =>
      ConfirmAllKnow(m, s, w, used, delivered, p, t);
      var s1 := Confirm(s, p, t, m.truth(p)(t)).0;
      RollbackGuesses(m.sim, s1, w, t);
      if Confirm(s, p, t, m.truth(p)(t)).1 {
        GuessesKnow(m, s1.players, RollbackTo(m.sim, s1, w, t).0.players, Deliver(delivered, p, t));
      }
    case Rewind(t) =>
      RollbackGuesses(m.sim, s, w, t);
      GuessesKnow(m, s.players, RollbackTo(m.sim, s, w, t).0.players, delivered);
    case Check => SyncTestPasses(s, w, m, used, delivered);
  }

  // ---------------------------------------------------------------------------
  // The first ticks

  /** Nothing newer than the default is known of the player: nothing of its has arrived, or
      the newest arrival is the default input. */
  ghost predicate Mute<S, I>(m: Match<S, I>, delivered: map<PlayerId, set<Tick>>, p: PlayerId) {
    p in delivered && forall n :: IsNewest(n, delivered[p]) ==> m.truth(p)(n) == m.default
  }

  /** Whenever one of the first `input_delay` ticks is simulated for the first time, the
      player is mute. */
  ghost predicate QuietFor<S, I>(m: Match<S, I>, s: Session<S, I>, w: World<S>, calls: seq<Call<I>>,
                                 delivered: map<PlayerId, set<Tick>>, p: PlayerId)
    requires Sized(s)
    decreases |calls|
  {
    |calls| > 0 ==>
      && (calls[0].Step? && s.current < m.config.inputDelay ==> Mute(m, delivered, p))
      && var r := Perform(m, s, w, calls[0]);
         QuietFor(m, r.0, r.1, calls[1..], DeliveredBy(delivered, s, calls[0]), p)
  }

  /** No input arrived for the player's first `input_delay` ticks. */
  ghost predicate Unheard<S, I>(m: Match<S, I>, delivered: map<PlayerId, set<Tick>>, p: PlayerId) {
    p in delivered && forall t :: t in delivered[p] ==> t > m.config.inputDelay
  }

  /** The timeline gave the player the default input for the first `input_delay` ticks. */
  ghost predicate Defaulted<S, I>(m: Match<S, I>, used: seq<map<PlayerId, I>>, p: PlayerId) {
    forall k: nat :: k < |used| && k < m.config.inputDelay ==> p in used[k] && used[k][p] == m.default
  }

  lemma GuessIsDefault<S, I>(m: Match<S, I>, ring: PlayerInputs<I>, delivered: map<PlayerId, set<Tick>>, p: PlayerId, t: Tick)
    requires p in delivered && |ring.slots| > 0 && Knows(ring, delivered[p], m.truth(p)) && At(ring, t).None?
    ensures PredictOne(ring, t, m.default).1 == m.default <==> Mute(m, delivered, p)
  {
    if delivered[p] != {} {
      assert IsNewest(ring.lastConfirmed.value, delivered[p]);
    }
  }

  /** A tick not yet simulated, and for which nothing arrived, is not in the ring. */
  lemma NotHeldYet<I>(ring: PlayerInputs<I>, w: Window, line: Timeline<I>, truth: Tick -> I, t: Tick)
    requires PlayerInv(ring, w, line) && Knows(ring, line.delivered, truth)
    requires t > w.hi && t !in line.delivered
    ensures At(ring, t).None?
  {
    assert t in Held(ring) <==> At(ring, t).Some?;
    assert EntriesTrue(LogOf(ring), w, line);
  }

  lemma StepQuiet<S(!new), I(!new)>(m: Match<S, I>, s: Session<S, I>, w: World<S>, used: seq<map<PlayerId, I>>,
                                    delivered: map<PlayerId, set<Tick>>, p: PlayerId)
    requires Inv(s, w, m, used, delivered) && AllKnow(m, s.players, delivered)
    requires p in m.ids && s.current + 1 < HALF && Unheard(m, delivered, p)
    ensures Sized(s)
    ensures Defaulted(m, used + [InputsAt(s.players, s.current + 1, m.default)], p) <==>
            Defaulted(m, used, p) && (s.current < m.config.inputDelay ==> Mute(m, delivered, p))
  {
    hide Knows, PlayerInv, PredictOne, SavedInv, StateOf, MatchValid, Mute;
    var t: Tick := s.current + 1;
    var ring := s.players[p];
    var used' := used + [InputsAt(s.players, t, m.default)];
    assert used'[|used|][p] == PredictOne(ring, t, m.default).1;
    assert forall k :: 0 <= k < |used| ==> used'[k] == used[k];
    if s.current < m.config.inputDelay {
      NotHeldYet(ring, WindowOf(m, |used|), Line(m, used, delivered, p), m.truth(p), t);
      GuessIsDefault(m, ring, delivered, p, t);
    }
  }

  /** A re-simulation asks a ring only for what it holds, so the ring stays as it is. */
  lemma {:induction false} ResimulateLeaves<S, I>(sim: Simulate<S, I>, s: Session<S, I>, w: World<S>, t: Tick, target: Tick, p: PlayerId)
    requires Sized(s) && p in s.players && t <= target + 1 && target < HALF
    requires forall u: Tick :: t <= u <= target ==> At(s.players[p], u).Some?
    ensures var r := Resimulate(sim, s, w, t, target); p in r.0.players && r.0.players[p] == s.players[p]
    decreases target + 1 - t
  {
    hide Resimulate, SimulateTick, At;
    if t <= target {
      ResimulateUnfolds(sim, s, w, t, target);
      SimulateLeaves(sim, s, w, t, p);
      var (s1, w1) := SimulateTick(sim, s, w, t);
      if t < target {
        ResimulateLeaves(sim, s1, w1, t + 1, target, p);
      }
    } else {
      ResimulateStops(sim, s, w, t, target);
    }
  }

  lemma SimulateLeaves<S, I>(sim: Simulate<S, I>, s: Session<S, I>, w: World<S>, t: Tick, p: PlayerId)
    requires Sized(s) && p in s.players && At(s.players[p], t).Some?
    ensures var r := SimulateTick(sim, s, w, t); p in r.0.players && r.0.players[p] == s.players[p]
  {
    hide At, FrameAt;
  }

  lemma RollbackLeaves<S, I>(sim: Simulate<S, I>, s: Session<S, I>, w: World<S>, t: Tick, p: PlayerId)
    requires Sized(s) && p in s.players && t <= s.current < HALF
    requires forall u: Tick :: t <= u <= s.current ==> At(s.players[p], u).Some?
    ensures var r := RollbackTo(sim, s, w, t); p in r.0.players && r.0.players[p] == s.players[p]
  {
    hide Resimulate, At;
    if SavedGet(s.saved, Minus(t, 1)).Some? {
      ResimulateLeaves(sim, s, SavedGet(s.saved, Minus(t, 1)).value, t, s.current, p);
    }
  }

  /** A player whose ring a rollback leaves alone keeps its share of the timeline. */
  lemma RedoneLeaves<S(!new), I(!new)>(m: Match<S, I>, s: Session<S, I>, w: World<S>, used: seq<map<PlayerId, I>>,
                                       delivered: map<PlayerId, set<Tick>>, r: Session<S, I>, t: Tick, p: PlayerId)
    requires Inv(s, w, m, used, delivered) && p in m.ids
    requires Sized(r) && r.current == s.current && p in r.players && r.players[p] == s.players[p]
    requires 1 <= t <= s.current && WindowOf(m, s.current).lo < t
    ensures var again := Redone(used, r, m.default, t);
            && |again| == |used|
            && forall k :: 0 <= k < |used| ==> p in again[k] && again[k][p] == used[k][p]
  {
    hide PlayerInv, PredictOne, SavedInv, StateOf, MatchValid;
    var again := Redone(used, r, m.default, t);
    forall k | 0 <= k < |used|
      ensures p in again[k] && again[k][p] == used[k][p]
    {
      if k >= t - 1 {
        assert again[k] == InputsAt(r.players, k + 1, m.default);
        Remembered(s.players[p], WindowOf(m, |used|), Line(m, used, delivered, p), k + 1);
      }
    }
  }

  /** Every tick of the window is in every ring. */
  lemma WindowHeld<S(!new), I(!new)>(m: Match<S, I>, s: Session<S, I>, w: World<S>, used: seq<map<PlayerId, I>>,
                                     delivered: map<PlayerId, set<Tick>>, t: Tick, p: PlayerId)
    requires Inv(s, w, m, used, delivered) && p in m.ids && 1 <= t && WindowOf(m, s.current).lo < t
    ensures p in s.players && |s.players[p].slots| > 0
    ensures forall u: Tick :: t <= u <= s.current ==> At(s.players[p], u).Some?
  {
    hide SavedInv, StateOf, MatchValid;
    var ring := s.players[p];
    assert HoldsUsed(Held(ring), WindowOf(m, |used|), Line(m, used, delivered, p));
    forall u: Tick | t <= u <= s.current
      ensures At(ring, u).Some?
    {
      assert u in Held(ring);
    }
  }

  /** One call gives one of the player's first ticks something else than the default exactly
      when it simulates it for the first time and the player is not mute. */
  lemma PerformQuiet<S(!new), I(!new)>(
      m: Match<S, I>, s: Session<S, I>, w: World<S>, call: Call<I>, used: seq<map<PlayerId, I>>,
      delivered: map<PlayerId, set<Tick>>, p: PlayerId)
    requires Inv(s, w, m, used, delivered) && AllKnow(m, s.players, delivered)
    requires Admissible(m, s.current, call) && p in m.ids
    requires Unheard(m, DeliveredBy(delivered, s, call), p)
    ensures Sized(s)
    ensures Defaulted(m, UsedBy(m, s, w, call, used), p) <==>
            Defaulted(m, used, p) && (call.Step? && s.current < m.config.inputDelay ==> Mute(m, delivered, p))
  {
    hide Pending, Mute, Redone, AllKnow, RollbackTo, WindowOf;
    InvFacts(s, w, m, used, delivered);
    match call
    case Step => StepQuiet(m, s, w, used, delivered, p);
    case Remote(q, t) =>
      if Confirm(s, q, t, m.truth(q)(t)).1 {
        RemoteQuiet(m, s, w, used, delivered, q, t, p);
      }
    case Rewind(t) =>
      WindowReaches(s, w, m, used, delivered, t);
      WindowHeld(m, s, w, used, delivered, t, p);
      RollbackLeaves(m.sim, s, w, t, p);
      RollbackTime(m.sim, s, w, t);
      TimelinePlays(m, s, w, used, delivered, p);
      RedoneLeaves(m, s, w, used, delivered, RollbackTo(m.sim, s, w, t).0, t, p);
      DefaultedSame(m, used, UsedBy(m, s, w, call, used), p);
    case _ =>
  }

  lemma RollbackTime<S, I>(sim: Simulate<S, I>, s: Session<S, I>, w: World<S>, t: Tick)
    requires Sized(s)
    ensures RollbackTo(sim, s, w, t).0.current == s.current
  {
    hide Resimulate;
  }

  lemma DefaultedSame<S, I>(m: Match<S, I>, a: seq<map<PlayerId, I>>, b: seq<map<PlayerId, I>>, p: PlayerId)
    requires |a| == |b|
    requires forall k :: 0 <= k < |a| ==> p in a[k]
    requires forall k :: 0 <= k < |a| && k < m.config.inputDelay ==> p in b[k] && b[k][p] == a[k][p]
    ensures Defaulted(m, a, p) <==> Defaulted(m, b, p)
  {
  }

  lemma RemoteQuiet<S(!new), I(!new)>(
      m: Match<S, I>, s: Session<S, I>, w: World<S>, used: seq<map<PlayerId, I>>, delivered: map<PlayerId, set<Tick>>,
      q: PlayerId, t: Tick, p: PlayerId)
    requires Inv(s, w, m, used, delivered) && Sized(s) && p in m.ids
    requires Admissible(m, s.current, Remote(q, t)) && Confirm(s, q, t, m.truth(q)(t)).1
    requires Unheard(m, DeliveredBy(delivered, s, Remote(q, t)), p)
    ensures Defaulted(m, UsedBy(m, s, w, Remote(q, t), used), p) <==> Defaulted(m, used, p)
  {
    hide PlayersInv, SavedInv, StateOf, MatchValid, RollbackTo, ConfirmOne, Redone;
    var s1 := Confirm(s, q, t, m.truth(q)(t)).0;
    ContradictionPrepares(s, w, m, used, delivered, q, t);
    RollbackTime(m.sim, s1, w, t);
    var r := RollbackTo(m.sim, s1, w, t).0;
    var again := Redone(used, r, m.default, t);
    assert UsedBy(m, s, w, Remote(q, t), used) == again;
    TimelinePlays(m, s, w, used, delivered, p);
    if q == p {
      assert t > m.config.inputDelay;
      RedonePrefix(used, r, m.default, t);
    } else {
      WindowHeld(m, s, w, used, delivered, t, p);
      RollbackLeaves(m.sim, s1, w, t, p);
      RedoneLeaves(m, s, w, used, delivered, r, t, p);
    }
    DefaultedSame(m, used, again, p);
  }

  lemma TimelinePlays<S(!new), I(!new)>(m: Match<S, I>, s: Session<S, I>, w: World<S>, used: seq<map<PlayerId, I>>,
                                        delivered: map<PlayerId, set<Tick>>, p: PlayerId)
    requires Inv(s, w, m, used, delivered) && p in m.ids
    ensures p in s.players && forall k :: 0 <= k < |used| ==> p in used[k]
  {
    hide PlayerInv, SavedInv, StateOf, MatchValid;
  }

  lemma RedonePrefix<S, I>(used: seq<map<PlayerId, I>>, s: Session<S, I>, default: I, t: Tick)
    requires Sized(s) && s.current == |used|
    ensures var again := Redone(used, s, default, t);
            |again| == |used| && forall k :: 0 <= k < |used| && k < t - 1 ==> again[k] == used[k]
  {
  }

  lemma {:induction false} UnheardBefore<S, I>(m: Match<S, I>, s: Session<S, I>, w: World<S>, calls: seq<Call<I>>,
                                               delivered: map<PlayerId, set<Tick>>, p: PlayerId)
    requires Sized(s) && p in delivered
    requires Unheard(m, DeliveredIn(m, s, w, calls, delivered), p)
    ensures Unheard(m, delivered, p)
    decreases |calls|
  {
    hide Perform;
    if |calls| > 0 {
      var r := Perform(m, s, w, calls[0]);
      UnheardBefore(m, r.0, r.1, calls[1..], DeliveredBy(delivered, s, calls[0]), p);
    }
  }

  /** Over a run, a player for whose first ticks nothing arrives has the default input there
      exactly when it was mute whenever one of them was first simulated. */
  lemma {:induction false} RunQuiet<S(!new), I(!new)>(
      m: Match<S, I>, s: Session<S, I>, w: World<S>, calls: seq<Call<I>>, used: seq<map<PlayerId, I>>,
      delivered: map<PlayerId, set<Tick>>, p: PlayerId)
    requires Inv(s, w, m, used, delivered) && Sized(s) && AllKnow(m, s.players, delivered)
    requires Runs(m, s, w, calls) && p in m.ids
    requires Unheard(m, DeliveredIn(m, s, w, calls, delivered), p)
    ensures Defaulted(m, UsedIn(m, s, w, calls, used), p) <==>
            Defaulted(m, used, p) && QuietFor(m, s, w, calls, delivered, p)
    decreases |calls|
  {
    hide Inv, Admissible, Perform, DeliveredBy, UsedBy, AllKnow, Unheard, Defaulted, Mute;
    if |calls| > 0 {
      var r := Perform(m, s, w, calls[0]);
      PerformKeeps(m, s, w, calls[0], used, delivered);
      PerformKnows(m, s, w, calls[0], used, delivered);
      var next := DeliveredBy(delivered, s, calls[0]);
      Everyone(r.0, r.1, m, UsedBy(m, s, w, calls[0], used), next, p);
      UnheardBefore(m, r.0, r.1, calls[1..], next, p);
      PerformQuiet(m, s, w, calls[0], used, delivered, p);
      RunQuiet(m, r.0, r.1, calls[1..], UsedBy(m, s, w, calls[0], used), next, p);
    }
  }

  lemma Everyone<S(!new), I(!new)>(s: Session<S, I>, w: World<S>, m: Match<S, I>, used: seq<map<PlayerId, I>>,
                                   delivered: map<PlayerId, set<Tick>>, p: PlayerId)
    requires Inv(s, w, m, used, delivered) && p in m.ids
    ensures p in delivered
  {
    hide PlayerInv, SavedInv, StateOf, MatchValid;
  }

  // ---------------------------------------------------------------------------
  // Convergence

  ghost function NothingDelivered(ids: set<PlayerId>): map<PlayerId, set<Tick>> {
    map p | p in ids :: {}
  }

  lemma StartsRight<S(!new), I(!new)>(m: Match<S, I>)
    requires MatchValid(m) && m.lead < HALF && m.start.tick == 0
    ensures var s0 := NewSession(m.config, m.ids, m.default);
            && Sized(s0) && Inv(s0, m.start, m, [], NothingDelivered(m.ids))
            && AllKnow(m, s0.players, NothingDelivered(m.ids))
  {
    hide IgnoresSource;
    var s := NewSession<S, I>(m.config, m.ids, m.default);
    forall p | p in s.players
      ensures PlayerInv(s.players[p], WindowOf(m, 0), Line(m, [], NothingDelivered(m.ids), p))
    {
      assert Held(s.players[p]) == map[];
    }
  }

  /** The arrived inputs, and the default where none arrived. */
  ghost function Given<S, I>(m: Match<S, I>, delivered: map<PlayerId, set<Tick>>, n: nat): (used: seq<map<PlayerId, I>>)
    requires n < HALF
    ensures |used| == n
  {
    seq(n, k requires 0 <= k < n =>
      map p | p in m.ids :: if p in delivered && k + 1 in delivered[p] then m.truth(p)(k + 1) else m.default)
  }

  /** Every player's input for every simulated tick past the delay arrived; for its first
      `input_delay` ticks either all did, or none. */
  ghost predicate Arrived<S, I>(m: Match<S, I>, delivered: map<PlayerId, set<Tick>>, current: Tick) {
    forall p :: p in m.ids ==>
      && p in delivered
      && (forall t: Tick :: m.config.inputDelay < t <= current ==> t in delivered[p])
      && (Unheard(m, delivered, p) || forall t: Tick :: 1 <= t <= m.config.inputDelay && t <= current ==> t in delivered[p])
  }

  lemma DeliveredUsed<I>(ring: PlayerInputs<I>, w: Window, line: Timeline<I>, t: Tick)
    requires PlayerInv(ring, w, line) && t in line.delivered && 1 <= t <= |line.used|
    ensures line.used[t - 1] == line.truth(t)
  {
    assert DeliveredInForce(Held(ring), w, line);
  }

  /** What arrived is what was used, so only the unheard first ticks are in question. */
  lemma UsedIsGiven<S(!new), I(!new)>(s: Session<S, I>, w: World<S>, m: Match<S, I>, used: seq<map<PlayerId, I>>,
                                      delivered: map<PlayerId, set<Tick>>)
    requires Inv(s, w, m, used, delivered) && s.current < HALF && Arrived(m, delivered, s.current)
    ensures used == Given(m, delivered, s.current) <==>
            forall p :: p in m.ids && Unheard(m, delivered, p) ==> Defaulted(m, used, p)
  {
    hide StateOf, MatchValid, SavedInv, PlayerInv, Arrived, Unheard, Defaulted;
    var n, given := s.current, Given(m, delivered, s.current);
    assert AllPlay(used, m.ids) && |used| == n;
    forall p | p in m.ids
      ensures SameShare(used, given, p) <==> (Unheard(m, delivered, p) ==> Defaulted(m, used, p))
    {
      ShareIsGiven(s.players[p], m, used, delivered, p);
    }
    if forall p :: p in m.ids ==> SameShare(used, given, p) {
      SharesDetermine(used, given, m.ids);
    }
  }

  ghost predicate SameShare<I>(a: seq<map<PlayerId, I>>, b: seq<map<PlayerId, I>>, p: PlayerId) {
    |a| == |b| && forall k :: 0 <= k < |a| ==> p in a[k] && p in b[k] && a[k][p] == b[k][p]
  }

  lemma SharesDetermine<I>(a: seq<map<PlayerId, I>>, b: seq<map<PlayerId, I>>, ids: set<PlayerId>)
    requires |a| == |b| && AllPlay(a, ids) && AllPlay(b, ids)
    requires forall p :: p in ids ==> SameShare(a, b, p)
    ensures a == b
  {
    forall k | 0 <= k < |a|
      ensures a[k] == b[k]
    {
      assert a[k].Keys == b[k].Keys;
    }
  }

  lemma ShareIsGiven<S(!new), I(!new)>(ring: PlayerInputs<I>, m: Match<S, I>, used: seq<map<PlayerId, I>>,
                                       delivered: map<PlayerId, set<Tick>>, p: PlayerId)
    requires p in m.ids && AllPlay(used, m.ids) && |used| < HALF && Arrived(m, delivered, |used|)
    requires p in delivered && PlayerInv(ring, WindowOf(m, |used|), Line(m, used, delivered, p))
    ensures SameShare(used, Given(m, delivered, |used|), p) <==> (Unheard(m, delivered, p) ==> Defaulted(m, used, p))
  {
    var given := Given(m, delivered, |used|);
    forall k | 0 <= k < |used| && k + 1 in delivered[p]
      ensures used[k][p] == given[k][p]
    {
      DeliveredUsed(ring, WindowOf(m, |used|), Line(m, used, delivered, p), k + 1);
    }
    hide PlayerInv;
    if SameShare(used, given, p) {
      forall k: nat | Unheard(m, delivered, p) && k < |used| && k < m.config.inputDelay
        ensures used[k][p] == m.default
      {
        assert k + 1 !in delivered[p];
        assert used[k][p] == given[k][p];
      }
    }
  }

  /** The initial session of a match. */
  ghost function Fresh<S, I>(m: Match<S, I>): (s: Session<S, I>)
    requires m.config.inputHistory > 0
    ensures Sized(s)
  {
    NewSession(m.config, m.ids, m.default)
  }

  ghost function ArrivedIn<S, I>(m: Match<S, I>, calls: seq<Call<I>>): map<PlayerId, set<Tick>>
    requires m.config.inputHistory > 0
  {
    DeliveredIn(m, Fresh(m), m.start, calls, NothingDelivered(m.ids))
  }

  /** Every player for whose first ticks nothing arrives was mute while they were simulated. */
  ghost predicate Quiet<S, I>(m: Match<S, I>, calls: seq<Call<I>>)
    requires m.config.inputHistory > 0
  {
    forall p :: p in m.ids && Unheard(m, ArrivedIn(m, calls), p) ==>
      QuietFor(m, Fresh(m), m.start, calls, NothingDelivered(m.ids), p)
  }

  /** A run of admissible calls from a fresh session, each of which returned Ok. */
  ghost predicate Plays<S(!new), I(!new)>(m: Match<S, I>, calls: seq<Call<I>>) {
    MatchValid(m) && m.lead < HALF && m.start.tick == 0 && Runs(m, Fresh(m), m.start, calls)
  }

  /** Once every input meant for a simulated tick has arrived, the inputs used are the real
      ones, with the default for the ticks before the first stamp, exactly when everybody was
      mute while those ticks were simulated. */
  lemma ConvergesPastDelay<S(!new), I(!new)>(m: Match<S, I>, calls: seq<Call<I>>)
    requires Plays(m, calls)
    requires Arrived(m, ArrivedIn(m, calls), Final(m, Fresh(m), m.start, calls).0.current)
    ensures var r := Final(m, Fresh(m), m.start, calls);
            var used := UsedIn(m, Fresh(m), m.start, calls, []);
            && |used| == r.0.current < HALF && r.1 == StateOf(m, used)
            && (used == Given(m, ArrivedIn(m, calls), r.0.current) <==> Quiet(m, calls))
            && (Quiet(m, calls) ==> r.1 == StateOf(m, Given(m, ArrivedIn(m, calls), r.0.current)))
  {
    hide IgnoresSource, Runs, Final, DeliveredIn, UsedIn, StateOf, NewSession, Inv, Arrived, QuietFor, AllKnow;
    var s0, none := Fresh(m), NothingDelivered(m.ids);
    StartsRight(m);
    RunKeeps(m, s0, m.start, calls, [], none);
    var r, used, delivered := Final(m, s0, m.start, calls), UsedIn(m, s0, m.start, calls, []), ArrivedIn(m, calls);
    FinalFacts(r.0, r.1, m, used, delivered);
    UsedIsGiven(r.0, r.1, m, used, delivered);
    forall p | p in m.ids && Unheard(m, delivered, p)
      ensures Defaulted(m, used, p) <==> QuietFor(m, s0, m.start, calls, none, p)
    {
      RunQuiet(m, s0, m.start, calls, [], none, p);
    }
  }

  lemma FinalFacts<S(!new), I(!new)>(s: Session<S, I>, w: World<S>, m: Match<S, I>, used: seq<map<PlayerId, I>>,
                                     delivered: map<PlayerId, set<Tick>>)
    requires Inv(s, w, m, used, delivered)
    ensures |used| == s.current < HALF && w == StateOf(m, used)
  {
  }

  /** The inputs a run that knew everything in advance would use. */
  ghost function RealInputs<S, I>(m: Match<S, I>, n: nat): (used: seq<map<PlayerId, I>>)
    requires n < HALF
    ensures |used| == n
  {
    seq(n, k requires 0 <= k < n => map p | p in m.ids :: m.truth(p)(k + 1))
  }

  ghost predicate AllArrived<S, I>(m: Match<S, I>, delivered: map<PlayerId, set<Tick>>, current: Tick) {
    forall p, t: Tick :: p in m.ids && 1 <= t <= current ==> p in delivered && t in delivered[p]
  }

  /** Once the first ticks' inputs have arrived too, nothing needs to have been quiet. */
  lemma ConvergesInFull<S(!new), I(!new)>(m: Match<S, I>, calls: seq<Call<I>>)
    requires Plays(m, calls)
    requires AllArrived(m, ArrivedIn(m, calls), Final(m, Fresh(m), m.start, calls).0.current)
    ensures var r := Final(m, Fresh(m), m.start, calls);
            r.0.current < HALF && r.1 == StateOf(m, RealInputs(m, r.0.current))
  {
    hide IgnoresSource, Runs, Final, DeliveredIn, UsedIn, StateOf, NewSession, Inv, QuietFor, AllKnow, PlayerInv;
    var s0, none := Fresh(m), NothingDelivered(m.ids);
    StartsRight(m);
    RunKeeps(m, s0, m.start, calls, [], none);
    var r, used, delivered := Final(m, s0, m.start, calls), UsedIn(m, s0, m.start, calls, []), ArrivedIn(m, calls);
    FinalFacts(r.0, r.1, m, used, delivered);
    AllUsed(r.0, r.1, m, used, delivered);
  }

  lemma AllUsed<S(!new), I(!new)>(s: Session<S, I>, w: World<S>, m: Match<S, I>, used: seq<map<PlayerId, I>>,
                                  delivered: map<PlayerId, set<Tick>>)
    requires Inv(s, w, m, used, delivered) && s.current < HALF && AllArrived(m, delivered, s.current)
    ensures used == RealInputs(m, s.current)
  {
    hide StateOf, IgnoresSource, SavedInv, PlayerInv;
    var inputs := RealInputs(m, s.current);
    forall k | 0 <= k < |used|
      ensures used[k] == inputs[k]
    {
      forall p | p in m.ids
        ensures used[k][p] == m.truth(p)(k + 1)
      {
        DeliveredUsed(s.players[p], WindowOf(m, |used|), Line(m, used, delivered, p), k + 1);
      }
    }
  }

  /** Two sessions that stayed quiet and were given the same inputs, in any two orders,
      agree. */
  lemma QuietOrdersAgree<S(!new), I(!new)>(m: Match<S, I>, a: seq<Call<I>>, b: seq<Call<I>>)
    requires Plays(m, a) && Plays(m, b)
    requires var n := Final(m, Fresh(m), m.start, a).0.current;
             && Final(m, Fresh(m), m.start, b).0.current == n
             && Arrived(m, ArrivedIn(m, a), n) && Arrived(m, ArrivedIn(m, b), n)
    requires ArrivedIn(m, a) == ArrivedIn(m, b)
    requires Quiet(m, a) && Quiet(m, b)
    ensures Final(m, Fresh(m), m.start, a).1 == Final(m, Fresh(m), m.start, b).1
  {
    hide Runs, Final, DeliveredIn, UsedIn, IgnoresSource, StateOf, NewSession, Arrived, QuietFor;
    ConvergesPastDelay(m, a);
    ConvergesPastDelay(m, b);
  }

  // ---------------------------------------------------------------------------
  // Staying quiet

  /** No input is handed over before tick `input_delay` has been simulated. */
  ghost predicate Waits<S, I>(m: Match<S, I>, s: Session<S, I>, w: World<S>, calls: seq<Call<I>>)
    requires Sized(s)
    decreases |calls|
  {
    |calls| > 0 ==>
      && (calls[0].Local? || calls[0].Remote? ==> s.current >= m.config.inputDelay)
      && var r := Perform(m, s, w, calls[0]);
         Waits(m, r.0, r.1, calls[1..])
  }

  lemma PerformTime<S, I>(m: Match<S, I>, s: Session<S, I>, w: World<S>, call: Call<I>)
    requires Sized(s) && Admissible(m, s.current, call)
    ensures Perform(m, s, w, call).0.current == if call.Step? then s.current + 1 else s.current
  {
    hide RollbackTo, ConfirmOne, FrameAt;
    match call
    case Remote(p, t) => RollbackTime(m.sim, Confirm(s, p, t, m.truth(p)(t)).0, w, t);
    case Rewind(t) => RollbackTime(m.sim, s, w, t);
    case _ =>
  }

  lemma {:induction false} WaitingMute<S, I>(m: Match<S, I>, s: Session<S, I>, w: World<S>, calls: seq<Call<I>>,
                                             delivered: map<PlayerId, set<Tick>>, p: PlayerId)
    requires Sized(s) && Runs(m, s, w, calls) && Waits(m, s, w, calls)
    requires p in delivered && (s.current < m.config.inputDelay ==> delivered[p] == {})
    ensures QuietFor(m, s, w, calls, delivered, p)
    decreases |calls|
  {
    hide Perform;
    if |calls| > 0 {
      var r := Perform(m, s, w, calls[0]);
      PerformTime(m, s, w, calls[0]);
      WaitingMute(m, r.0, r.1, calls[1..], DeliveredBy(delivered, s, calls[0]), p);
    }
  }

  /** A caller that holds every input back until tick `input_delay` is simulated is quiet. */
  lemma WaitingIsQuiet<S(!new), I(!new)>(m: Match<S, I>, calls: seq<Call<I>>)
    requires Plays(m, calls) && Waits(m, Fresh(m), m.start, calls)
    ensures Quiet(m, calls)
  {
    hide Runs, Waits, QuietFor, DeliveredIn;
    forall p | p in m.ids
      ensures QuietFor(m, Fresh(m), m.start, calls, NothingDelivered(m.ids), p)
    {
      WaitingMute(m, Fresh(m), m.start, calls, NothingDelivered(m.ids), p);
    }
  }

  /** The default for the first `input_delay` ticks, and the real inputs after. */
  ghost function DelayedInputs<S, I>(m: Match<S, I>, n: nat): (used: seq<map<PlayerId, I>>)
    requires n < HALF
    ensures |used| == n
  {
    seq(n, k requires 0 <= k < n =>
      map p | p in m.ids :: if k < m.config.inputDelay then m.default else m.truth(p)(k + 1))
  }

  /** Nobody's input is meant for the first `input_delay` ticks, everything meant for a later
      simulated tick arrived, and nothing was handed over too early: the world is the straight
      run with the default first and the real inputs after. */
  lemma WaitingConverges<S(!new), I(!new)>(m: Match<S, I>, calls: seq<Call<I>>)
    requires Plays(m, calls) && Waits(m, Fresh(m), m.start, calls)
    requires Arrived(m, ArrivedIn(m, calls), Final(m, Fresh(m), m.start, calls).0.current)
    requires forall p :: p in m.ids ==> Unheard(m, ArrivedIn(m, calls), p)
    ensures var r := Final(m, Fresh(m), m.start, calls);
            r.0.current < HALF && r.1 == StateOf(m, DelayedInputs(m, r.0.current))
  {
    hide Runs, Final, Waits, Quiet, UsedIn, StateOf, IgnoresSource, DeliveredIn, ArrivedIn, Fresh;
    WaitingIsQuiet(m, calls);
    ConvergesPastDelay(m, calls);
    DefaultFirst(m, ArrivedIn(m, calls), Final(m, Fresh(m), m.start, calls).0.current);
  }

  lemma DefaultFirst<S, I>(m: Match<S, I>, delivered: map<PlayerId, set<Tick>>, n: nat)
    requires n < HALF && Arrived(m, delivered, n) && forall p :: p in m.ids ==> Unheard(m, delivered, p)
    ensures Given(m, delivered, n) == DelayedInputs(m, n)
  {
    var given, expected := Given(m, delivered, n), DelayedInputs(m, n);
    forall k | 0 <= k < n
      ensures given[k] == expected[k]
    {
      forall p | p in m.ids
        ensures k + 1 in delivered[p] <==> k >= m.config.inputDelay
      {
      }
    }
  }
}
