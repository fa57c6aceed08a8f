/** Where the rollback session's promises stop: inputs stamped past a delay, corrections
    refused for being too old, and a resync that keeps the input history. */
module RollbackLimits {
  import opened Common
  import opened Ticks
  import opened Inputs
  import opened Rollback
  import opened Convergence
  import opened SessionRuns
  import opened InputDelay

  /** The ring holds a prediction for `t` that this input contradicts. */
  predicate Contradicted<I(==)>(ring: PlayerInputs<I>, t: Tick, input: I)
    requires |ring.slots| > 0
  {
    At(ring, t).Some? && At(ring, t).value.source.Predicted? && At(ring, t).value.input != input
  }

  // ---------------------------------------------------------------------------
  // Corrections refused

  /** A contradicted prediction at least `max_rollback` ticks old: the correction is refused,
      and it is never asked for again. The same input delivered a second time is accepted
      and the world stays wrong. */
  lemma RefusalIsSilentAfterwards<S, I>(sim: Simulate<S, I>, s: Session<S, I>, w: World<S>, p: PlayerId, t: Tick, input: I)
    requires Sized(s) && 1 <= t && s.current < HALF
    requires Contradicted(PlayerOrNew(s, p), t, input) && t + s.config.maxRollback <= s.current
    ensures var r := AddRemoteInput(sim, s, w, p, t, input);
            && r.2 == Err(BeyondWindow(t, s.current - s.config.maxRollback)) && r.1 == w
            && AddRemoteInput(sim, r.0, w, p, t, input).1 == w
            && AddRemoteInput(sim, r.0, w, p, t, input).2 == Ok(None)
  {
    hide Resimulate, RollbackTo;
    var ring := PlayerOrNew(s, p);
    var q := ConfirmOne(ring, t, input).0;
    RollbackRefused(sim, Confirm(s, p, t, input).0, w, t);
    assert At(q, t) == Some(Slot(t, input, Confirmed)) by {
      assert At(Recorded(ring, t, input), t) == Some(Slot(t, input, Confirmed));
      assert !Stale(At(Recorded(ring, t, input), t), t);
    }
  }

  // ---------------------------------------------------------------------------
  // Resync

  /** `reset` clears the saved states but, unlike its documentation says, keeps the input
      history. After a resync to any tick, an arriving input reports a missing saved state
      exactly when it contradicts a prediction made before the reset for a tick that is not
      newer than the world's and no deeper than the configuration rolls back. */
  lemma ResetKeepsPredictions<S, I>(sim: Simulate<S, I>, s: Session<S, I>, w: World<S>, p: PlayerId, t: Tick, input: I)
    requires Sized(s)
    ensures AddRemoteInput(sim, Reset(s, w), w, p, t, input).2 == Err(NoSavedState(t)) <==>
            && Contradicted(PlayerOrNew(s, p), t, input)
            && !IsNewer(t, w.tick) && Diff(w.tick, Minus(t, 1)) <= s.config.maxRollback
  {
    hide Resimulate;
    var s1 := Reset(s, w);
    assert PlayerOrNew(s1, p) == PlayerOrNew(s, p);
    assert Confirm(s1, p, t, input).1 == Contradicted(PlayerOrNew(s, p), t, input);
    assert SavedGet(s1.saved, Minus(t, 1)).None?;
  }

  /** Nothing but the default is left in the ring for this tick. */
  predicate Forgotten<I(==)>(ring: PlayerInputs<I>, t: Tick, default: I)
    requires |ring.slots| > 0
  {
    if At(ring, t).Some? then At(ring, t).value.input == default
    else ring.lastKnown.None? || ring.lastKnown.value == default
  }

  /** The first frame after a resync is simulated with the inputs a session that had discarded
      its history would use exactly when every player's ring has forgotten that tick: the
      entry made before the reset, or else the newest input known then, is the default. */
  lemma ResetServesHistory<S, I>(s: Session<S, I>, w: World<S>)
    requires Sized(s)
    ensures var t := Plus(w.tick, 1);
            var discarded := NewSession<S, I>(s.config, s.players.Keys, s.default);
            InputsAt(Reset(s, w).players, t, s.default) == InputsAt(discarded.players, t, s.default) <==>
            forall p :: p in s.players ==> Forgotten(s.players[p], t, s.default)
  {
    var t := Plus(w.tick, 1);
    var discarded := NewSession<S, I>(s.config, s.players.Keys, s.default);
    var kept, renewed := InputsAt(Reset(s, w).players, t, s.default), InputsAt(discarded.players, t, s.default);
    assert kept.Keys == renewed.Keys == s.players.Keys;
    forall p | p in s.players
      ensures renewed[p] == s.default
      ensures kept[p] == s.default <==> Forgotten(s.players[p], t, s.default)
    {
      assert At(discarded.players[p], t).None?;
    }
    if forall p :: p in s.players ==> Forgotten(s.players[p], t, s.default) {
      assert forall p :: p in kept ==> kept[p] == renewed[p];
    }
  }

  // ---------------------------------------------------------------------------
  // Concrete runs: one player, whose real input is always 5, and a world that adds them up

  function Sum(w: World<int>, t: Tick, f: Frame<int>): World<int> {
    World(t, w.state + if |f| > 0 then f[0].1 else 0)
  }

  const ZERO: World<int> := World(0, 0)

  ghost function Game(delay: nat): Match<int, int> {
    Match(Sum, ZERO, {0}, (p: PlayerId) => (t: Tick) => 5, Config(1, delay, 4), 0, 2)
  }

  type Ring = r: PlayerInputs<int> | |r.slots| == 4 witness PlayerInputs([None, None, None, None], None, None)

  lemma {:induction false} NobodyAbove(players: map<PlayerId, PlayerInputs<int>>, t: Tick, lo: nat)
    requires RingsSized(players) && lo <= 256 && forall p :: p in players ==> p < lo
    ensures FrameFrom(players, t, 0, lo) == []
    decreases 256 - lo
  {
    if lo < 256 {
      NobodyAbove(players, t, lo + 1);
    }
  }

  /** One frame of the game. */
  lemma Frames(s: Session<int, int>, w: World<int>, ring: Ring)
    requires Sized(s) && s.players == map[0 := ring] && s.default == 0 && s.current + 1 < HALF
    ensures var r := Advance(Sum, s, w);
            var guess := PredictOne(ring, s.current + 1, 0);
            && r.0.players == map[0 := guess.0] && r.0.current == s.current + 1
            && r.0.config == s.config && r.0.default == 0
            && r.1 == World(s.current + 1, w.state + guess.1)
  {
    hide PredictOne;
    NobodyAbove(s.players, s.current + 1, 1);
    var guess := PredictOne(ring, s.current + 1, 0);
    assert FrameAt(s.players, s.current + 1, 0) == [(0, guess.1, guess.2)];
  }

  lemma GameValid(delay: nat)
    ensures MatchValid(Game(delay))
    ensures var s := Fresh(Game(delay));
            && Sized(s) && s.players == map[0 := NewPlayer(4)] && s.current == 0 && s.default == 0
            && s.config == Game(delay).config
    ensures NewPlayer<int>(4) == PlayerInputs([None, None, None, None], None, None)
  {
    assert IgnoresSource(Sum);
  }

  /** Unfolds a run of three calls. */
  lemma ThreeCalls<S(!new), I(!new)>(m: Match<S, I>, s: Session<S, I>, w: World<S>, c1: Call<I>, c2: Call<I>, c3: Call<I>,
                                     delivered: map<PlayerId, set<Tick>>)
    requires Sized(s) && Admissible(m, s.current, c1)
    requires var r1 := Perform(m, s, w, c1);
             r1.2 && Admissible(m, r1.0.current, c2) &&
             var r2 := Perform(m, r1.0, r1.1, c2);
             r2.2 && Admissible(m, r2.0.current, c3) && Perform(m, r2.0, r2.1, c3).2
    ensures var calls := [c1, c2, c3];
            var r1 := Perform(m, s, w, c1);
            var r2 := Perform(m, r1.0, r1.1, c2);
            var r3 := Perform(m, r2.0, r2.1, c3);
            && Runs(m, s, w, calls) && Final(m, s, w, calls) == (r3.0, r3.1)
            && DeliveredIn(m, s, w, calls, delivered) ==
               DeliveredBy(DeliveredBy(DeliveredBy(delivered, s, c1), r1.0, c2), r2.0, c3)
            && (Waits(m, s, w, calls) <==>
                  && (c1.Local? || c1.Remote? ==> s.current >= m.config.inputDelay)
                  && (c2.Local? || c2.Remote? ==> r1.0.current >= m.config.inputDelay)
                  && (c3.Local? || c3.Remote? ==> r2.0.current >= m.config.inputDelay))
  {
    hide Perform, Admissible, DeliveredBy, Runs, Final, DeliveredIn, Waits;
    var r1 := Perform(m, s, w, c1);
    var r2 := Perform(m, r1.0, r1.1, c2);
    var r3 := Perform(m, r2.0, r2.1, c3);
    var d1 := DeliveredBy(delivered, s, c1);
    var d2 := DeliveredBy(d1, r1.0, c2);
    FirstCall(m, s, w, c1, [c2, c3], delivered);
    FirstCall(m, r1.0, r1.1, c2, [c3], d1);
    FirstCall(m, r2.0, r2.1, c3, [], d2);
    NoCall(m, r3.0, r3.1, DeliveredBy(d2, r2.0, c3));
    assert [c1] + [c2, c3] == [c1, c2, c3] && [c2] + [c3] == [c2, c3] && [c3] + [] == [c3];
  }

  lemma FirstCall<S(!new), I(!new)>(m: Match<S, I>, s: Session<S, I>, w: World<S>, c: Call<I>, rest: seq<Call<I>>,
                                    delivered: map<PlayerId, set<Tick>>)
    requires Sized(s)
    ensures var calls := [c] + rest;
            var r := Perform(m, s, w, c);
            && (Runs(m, s, w, calls) <==> Admissible(m, s.current, c) && r.2 && Runs(m, r.0, r.1, rest))
            && Final(m, s, w, calls) == Final(m, r.0, r.1, rest)
            && DeliveredIn(m, s, w, calls, delivered) == DeliveredIn(m, r.0, r.1, rest, DeliveredBy(delivered, s, c))
            && (Waits(m, s, w, calls) <==>
                  (c.Local? || c.Remote? ==> s.current >= m.config.inputDelay) && Waits(m, r.0, r.1, rest))
  {
    hide Perform, Admissible, DeliveredBy;
    assert ([c] + rest)[1..] == rest;
  }

  lemma NoCall<S(!new), I(!new)>(m: Match<S, I>, s: Session<S, I>, w: World<S>, delivered: map<PlayerId, set<Tick>>)
    requires Sized(s)
    ensures Runs(m, s, w, []) && Final(m, s, w, []) == (s, w) && Waits(m, s, w, [])
    ensures DeliveredIn(m, s, w, [], delivered) == delivered
  {
  }

  const HELD: Option<Slot<int>> := Some(Slot(2, 5, Confirmed))

  /** The input for tick 2 is handed over before the first frame. */
  lemma Eager()
    ensures var m, calls := Game(1), [Local(0), Step, Step];
            && Plays(m, calls) && ArrivedIn(m, calls) == map[0 := {2}]
            && Final(m, Fresh(m), ZERO, calls).0.current == 2 && Final(m, Fresh(m), ZERO, calls).1 == World(2, 10)
  {
    hide Advance, PredictOne, ConfirmOne, MatchValid, Fresh, Runs, DeliveredIn, Final, Waits, NewPlayer;
    GameValid(1);
    var m := Game(1);
    var s0 := Fresh(m);
    var s1 := Perform(m, s0, ZERO, Local(0)).0;
    var r1: Ring := PlayerInputs([None, None, HELD, None], Some(2), Some(5));
    assert ConfirmOne(NewPlayer(4), 2, 5).0 == r1 by { EmptyConfirms(); }
    assert s1.players == map[0 := r1];
    Frames(s1, ZERO, r1);
    var (s2, w2, _) := Perform(m, s1, ZERO, Step);
    var r2: Ring := PlayerInputs([None, Some(Slot(1, 5, Predicted)), HELD, None], Some(2), Some(5));
    assert PredictOne(r1, 1, 0) == (r2, 5, Predicted) by {
      GuessesFirst(r1, 5);
      assert r2.slots == r1.slots[1 := Some(Slot(1, 5, Predicted))];
    }
    Frames(s2, w2, r2);
    assert PredictOne(r2, 2, 0) == (r2, 5, Confirmed) by { ServesHeld(r2); }
    ThreeCalls(m, s0, ZERO, Local(0), Step, Step, NothingDelivered({0}));
    assert NothingDelivered({0})[0] + {2} == {2};
  }

  /** It arrives after the first frame. */
  lemma Late()
    ensures var m, calls := Game(1), [Step, Remote(0, 2), Step];
            && Plays(m, calls) && ArrivedIn(m, calls) == map[0 := {2}]
            && Final(m, Fresh(m), ZERO, calls).0.current == 2 && Final(m, Fresh(m), ZERO, calls).1 == World(2, 5)
            && Waits(m, Fresh(m), ZERO, calls)
  {
    hide Advance, PredictOne, ConfirmOne, MatchValid, RollbackTo, Fresh, Runs, DeliveredIn, Final, Waits, NewPlayer;
    GameValid(1);
    var m := Game(1);
    var s0 := Fresh(m);
    Frames(s0, ZERO, NewPlayer(4));
    var (s1, w1, _) := Perform(m, s0, ZERO, Step);
    var r1: Ring := PlayerInputs([None, Some(Slot(1, 0, Predicted)), None, None], None, None);
    assert PredictOne(NewPlayer(4), 1, 0) == (r1, 0, Predicted) by {
      GuessesFirst(NewPlayer(4), 0);
      assert r1.slots == NewPlayer<int>(4).slots[1 := Some(Slot(1, 0, Predicted))];
    }
    var r2: Ring := PlayerInputs([None, Some(Slot(1, 0, Predicted)), HELD, None], Some(2), Some(5));
    assert ConfirmOne(r1, 2, 5) == (r2, false) by { GuessConfirms(); }
    var (s2, w2, _) := Perform(m, s1, w1, Remote(0, 2));
    assert s2.players == map[0 := r2];
    Frames(s2, w2, r2);
    assert PredictOne(r2, 2, 0) == (r2, 5, Confirmed) by { ServesHeld(r2); }
    ThreeCalls(m, s0, ZERO, Step, Remote(0, 2), Step, NothingDelivered({0}));
    assert NothingDelivered({0})[0] + {2} == {2};
  }

  lemma EmptyConfirms()
    ensures ConfirmOne(NewPlayer<int>(4), 2, 5) ==
            (PlayerInputs([None, None, HELD, None], Some(2), Some(5)), false)
  {
    assert NewPlayer<int>(4) == PlayerInputs([None, None, None, None], None, None);
    assert [None, None, None, None][2 := HELD] == [None, None, HELD, None];
  }

  lemma GuessConfirms()
    ensures ConfirmOne(PlayerInputs([None, Some(Slot(1, 0, Predicted)), None, None], None, None), 2, 5) ==
            (PlayerInputs([None, Some(Slot(1, 0, Predicted)), HELD, None], Some(2), Some(5)), false)
  {
    var guess := Some(Slot(1, 0, Predicted));
    assert [None, guess, None, None][2 := HELD] == [None, guess, HELD, None];
  }

  lemma GuessesFirst(ring: Ring, guess: int)
    requires ring.slots[1].None? && guess == LastKnown(ring, 0)
    ensures PredictOne(ring, 1, 0) == (ring.(slots := ring.slots[1 := Some(Slot(1, guess, Predicted))]), guess, Predicted)
  {
  }

  lemma ServesHeld(ring: Ring)
    requires ring.slots[2] == HELD
    ensures PredictOne(ring, 2, 0) == (ring, 5, Confirmed)
  {
  }

  /** With an input delay of one, two runs in which everything meant for a simulated tick has
      arrived, the same in both, end at the same tick in different worlds. */
  lemma DelayDiverges()
    ensures var m, a, b := Game(1), [Local(0), Step, Step], [Step, Remote(0, 2), Step];
            && Plays(m, a) && Plays(m, b) && ArrivedIn(m, a) == ArrivedIn(m, b)
            && Final(m, Fresh(m), ZERO, a).0.current == Final(m, Fresh(m), ZERO, b).0.current == 2
            && Arrived(m, ArrivedIn(m, a), 2)
            && Final(m, Fresh(m), ZERO, a).1 != Final(m, Fresh(m), ZERO, b).1
            && !Quiet(m, a) && Quiet(m, b)
  {
    hide Plays, ArrivedIn, Final, Fresh, Quiet, Waits;
    var m, a, b := Game(1), [Local(0), Step, Step], [Step, Remote(0, 2), Step];
    Eager();
    Late();
    WaitingIsQuiet(m, b);
    if Quiet(m, a) {
      QuietOrdersAgree(m, a, b);
    }
  }

  lemma OneFrame(players: map<PlayerId, PlayerInputs<int>>, ring: Ring, t: Tick)
    requires players == map[0 := ring] && RingsSized(players)
    ensures FrameAt(players, t, 0) == [(0, PredictOne(ring, t, 0).1, PredictOne(ring, t, 0).2)]
  {
    hide PredictOne;
    NobodyAbove(players, t, 1);
  }

  /** A new session simulates one frame on a guess and is resynced; the real input for that
      frame then finds no saved state. */
  lemma ResetLosesCorrection()
    ensures var (s, w) := Advance(Sum, Fresh(Game(0)), ZERO);
            AddRemoteInput(Sum, Reset(s, w), w, 0, 1, 5).2 == Err(NoSavedState(1))
  {
    hide Advance, PredictOne, AddRemoteInput, IgnoresSource;
    GameValid(0);
    Frames(Fresh(Game(0)), ZERO, NewPlayer(4));
    var (s, w) := Advance(Sum, Fresh(Game(0)), ZERO);
    var ring: Ring := PlayerInputs([None, Some(Slot(1, 0, Predicted)), None, None], None, None);
    assert PredictOne(NewPlayer(4), 1, 0) == (ring, 0, Predicted) by {
      GuessesFirst(NewPlayer(4), 0);
      assert ring.slots == NewPlayer<int>(4).slots[1 := Some(Slot(1, 0, Predicted))];
    }
    assert PlayerOrNew(s, 0) == ring;
    ResetKeepsPredictions(Sum, s, w, 0, 1, 5);
  }

  lemma GuessesSecond(ring: Ring, guess: int)
    requires ring.slots[2].None? && guess == LastKnown(ring, 0)
    ensures PredictOne(ring, 2, 0) == (ring.(slots := ring.slots[2 := Some(Slot(2, guess, Predicted))]), guess, Predicted)
  {
  }

  lemma ServesFirst(ring: Ring)
    requires ring.slots[1] == Some(Slot(1, 5, Confirmed))
    ensures PredictOne(ring, 1, 0) == (ring, 5, Confirmed)
  {
  }

  lemma ServesGuess(ring: Ring)
    requires ring.slots[2] == Some(Slot(2, 5, Predicted))
    ensures PredictOne(ring, 2, 0) == (ring, 5, Predicted)
  {
  }

  lemma FirstConfirms()
    ensures ConfirmOne(NewPlayer<int>(4), 1, 5).0 ==
            PlayerInputs([None, Some(Slot(1, 5, Confirmed)), None, None], Some(1), Some(5))
  {
    assert NewPlayer<int>(4) == PlayerInputs([None, None, None, None], None, None);
    assert [None, None, None, None][1 := Some(Slot(1, 5, Confirmed))] == [None, Some(Slot(1, 5, Confirmed)), None, None];
  }

  /** A session simulates two frames, the second on a guess, and is resynced to the world of
      any tick-1 authority. Its next frame is simulated with the guess made before the reset,
      where a session without history would use the default. */
  lemma ResetServesStaleGuess(authority: World<int>)
    requires authority.tick == 1
    ensures var m := Game(0);
            var s1 := AddLocalInput(Fresh(m), 0, 5).0;
            var (s2, w2) := Advance(Sum, s1, ZERO);
            var (s3, _) := Advance(Sum, s2, w2);
            var s := Reset(s3, authority);
            && FrameAt(s.players, s.current + 1, 0) == [(0, 5, Predicted)]
            && FrameAt(Fresh(m).players, s.current + 1, 0) == [(0, 0, Predicted)]
  {
    hide Advance, PredictOne, ConfirmOne, FrameAt, IgnoresSource;
    GameValid(0);
    FirstConfirms();
    var m := Game(0);
    var r1: Ring := PlayerInputs([None, Some(Slot(1, 5, Confirmed)), None, None], Some(1), Some(5));
    var s1 := AddLocalInput(Fresh(m), 0, 5).0;
    assert s1.players == map[0 := r1];
    Frames(s1, ZERO, r1);
    var (s2, w2) := Advance(Sum, s1, ZERO);
    ServesFirst(r1);
    Frames(s2, w2, r1);
    GuessesSecond(r1, 5);
    var r2: Ring := r1.(slots := r1.slots[2 := Some(Slot(2, 5, Predicted))]);
    var (s3, w3) := Advance(Sum, s2, w2);
    ServesGuess(r2);
    OneFrame(Reset(s3, authority).players, r2, 2);
    GuessesSecond(NewPlayer(4), 0);
    OneFrame(Fresh(m).players, NewPlayer(4), 2);
  }
}
