/** The newest tick every player has confirmed, and how far the past can still change. */
module Finality {
  import opened Common
  import opened Ticks
  import opened Inputs
  import opened Rollback
  import opened Convergence
  import opened SessionRuns
  import opened InputDelay
  import opened InputSources
  import opened RollbackLimits

  /** The newest arrival of each player, and the oldest of these over all players. */
  ghost predicate Slowest(delivered: map<PlayerId, set<Tick>>, frame: Tick) {
    && (exists p :: p in delivered && IsNewest(frame, delivered[p]))
    && (forall p :: p in delivered ==> exists n: Tick :: IsNewest(n, delivered[p]) && frame <= n)
  }

  ghost predicate OldestSoFar(delivered: map<PlayerId, set<Tick>>, hi: nat, oldest: Option<Option<Tick>>) {
    match oldest
    case None => exists p :: p in delivered && p < hi && delivered[p] == {}
    case Some(None) => forall p :: p in delivered ==> p >= hi
    case Some(Some(frame)) =>
      && (exists p :: p in delivered && p < hi && IsNewest(frame, delivered[p]))
      && (forall p :: p in delivered && p < hi ==> exists n: Tick :: IsNewest(n, delivered[p]) && frame <= n)
  }

  lemma {:induction false} OldestIs<S, I>(m: Match<S, I>, players: map<PlayerId, PlayerInputs<I>>,
                                          delivered: map<PlayerId, set<Tick>>, hi: nat)
    requires AllKnow(m, players, delivered) && hi <= 256
    requires forall p, t :: p in delivered && t in delivered[p] ==> t < HALF
    ensures OldestSoFar(delivered, hi, OldestBelow(players, hi))
  {
    hide AllKnow;
    if hi > 0 {
      OldestIs(m, players, delivered, hi - 1);
      NewestKnown(m, players, delivered, hi - 1);
      var before := OldestBelow(players, hi - 1);
      if hi - 1 in players && before.Some? && players[hi - 1].lastConfirmed.Some? {
        OldestStep(delivered, hi - 1, before.value, players[hi - 1].lastConfirmed.value);
      } else {
        OldestSkips(delivered, hi - 1, before);
      }
    }
  }

  lemma NewestKnown<S, I>(m: Match<S, I>, players: map<PlayerId, PlayerInputs<I>>, delivered: map<PlayerId, set<Tick>>,
                          p: PlayerId)
    requires AllKnow(m, players, delivered)
    ensures p in players <==> p in delivered
    ensures p in players ==>
              if players[p].lastConfirmed.None? then delivered[p] == {}
              else IsNewest(players[p].lastConfirmed.value, delivered[p])
  {
    if p in players {
      assert Knows(players[p], delivered[p], m.truth(p));
    }
  }

  lemma OldestStep(delivered: map<PlayerId, set<Tick>>, p: PlayerId, before: Option<Tick>, t: Tick)
    requires OldestSoFar(delivered, p, Some(before)) && p in delivered && IsNewest(t, delivered[p]) && t < HALF
    requires before.Some? ==> before.value < HALF
    ensures OldestSoFar(delivered, p + 1, Some(if before.Some? && IsNewer(t, before.value) then before else Some(t)))
  {
    if before.Some? {
      assert IsNewer(t, before.value) <==> t > before.value;
    }
  }

  lemma OldestSkips(delivered: map<PlayerId, set<Tick>>, p: PlayerId, before: Option<Option<Tick>>)
    requires OldestSoFar(delivered, p, before)
    ensures before.None? ==> OldestSoFar(delivered, p + 1, None)
    ensures before.Some? && p !in delivered ==> OldestSoFar(delivered, p + 1, before)
    ensures p in delivered && delivered[p] == {} ==> OldestSoFar(delivered, p + 1, None)
  {
  }

  /** The confirmed frame is the slowest player's newest arrival, and there is none exactly
      when somebody has sent nothing or nobody plays. */
  lemma ConfirmedFrameIs<S(!new), I(!new)>(m: Match<S, I>, s: Session<S, I>, w: World<S>, used: seq<map<PlayerId, I>>,
                                           delivered: map<PlayerId, set<Tick>>)
    requires Inv(s, w, m, used, delivered) && AllKnow(m, s.players, delivered)
    ensures match ConfirmedFrame(s.players)
            case Some(frame) => Slowest(delivered, frame)
            case None => delivered == map[] || exists p :: p in delivered && delivered[p] == {}
  {
    hide Inv, AllKnow;
    forall p, t | p in delivered && t in delivered[p]
      ensures t < HALF
    {
      ArrivedSmall(m, s, w, used, delivered, p, t);
    }
    OldestIs(m, s.players, delivered, 256);
  }

  lemma ArrivedSmall<S(!new), I(!new)>(m: Match<S, I>, s: Session<S, I>, w: World<S>, used: seq<map<PlayerId, I>>,
                                       delivered: map<PlayerId, set<Tick>>, p: PlayerId, t: Tick)
    requires Inv(s, w, m, used, delivered) && p in delivered && t in delivered[p]
    ensures t < HALF
  {
    hide StateOf, SavedInv, MatchValid;
    assert PlayerInv(s.players[p], WindowOf(m, |used|), Line(m, used, delivered, p));
    assert DeliveredInForce(LogOf(s.players[p]).held, WindowOf(m, |used|), Line(m, used, delivered, p));
  }

  // ----- what can still change -----

  /** A real input that may still arrive and be accepted. */
  ghost predicate MayArrive<S, I>(m: Match<S, I>, s: Session<S, I>, w: World<S>, p: PlayerId, t: Tick)
    requires Sized(s)
  {
    Admissible<S, I>(m, s.current, Remote(p, t)) && Perform(m, s, w, Remote(p, t)).2
  }

  /** No arrival changes an input used up to `frame`. */
  ghost predicate IsFinal<S, I>(m: Match<S, I>, s: Session<S, I>, w: World<S>, used: seq<map<PlayerId, I>>, frame: nat)
    requires Sized(s) && frame <= |used|
  {
    forall p: PlayerId, t: Tick :: MayArrive(m, s, w, p, t) ==>
      var after := UsedBy(m, s, w, Remote(p, t), used);
      |after| >= frame && after[..frame] == used[..frame]
  }

  /** Every tick up to `frame` that a correction can still reach arrived, or was guessed right. */
  ghost predicate Settled<S, I>(m: Match<S, I>, used: seq<map<PlayerId, I>>, delivered: map<PlayerId, set<Tick>>, frame: nat)
    requires frame <= |used|
  {
    forall p, t: Tick :: p in m.ids && p in delivered && Reachable(m, |used|, t) && t <= frame ==>
      t in delivered[p] || (p in used[t - 1] && used[t - 1][p] == m.truth(p)(t))
  }

  ghost predicate Reachable<S, I>(m: Match<S, I>, current: nat, t: Tick) {
    1 <= t && WindowOf(m, current).lo < t && current < t + m.config.maxRollback
  }

  lemma ContradictsRight<S(!new), I(!new)>(m: Match<S, I>, s: Session<S, I>, w: World<S>, used: seq<map<PlayerId, I>>,
                                           delivered: map<PlayerId, set<Tick>>, p: PlayerId, t: Tick)
    requires Inv(s, w, m, used, delivered) && AllKnow(m, s.players, delivered) && Sized(s)
    requires Admissible<S, I>(m, s.current, Remote(p, t))
    ensures p in delivered && (t <= |used| ==> p in used[t - 1])
    ensures Confirm(s, p, t, m.truth(p)(t)).1 <==>
              t <= |used| && t !in delivered[p] && used[t - 1][p] != m.truth(p)(t)
  {
    hide StateOf, SavedInv, MatchValid, ConfirmOne, PlayerInv, Knows;
    assert AllPlay(used, m.ids);
    var ring, win, line := s.players[p], WindowOf(m, |used|), Line(m, used, delivered, p);
    assert PlayerInv(ring, win, line) && Knows(ring, delivered[p], m.truth(p));
    ContradictsInRing(ring, win, line, t);
  }

  /** One arrival, judged by the timeline. */
  lemma ArrivalChanges<S(!new), I(!new)>(m: Match<S, I>, s: Session<S, I>, w: World<S>, used: seq<map<PlayerId, I>>,
                                         delivered: map<PlayerId, set<Tick>>, p: PlayerId, t: Tick)
    requires Inv(s, w, m, used, delivered) && AllKnow(m, s.players, delivered) && Sized(s)
    requires Admissible<S, I>(m, s.current, Remote(p, t))
    ensures p in delivered && (t <= |used| ==> p in used[t - 1])
    ensures var wrong := t <= |used| && t !in delivered[p] && used[t - 1][p] != m.truth(p)(t);
            var after := UsedBy(m, s, w, Remote(p, t), used);
            && Perform(m, s, w, Remote(p, t)).2 == (wrong ==> s.current < t + m.config.maxRollback)
            && (!wrong ==> after == used)
            && (wrong && s.current < t + m.config.maxRollback ==>
                  && |after| == |used| && after[..t - 1] == used[..t - 1]
                  && p in after[t - 1] && after[t - 1][p] == m.truth(p)(t))
  {
    hide Pending, AllKnow, Confirm, AddRemoteInput, Redone;
    ContradictsRight(m, s, w, used, delivered, p, t);
    InvFacts(s, w, m, used, delivered);
    var used' := AddRemoteKeeps(s, w, m, used, delivered, p, t);
    if Perform<S, I>(m, s, w, Remote(p, t)).2 && Confirm(s, p, t, m.truth(p)(t)).1 {
      RedoneAfter(m, s, w, used, delivered, p, t);
    }
  }

  lemma RedoneAfter<S(!new), I(!new)>(m: Match<S, I>, s: Session<S, I>, w: World<S>, used: seq<map<PlayerId, I>>,
                                      delivered: map<PlayerId, set<Tick>>, p: PlayerId, t: Tick)
    requires Inv(s, w, m, used, delivered) && Sized(s) && p in delivered
    requires Admissible<S, I>(m, s.current, Remote(p, t)) && Perform(m, s, w, Remote(p, t)).2 && t <= |used|
    requires Confirm(s, p, t, m.truth(p)(t)).1
    ensures var after := UsedBy(m, s, w, Remote(p, t), used);
            && |after| == |used| && after[..t - 1] == used[..t - 1]
            && p in after[t - 1] && after[t - 1][p] == m.truth(p)(t)
  {
    hide StateOf, SavedInv, MatchValid, ConfirmOne, RollbackTo, AddRemoteInput, PlayerInv, Pending;
    InvFacts(s, w, m, used, delivered);
    PerformKeeps(m, s, w, Remote(p, t), used, delivered);
    PerformTime(m, s, w, Remote(p, t));
    var r := Perform(m, s, w, Remote(p, t));
    var after := UsedBy(m, s, w, Remote(p, t), used);
    InForce(m, r.0, r.1, after, Deliver(delivered, p, t), p, t);
  }

  lemma InForce<S(!new), I(!new)>(m: Match<S, I>, s: Session<S, I>, w: World<S>, used: seq<map<PlayerId, I>>,
                                  delivered: map<PlayerId, set<Tick>>, p: PlayerId, t: Tick)
    requires Inv(s, w, m, used, delivered) && p in delivered && t in delivered[p] && 1 <= t <= |used|
    ensures p in used[t - 1] && used[t - 1][p] == m.truth(p)(t)
  {
    hide StateOf, SavedInv, MatchValid;
    assert PlayerInv(s.players[p], WindowOf(m, |used|), Line(m, used, delivered, p));
    DeliveredUsed(s.players[p], WindowOf(m, |used|), Line(m, used, delivered, p), t);
  }

  /** In every reachable state, what has been simulated up to a tick is final exactly when each
      input a correction can still reach has arrived or was guessed right. That every player has
      confirmed something at least as new, which is all the confirmed frame says, is not enough. */
  lemma FinalExactly<S(!new), I(!new)>(m: Match<S, I>, s: Session<S, I>, w: World<S>, used: seq<map<PlayerId, I>>,
                                       delivered: map<PlayerId, set<Tick>>, frame: nat)
    requires Inv(s, w, m, used, delivered) && AllKnow(m, s.players, delivered) && Sized(s) && frame <= |used|
    ensures IsFinal(m, s, w, used, frame) <==> Settled(m, used, delivered, frame)
  {
    hide Inv, AllKnow, Perform, UsedBy, Admissible;
    if Settled(m, used, delivered, frame) {
      forall p: PlayerId, t: Tick | MayArrive(m, s, w, p, t)
        ensures var after := UsedBy(m, s, w, Remote(p, t), used);
                |after| >= frame && after[..frame] == used[..frame]
      {
        ArrivalStays(m, s, w, used, delivered, frame, p, t);
      }
    }
    if IsFinal(m, s, w, used, frame) {
      forall p, t: Tick | p in m.ids && p in delivered && Reachable(m, |used|, t) && t <= frame
        ensures t in delivered[p] || (p in used[t - 1] && used[t - 1][p] == m.truth(p)(t))
      {
        FinalMeansRight(m, s, w, used, delivered, frame, p, t);
      }
    }
  }

  lemma ArrivalStays<S(!new), I(!new)>(m: Match<S, I>, s: Session<S, I>, w: World<S>, used: seq<map<PlayerId, I>>,
                                       delivered: map<PlayerId, set<Tick>>, frame: nat, p: PlayerId, t: Tick)
    requires Inv(s, w, m, used, delivered) && AllKnow(m, s.players, delivered) && Sized(s) && frame <= |used|
    requires Settled(m, used, delivered, frame) && MayArrive(m, s, w, p, t)
    ensures var after := UsedBy(m, s, w, Remote(p, t), used);
            |after| >= frame && after[..frame] == used[..frame]
  {
    hide Pending, AllKnow, Perform, UsedBy;
    ArrivalChanges(m, s, w, used, delivered, p, t);
    var after := UsedBy(m, s, w, Remote(p, t), used);
    if after != used {
      assert Reachable(m, |used|, t) && t > frame;
      assert after[..frame] == after[..t - 1][..frame] && used[..frame] == used[..t - 1][..frame];
    }
  }

  lemma FinalMeansRight<S(!new), I(!new)>(m: Match<S, I>, s: Session<S, I>, w: World<S>, used: seq<map<PlayerId, I>>,
                                          delivered: map<PlayerId, set<Tick>>, frame: nat, p: PlayerId, t: Tick)
    requires Inv(s, w, m, used, delivered) && AllKnow(m, s.players, delivered) && Sized(s) && frame <= |used|
    requires IsFinal(m, s, w, used, frame)
    requires p in m.ids && p in delivered && Reachable(m, |used|, t) && t <= frame
    ensures t in delivered[p] || (p in used[t - 1] && used[t - 1][p] == m.truth(p)(t))
  {
    hide Pending, AllKnow, Perform, UsedBy;
    ArrivalChanges(m, s, w, used, delivered, p, t);
    var after := UsedBy(m, s, w, Remote(p, t), used);
    assert MayArrive(m, s, w, p, t) ==> |after| >= frame && after[..frame] == used[..frame];
    PrefixAt(after, used, frame, t - 1);
  }

  lemma PrefixAt<T>(a: seq<T>, b: seq<T>, n: nat, k: nat)
    requires k < n <= |b|
    ensures |a| >= n && a[..n] == b[..n] ==> a[k] == b[k]
  {
    if |a| >= n && a[..n] == b[..n] {
      assert a[k] == a[..n][k];
    }
  }

  /** Where every player's inputs arrived without gaps the confirmed frame is what it is said to
      be: the past up to it stays as it is over every run from there on. */
  lemma {:induction false} GapFreeIsFinal<S(!new), I(!new)>(
      m: Match<S, I>, s: Session<S, I>, w: World<S>, calls: seq<Call<I>>, used: seq<map<PlayerId, I>>,
      delivered: map<PlayerId, set<Tick>>, frame: nat)
    requires Inv(s, w, m, used, delivered) && Sized(s) && Runs(m, s, w, calls) && frame <= |used|
    requires forall p, t: Tick :: p in delivered && 1 <= t <= frame ==> t in delivered[p]
    ensures var after := UsedIn(m, s, w, calls, used);
            && |after| >= frame && after[..frame] == used[..frame]
            && forall p, t: Tick :: p in m.ids && 1 <= t <= frame ==> p in after[t - 1] && after[t - 1][p] == m.truth(p)(t)
    decreases |calls|
  {
    hide Inv, Admissible, Perform, UsedBy;
    InvIds(m, s, w, used, delivered);
    forall p, t: Tick | p in m.ids && 1 <= t <= frame
      ensures p in used[t - 1] && used[t - 1][p] == m.truth(p)(t)
    {
      InForce(m, s, w, used, delivered, p, t);
    }
    if |calls| > 0 {
      var r := Perform(m, s, w, calls[0]);
      var after, delivered' := UsedBy(m, s, w, calls[0], used), DeliveredBy(delivered, s, calls[0]);
      PerformKeeps(m, s, w, calls[0], used, delivered);
      PerformTime(m, s, w, calls[0]);
      InvIds(m, r.0, r.1, after, delivered');
      GapFreeIsFinal(m, r.0, r.1, calls[1..], after, delivered', frame);
      RealBoth(m, used, after, delivered, frame, s, w, r.0, r.1, delivered');
    }
  }

  lemma InvIds<S(!new), I(!new)>(m: Match<S, I>, s: Session<S, I>, w: World<S>, used: seq<map<PlayerId, I>>,
                                 delivered: map<PlayerId, set<Tick>>)
    requires Inv(s, w, m, used, delivered)
    ensures delivered.Keys == m.ids && s.current == |used| && AllPlay(used, m.ids)
  {
    hide StateOf, SavedInv, MatchValid, PlayerInv;
  }

  /** Two timelines that both have the real inputs up to `frame` agree up to it. */
  lemma RealBoth<S(!new), I(!new)>(m: Match<S, I>, used: seq<map<PlayerId, I>>, after: seq<map<PlayerId, I>>,
                                   delivered: map<PlayerId, set<Tick>>, frame: nat, s: Session<S, I>, w: World<S>,
                                   s': Session<S, I>, w': World<S>, delivered': map<PlayerId, set<Tick>>)
    requires Inv(s, w, m, used, delivered) && Inv(s', w', m, after, delivered') && frame <= |used| && frame <= |after|
    requires forall p, t: Tick :: p in delivered && 1 <= t <= frame ==> t in delivered[p]
    requires forall p, t: Tick :: p in delivered' && 1 <= t <= frame ==> t in delivered'[p]
    ensures after[..frame] == used[..frame]
  {
    hide Inv;
    InvIds(m, s, w, used, delivered);
    InvIds(m, s', w', after, delivered');
    forall k | 0 <= k < frame
      ensures after[k] == used[k]
    {
      forall p | p in m.ids
        ensures after[k][p] == used[k][p]
      {
        InForce(m, s, w, used, delivered, p, k + 1);
        InForce(m, s', w', after, delivered', p, k + 1);
      }
      assert after[k].Keys == m.ids && used[k].Keys == m.ids;
    }
  }

  // ----- an input that arrives past a gap -----

  lemma {:induction false} OnlyPlayer(players: map<PlayerId, PlayerInputs<int>>, hi: nat)
    requires players.Keys == {0} && players[0].lastConfirmed.Some? && 1 <= hi <= 256
    ensures OldestBelow(players, hi) == Some(players[0].lastConfirmed)
  {
    if hi > 1 {
      OnlyPlayer(players, hi - 1);
    } else {
      assert OldestBelow(players, 0) == Some(None);
    }
  }

  const GUESS: Ring := PlayerInputs([None, Some(Slot(1, 0, Predicted)), None, None], None, None)

  const PAST_GAP: Ring := PlayerInputs([None, Some(Slot(1, 0, Predicted)), HELD, None], Some(2), Some(5))

  /** The session after one frame on a guess. */
  ghost predicate Guessed(s: Session<int, int>) {
    && Sized(s) && s.players == map[0 := GUESS] && s.current == 1 && s.default == 0 && s.config == Config(1, 0, 4)
    && SavedGet(s.saved, 0) == Some(ZERO)
  }

  lemma FirstFrame()
    ensures Sized(Fresh(Game(0))) && Guessed(Advance(Sum, Fresh(Game(0)), ZERO).0)
  {
    hide PredictOne, NewPlayer, IgnoresSource, MatchValid;
    GameValid(0);
    var s := Fresh(Game(0));
    Frames(s, ZERO, NewPlayer(4));
    assert PredictOne(NewPlayer(4), 1, 0) == (GUESS, 0, Predicted) by {
      GuessesFirst(NewPlayer(4), 0);
      assert GUESS.slots == NewPlayer<int>(4).slots[1 := Some(Slot(1, 0, Predicted))];
    }
  }

  /** One frame on a guess, then the input for the next tick, then the one it overtook: the
      confirmed frame is tick 2 already, and tick 1 is simulated again. */
  lemma GapIsNotFinal()
    ensures Sized(Fresh(Game(0)))
    ensures var (s1, w1) := Advance(Sum, Fresh(Game(0)), ZERO);
            var (s2, w2, early) := AddRemoteInput(Sum, s1, w1, 0, 2, 5);
            && early == Ok(None) && w2 == w1
            && ConfirmedFrame(s2.players) == Some(2)
            && AddRemoteInput(Sum, s2, w2, 0, 1, 5).2 == Ok(Some(1))
  {
    hide Advance, AddRemoteInput, OldestBelow;
    FirstFrame();
    var (s1, w1) := Advance(Sum, Fresh(Game(0)), ZERO);
    EarlyArrival(s1, w1);
    OnlyPlayer(AddRemoteInput(Sum, s1, w1, 0, 2, 5).0.players, 256);
    LateArrival(AddRemoteInput(Sum, s1, w1, 0, 2, 5).0, w1);
  }

  lemma EarlyArrival(s: Session<int, int>, w: World<int>)
    requires Guessed(s)
    ensures AddRemoteInput(Sum, s, w, 0, 2, 5) == (s.(players := map[0 := PAST_GAP]), w, Ok(None))
  {
    hide ConfirmOne;
    assert ConfirmOne(GUESS, 2, 5) == (PAST_GAP, false) by { GuessConfirms(); }
    assert PlayerOrNew(s, 0) == GUESS;
    assert s.players[0 := PAST_GAP] == map[0 := PAST_GAP];
    assert Confirm(s, 0, 2, 5) == (s.(players := map[0 := PAST_GAP]), false);
  }

  lemma LateArrival(s: Session<int, int>, w: World<int>)
    requires Guessed(s.(players := map[0 := GUESS])) && s.players == map[0 := PAST_GAP] && Sized(s)
    ensures AddRemoteInput(Sum, s, w, 0, 1, 5).2 == Ok(Some(1))
  {
    hide ConfirmOne, Resimulate;
    GuessContradicted(PAST_GAP);
  }

  lemma GuessContradicted(ring: Ring)
    requires ring.slots[1] == Some(Slot(1, 0, Predicted))
    ensures ConfirmOne(ring, 1, 5).1
  {
  }
}
