/** Rollback convergence: the world is always the straight fold of the simulation over
    the inputs the queue believes, whatever order the real inputs arrived in. */
module Convergence {
  import opened Common
  import opened Ticks
  import opened Inputs
  import opened Rollback

  /** What stays fixed over a run: the simulation, the starting world, the one real
      input per player and tick, and how far ahead of `current` inputs may arrive. */
  datatype Match<!S, !I> = Match(
    sim: Simulate<S, I>, start: World<S>, ids: set<PlayerId>, truth: PlayerId -> Tick -> I,
    config: Config, default: I, lead: nat)

  /** The frame holding these inputs; its sources are irrelevant to a fair simulation. */
  function FrameOfFrom<I>(inputs: map<PlayerId, I>, lo: nat): Frame<I>
    requires lo <= 256
    decreases 256 - lo
  {
    if lo == 256 then []
    else if lo in inputs then [(lo, inputs[lo], Confirmed)] + FrameOfFrom(inputs, lo + 1)
    else FrameOfFrom(inputs, lo + 1)
  }

  function FrameOf<I>(inputs: map<PlayerId, I>): Frame<I> {
    FrameOfFrom(inputs, 0)
  }

  ghost predicate SameInputs<I>(f: Frame<I>, g: Frame<I>) {
    |f| == |g| && forall i :: 0 <= i < |f| ==> f[i].0 == g[i].0 && f[i].1 == g[i].1
  }

  /** The simulation is a function of state and input alone. */
  ghost predicate IgnoresSource<S(!new), I(!new)>(sim: Simulate<S, I>) {
    forall w: World<S>, t: Tick, f: Frame<I>, g: Frame<I> {:trigger SameInputs(f, g), sim(w, t, f)} :: SameInputs(f, g) ==> sim(w, t, f) == sim(w, t, g)
  }

  /** The straight run: tick `k + 1` simulated once, with the inputs `used[k]`. */
  ghost function StateOf<S, I>(m: Match<S, I>, used: seq<map<PlayerId, I>>): (w: World<S>)
    requires |used| < HALF
    ensures w.tick == |used|
  {
    if |used| == 0 then m.start.(tick := 0)
    else
      var last := |used| - 1;
      m.sim(StateOf(m, used[..last]), |used|, FrameOf(used[last])).(tick := |used|)
  }

  ghost function Share<I>(used: seq<map<PlayerId, I>>, p: PlayerId): seq<I>
    requires forall k :: 0 <= k < |used| ==> p in used[k]
  {
    seq(|used|, k requires 0 <= k < |used| => used[k][p])
  }

  ghost function WindowOf<S, I>(m: Match<S, I>, hi: nat): Window {
    Window(hi - (m.config.inputHistory - m.lead), hi, hi + m.lead, m.config.inputHistory)
  }

  ghost predicate AllPlay<I>(used: seq<map<PlayerId, I>>, ids: set<PlayerId>) {
    forall k :: 0 <= k < |used| ==> used[k].Keys == ids
  }

  ghost predicate MatchValid<S(!new), I(!new)>(m: Match<S, I>) {
    && IgnoresSource(m.sim)
    && m.lead + m.config.maxRollback <= m.config.inputHistory
    && m.lead < m.config.inputHistory
    && m.config.maxRollback < HALF - 2
  }

  ghost function Line<S, I>(m: Match<S, I>, used: seq<map<PlayerId, I>>, delivered: map<PlayerId, set<Tick>>, p: PlayerId): Timeline<I>
    requires p in delivered
    requires forall k :: 0 <= k < |used| ==> p in used[k]
  {
    Timeline(Share(used, p), m.default, m.truth(p), delivered[p])
  }

  ghost predicate PlayersInv<S, I>(players: map<PlayerId, PlayerInputs<I>>, m: Match<S, I>, used: seq<map<PlayerId, I>>,
                                   delivered: map<PlayerId, set<Tick>>, hi: nat) {
    && players.Keys == delivered.Keys == m.ids
    && AllPlay(used, m.ids)
    && forall p :: p in players ==> PlayerInv(players[p], WindowOf(m, hi), Line(m, used, delivered, p))
  }

  /** Every saved state still in the ring's reach is the state after its tick. */
  ghost predicate SavedInv<S, I>(saved: seq<Option<World<S>>>, m: Match<S, I>, used: seq<map<PlayerId, I>>, hi: nat) {
    && |saved| == RingSize(m.config)
    && |used| <= hi < HALF
    && forall u: Tick {:trigger SavedGet(saved, u)} ::
         hi - |saved| <= u < |used| ==> SavedGet(saved, u) == Some(StateOf(m, used[..u]))
  }

  /** The invariant while ticks `|used| + 1 .. hi` remain to be simulated. */
  ghost predicate Pending<S(!new), I(!new)>(s: Session<S, I>, w: World<S>, m: Match<S, I>, used: seq<map<PlayerId, I>>,
                                            delivered: map<PlayerId, set<Tick>>, hi: nat) {
    && MatchValid(m) && hi + m.lead < HALF
    && s.config == m.config && s.default == m.default
    && Sized(s)
    && SavedInv(s.saved, m, used, hi)
    && w == StateOf(m, used)
    && PlayersInv(s.players, m, used, delivered, hi)
  }

  /** The invariant between calls. */
  ghost predicate Inv<S(!new), I(!new)>(s: Session<S, I>, w: World<S>, m: Match<S, I>, used: seq<map<PlayerId, I>>,
                                        delivered: map<PlayerId, set<Tick>>) {
    s.current == |used| && Pending(s, w, m, used, delivered, |used|)
  }

  lemma InvFacts<S(!new), I(!new)>(s: Session<S, I>, w: World<S>, m: Match<S, I>, used: seq<map<PlayerId, I>>,
                                   delivered: map<PlayerId, set<Tick>>)
    requires Inv(s, w, m, used, delivered)
    ensures Sized(s) && s.config == m.config && s.current + m.lead < HALF && delivered.Keys == m.ids && |s.saved| == RingSize(m.config)
  {
    hide PlayerInv, StateOf;
  }

  // ---------------------------------------------------------------------------
  // One simulated tick

  lemma {:induction false} FrameSame<I>(players: map<PlayerId, PlayerInputs<I>>, t: Tick, default: I, lo: nat)
    requires RingsSized(players) && lo <= 256
    ensures SameInputs(FrameFrom(players, t, default, lo), FrameOfFrom(InputsAt(players, t, default), lo))
    decreases 256 - lo
  {
    hide PredictOne;
    if lo < 256 {
      FrameSame(players, t, default, lo + 1);
    }
  }

  lemma SavedStep<S, I>(saved: seq<Option<World<S>>>, m: Match<S, I>, used: seq<map<PlayerId, I>>, hi: nat, frame: map<PlayerId, I>)
    requires SavedInv(saved, m, used, hi) && |used| < hi
    ensures SavedInv(SavedPut(saved, StateOf(m, used)), m, used + [frame], hi)
  {
    var before := StateOf(m, used);
    var used' := used + [frame];
    forall u: Tick | hi - |saved| <= u < |used'|
      ensures SavedGet(SavedPut(saved, before), u) == Some(StateOf(m, used'[..u]))
    {
      assert used'[..u] == used[..u];
      if u < |used| {
        SavedPutElsewhere(saved, before, u);
      } else {
        assert used[..u] == used;
      }
    }
  }

  lemma PlayersStep<S, I>(players: map<PlayerId, PlayerInputs<I>>, m: Match<S, I>, used: seq<map<PlayerId, I>>,
                          delivered: map<PlayerId, set<Tick>>, hi: nat)
    requires PlayersInv(players, m, used, delivered, hi) && |used| < hi < HALF
    requires RingsSized(players)
    requires WindowOf(m, hi).lo <= |used|
    ensures var t := |used| + 1;
            PlayersInv(PredictAll(players, t, m.default), m, used + [InputsAt(players, t, m.default)], delivered, hi)
  {
    hide PlayerInv, PredictOne;
    var t: Tick := |used| + 1;
    var frame := InputsAt(players, t, m.default);
    var used' := used + [frame];
    assert frame.Keys == players.Keys;
    assert AllPlay(used', m.ids);
    forall p | p in players
      ensures PlayerInv(PredictAll(players, t, m.default)[p], WindowOf(m, hi), Line(m, used', delivered, p))
    {
      ShareStep(players[p], m, used, delivered, hi, p, frame);
    }
  }

  lemma ShareStep<S, I>(ring: PlayerInputs<I>, m: Match<S, I>, used: seq<map<PlayerId, I>>,
                        delivered: map<PlayerId, set<Tick>>, hi: nat, p: PlayerId, frame: map<PlayerId, I>)
    requires p in delivered && p in m.ids && AllPlay(used, m.ids) && frame.Keys == m.ids
    requires |used| < hi < HALF && WindowOf(m, hi).lo <= |used|
    requires PlayerInv(ring, WindowOf(m, hi), Line(m, used, delivered, p))
    requires frame[p] == PredictOne(ring, |used| + 1, m.default).1
    ensures AllPlay(used + [frame], m.ids)
    ensures PlayerInv(PredictOne(ring, |used| + 1, m.default).0, WindowOf(m, hi), Line(m, used + [frame], delivered, p))
  {
    hide LogInv, PredictOne;
    AllPlayExtends(used, m.ids, frame);
    var line := Line(m, used, delivered, p);
    PredictKeeps(ring, WindowOf(m, hi), line);
    assert Share(used + [frame], p) == Share(used, p) + [frame[p]];
  }

  lemma AllPlayExtends<I>(used: seq<map<PlayerId, I>>, ids: set<PlayerId>, frame: map<PlayerId, I>)
    requires AllPlay(used, ids) && frame.Keys == ids
    ensures AllPlay(used + [frame], ids)
    ensures forall k, p :: 0 <= k < |used| + 1 && p in ids ==> p in (used + [frame])[k]
  {
  }

  /** Simulating the next tick extends the straight run by one tick. */
  lemma TickKeeps<S(!new), I(!new)>(s: Session<S, I>, w: World<S>, m: Match<S, I>, used: seq<map<PlayerId, I>>,
                                    delivered: map<PlayerId, set<Tick>>, hi: nat)
    requires Pending(s, w, m, used, delivered, hi) && |used| < hi
    requires WindowOf(m, hi).lo <= |used|
    ensures var t := |used| + 1;
            var r := SimulateTick(m.sim, s, w, t);
            Pending(r.0, r.1, m, used + [InputsAt(s.players, t, m.default)], delivered, hi)
  {
    hide StateOf, MatchValid, InputsAt, FrameAt, PlayersInv, SavedInv, SavedPut, WindowOf;
    StraightStep(s.players, m, used);
    SavedStep(s.saved, m, used, hi, InputsAt(s.players, |used| + 1, m.default));
    PlayersStep(s.players, m, used, delivered, hi);
    assert w.(tick := |used|) == w;
  }

  /** One step of the straight run is one step from the rings' frame. */
  lemma StraightStep<S(!new), I(!new)>(players: map<PlayerId, PlayerInputs<I>>, m: Match<S, I>, used: seq<map<PlayerId, I>>)
    requires MatchValid(m) && RingsSized(players) && |used| + 1 < HALF
    ensures var t := |used| + 1;
            m.sim(StateOf(m, used), t, FrameAt(players, t, m.default)).(tick := t) ==
            StateOf(m, used + [InputsAt(players, t, m.default)])
  {
    hide FrameFrom, FrameOfFrom, InputsAt;
    var t: Tick := |used| + 1;
    var used' := used + [InputsAt(players, t, m.default)];
    FrameSame(players, t, m.default, 0);
    assert used'[..|used|] == used;
  }

  /** A later horizon asks for less. */
  lemma HorizonMoves<S(!new), I(!new)>(s: Session<S, I>, w: World<S>, m: Match<S, I>, used: seq<map<PlayerId, I>>,
                                       delivered: map<PlayerId, set<Tick>>, hi: nat)
    requires Pending(s, w, m, used, delivered, hi)
    requires hi + 1 + m.lead < HALF
    ensures Pending(s, w, m, used, delivered, hi + 1)
  {
    forall p | p in s.players
      ensures PlayerInv(s.players[p], WindowOf(m, hi + 1), Line(m, used, delivered, p))
    {
      var w0, w1, line := WindowOf(m, hi), WindowOf(m, hi + 1), Line(m, used, delivered, p);
      var g := LogOf(s.players[p]);
      assert LogInv(g, w0, line);
      assert HoldsUsed(g.held, w1, line);
      assert EntriesTrue(g, w1, line);
      assert PredictionsFresh(g, w1, line);
      assert DeliveredInForce(g.held, w1, line);
    }
  }

  /** One frame extends the straight run by exactly one tick, whatever tick the world was left
      reading. */
  lemma AdvanceKeeps<S(!new), I(!new)>(s: Session<S, I>, w: World<S>, m: Match<S, I>, used: seq<map<PlayerId, I>>,
                                       delivered: map<PlayerId, set<Tick>>)
    requires Inv(s, w.(tick := s.current), m, used, delivered)
    requires s.current + 1 + m.lead < HALF
    ensures var r := Advance(m.sim, s, w);
            && Inv(r.0, r.1, m, used + [InputsAt(s.players, s.current + 1, m.default)], delivered)
            && r.0.stats == s.stats.(frames := s.stats.frames + 1)
  {
    HorizonMoves(s, w.(tick := s.current), m, used, delivered, |used|);
    TickKeeps(s, w.(tick := s.current), m, used, delivered, |used| + 1);
  }

  /** Re-simulation rebuilds the timeline from `|used| + 1` to `hi`. */
  lemma {:induction false} ResimulateKeeps<S(!new), I(!new)>(
      s: Session<S, I>, w: World<S>, m: Match<S, I>, used: seq<map<PlayerId, I>>,
      delivered: map<PlayerId, set<Tick>>, hi: nat) returns (used': seq<map<PlayerId, I>>)
    requires Pending(s, w, m, used, delivered, hi) && |used| < hi < HALF
    requires WindowOf(m, hi).lo <= |used|
    ensures |used'| == hi && used <= used'
    ensures var r := Resimulate(m.sim, s, w, |used| + 1, hi);
            Pending(r.0, r.1, m, used', delivered, hi) && r.2 == hi - |used|
    decreases hi - |used|
  {
    hide PlayersInv, SavedInv, SimulateTick;
    var t: Tick := |used| + 1;
    TickKeeps(s, w, m, used, delivered, hi);
    ResimulateUnfolds(m.sim, s, w, t, hi);
    var next := used + [InputsAt(s.players, t, m.default)];
    var (s1, w1) := SimulateTick(m.sim, s, w, t);
    if t == hi {
      used' := next;
    } else {
      used' := ResimulateKeeps(s1, w1, m, next, delivered, hi);
    }
  }

  /** Inside the window, and with something saved, a rollback is a re-simulation. */
  lemma RollbackResimulates<S, I>(sim: Simulate<S, I>, s: Session<S, I>, w: World<S>, t: Tick)
    requires Sized(s) && 1 <= t <= s.current < HALF && s.current < t + s.config.maxRollback
    requires SavedGet(s.saved, t - 1).Some?
    ensures var r := RollbackTo(sim, s, w, t);
            var n := Resimulate(sim, s, SavedGet(s.saved, t - 1).value, t, s.current);
            && r.0 == s.(players := n.0.players, saved := n.0.saved, stats := Counted(s.stats, s.current - t + 1, n.2))
            && r.1 == n.1 && r.2 == Ok(n.2)
  {
  }

  /** The counters after a rollback of that depth that simulated `n` ticks again. */
  function Counted(stats: Stats, depth: nat, n: nat): Stats {
    Stats(stats.frames, stats.rollbacks + 1, stats.resimulated + n,
          if depth > stats.deepest then depth else stats.deepest, stats.refused)
  }

  lemma RollbackRefused<S, I>(sim: Simulate<S, I>, s: Session<S, I>, w: World<S>, t: Tick)
    requires Sized(s) && 1 <= t <= s.current < HALF && t + s.config.maxRollback <= s.current
    ensures RollbackTo(sim, s, w, t) ==
            (s.(stats := s.stats.(refused := s.stats.refused + 1)), w, Err(BeyondWindow(t, s.current - s.config.maxRollback)))
  {
  }

  /** Rolling back to a tick in the window, with the timeline right before it, always
      finds the saved state and restores the invariant. */
  lemma RollbackKeeps<S(!new), I(!new)>(
      s: Session<S, I>, w: World<S>, m: Match<S, I>, used: seq<map<PlayerId, I>>,
      delivered: map<PlayerId, set<Tick>>, t: Tick) returns (used': seq<map<PlayerId, I>>)
    requires 1 <= t <= s.current && s.current < t + m.config.maxRollback
    requires |used| == t - 1 && s.current < HALF
    requires Pending(s, StateOf(m, used), m, used, delivered, s.current)
    requires SavedGet(s.saved, t - 1) == Some(StateOf(m, used))
    ensures used <= used'
    ensures var r := RollbackTo(m.sim, s, w, t);
            && r.2 == Ok(s.current - t + 1)
            && r.0.current == s.current && r.0.stats == Counted(s.stats, s.current - t + 1, s.current - t + 1)
            && Inv(r.0, r.1, m, used', delivered)
  {
    hide PlayersInv, SavedInv, StateOf, Resimulate, RollbackTo;
    used' := ResimulateKeeps(s, StateOf(m, used), m, used, delivered, s.current);
    RollbackResimulates(m.sim, s, w, t);
  }

  /** Forgetting the end of the timeline asks less of a player's ring. */
  lemma CutKeeps<I>(p: PlayerInputs<I>, w: Window, line: Timeline<I>, k: nat)
    requires PlayerInv(p, w, line) && k <= |line.used|
    ensures PlayerInv(p, w, line.(used := line.used[..k]))
  {
    var g, line' := LogOf(p), line.(used := line.used[..k]);
    assert HoldsUsed(g.held, w, line');
    assert EntriesTrue(g, w, line');
    assert PredictionsFresh(g, w, line');
    assert DeliveredInForce(g.held, w, line');
  }

  ghost function Deliver(delivered: map<PlayerId, set<Tick>>, p: PlayerId, t: Tick): map<PlayerId, set<Tick>>
    requires p in delivered
  {
    delivered[p := delivered[p] + {t}]
  }

  ghost function Kept<I>(used: seq<map<PlayerId, I>>, contradicts: bool, t: Tick): seq<map<PlayerId, I>>
    requires contradicts ==> 1 <= t <= |used| + 1
  {
    if contradicts then used[..t - 1] else used
  }

  lemma ConfirmShare<S(!new), I(!new)>(ring: PlayerInputs<I>, m: Match<S, I>, used: seq<map<PlayerId, I>>,
                                       delivered: map<PlayerId, set<Tick>>, p: PlayerId, t: Tick)
    requires p in delivered && p in m.ids && AllPlay(used, m.ids)
    requires PlayerInv(ring, WindowOf(m, |used|), Line(m, used, delivered, p))
    requires 1 <= t && WindowOf(m, |used|).lo < t <= |used| + m.lead
    ensures var r := ConfirmOne(ring, t, m.truth(p)(t));
            && (r.1 ==> t <= |used|)
            && PlayerInv(r.0, WindowOf(m, |used|), Line(m, Kept(used, r.1, t), Deliver(delivered, p, t), p))
  {
    var line := Line(m, used, delivered, p);
    ConfirmKeeps(ring, WindowOf(m, |used|), line, t);
    var r := ConfirmOne(ring, t, m.truth(p)(t));
    var line' := line.(delivered := line.delivered + {t});
    if r.1 {
      assert Share(used[..t - 1], p) == Share(used, p)[..t - 1];
      assert Line(m, used[..t - 1], Deliver(delivered, p, t), p) == line'.(used := line.used[..t - 1]);
    } else {
      assert Line(m, used, Deliver(delivered, p, t), p) == line';
    }
  }

  lemma OtherShare<S(!new), I(!new)>(ring: PlayerInputs<I>, m: Match<S, I>, used: seq<map<PlayerId, I>>,
                                     delivered: map<PlayerId, set<Tick>>, q: PlayerId, p: PlayerId, t: Tick, k: nat)
    requires p in delivered && q in delivered && q != p && q in m.ids && AllPlay(used, m.ids)
    requires PlayerInv(ring, WindowOf(m, |used|), Line(m, used, delivered, q)) && k <= |used|
    ensures PlayerInv(ring, WindowOf(m, |used|), Line(m, used[..k], Deliver(delivered, p, t), q))
  {
    CutKeeps(ring, WindowOf(m, |used|), Line(m, used, delivered, q), k);
    assert Share(used[..k], q) == Share(used, q)[..k];
  }

  /** Recording a real input keeps every ring right, up to the tick it contradicts. */
  lemma ConfirmPlayers<S(!new), I(!new)>(s: Session<S, I>, m: Match<S, I>, used: seq<map<PlayerId, I>>,
                                         delivered: map<PlayerId, set<Tick>>, p: PlayerId, t: Tick)
    requires Sized(s) && PlayersInv(s.players, m, used, delivered, |used|)
    requires p in m.ids && 1 <= t && WindowOf(m, |used|).lo < t <= |used| + m.lead
    ensures var r := Confirm(s, p, t, m.truth(p)(t));
            && (r.1 ==> t <= |used|)
            && PlayersInv(r.0.players, m, Kept(used, r.1, t), Deliver(delivered, p, t), |used|)
  {
    hide PlayerInv;
    var r := Confirm(s, p, t, m.truth(p)(t));
    ConfirmShare(s.players[p], m, used, delivered, p, t);
    var kept := Kept(used, r.1, t);
    assert used[..|used|] == used;
    forall q | q in r.0.players
      ensures PlayerInv(r.0.players[q], WindowOf(m, |used|), Line(m, kept, Deliver(delivered, p, t), q))
    {
      if q != p {
        OtherShare(s.players[q], m, used, delivered, q, p, t, |kept|);
      }
    }
  }

  /** The saved states of a timeline also serve its beginning. */
  lemma SavedCut<S, I>(saved: seq<Option<World<S>>>, m: Match<S, I>, used: seq<map<PlayerId, I>>, hi: nat, k: nat)
    requires SavedInv(saved, m, used, hi) && k <= |used|
    ensures SavedInv(saved, m, used[..k], hi)
    ensures hi - m.config.maxRollback <= k < |used| ==> |saved| > 0 && SavedGet(saved, k) == Some(StateOf(m, used[..k]))
  {
    forall u: Tick | hi - |saved| <= u < k ensures SavedGet(saved, u) == Some(StateOf(m, used[..k][..u])) {
      assert used[..k][..u] == used[..u];
    }
  }

  /** A real input arriving in the window, late, early, again or out of order: either it
      is accepted and the world is the fold of the inputs now believed, or it contradicts
      a tick the configuration will not roll back to, and the call says so. */
  lemma AddRemoteKeeps<S(!new), I(!new)>(
      s: Session<S, I>, w: World<S>, m: Match<S, I>, used: seq<map<PlayerId, I>>,
      delivered: map<PlayerId, set<Tick>>, p: PlayerId, t: Tick) returns (used': seq<map<PlayerId, I>>)
    requires Inv(s, w, m, used, delivered)
    requires p in m.ids && 1 <= t && WindowOf(m, s.current).lo < t <= s.current + m.lead
    ensures var r := AddRemoteInput(m.sim, s, w, p, t, m.truth(p)(t));
            var contradicts := Confirm(s, p, t, m.truth(p)(t)).1;
            if contradicts && t + m.config.maxRollback <= s.current then
              r.2 == Err(BeyondWindow(t, s.current - m.config.maxRollback))
            else
              && r.2 == Ok(if contradicts then Some(t) else None)
              && r.0.current == s.current
              && r.0.stats == (if contradicts then Counted(s.stats, s.current - t + 1, s.current - t + 1) else s.stats)
              && Inv(r.0, r.1, m, used', Deliver(delivered, p, t))
              && (if contradicts then t <= |used| && used[..t - 1] <= used' else used' == used)
  {
    used' := used;
    if !Confirm(s, p, t, m.truth(p)(t)).1 {
      AgreementStays(s, w, m, used, delivered, p, t);
    } else if t + m.config.maxRollback <= s.current {
      RefusalSays(s, w, m, used, delivered, p, t);
    } else {
      used' := CorrectionRepairs(s, w, m, used, delivered, p, t);
    }
  }

  lemma RefusalSays<S(!new), I(!new)>(
      s: Session<S, I>, w: World<S>, m: Match<S, I>, used: seq<map<PlayerId, I>>,
      delivered: map<PlayerId, set<Tick>>, p: PlayerId, t: Tick)
    requires Inv(s, w, m, used, delivered)
    requires p in m.ids && 1 <= t && WindowOf(m, s.current).lo < t <= s.current + m.lead
    requires Confirm(s, p, t, m.truth(p)(t)).1 && t + m.config.maxRollback <= s.current
    ensures AddRemoteInput(m.sim, s, w, p, t, m.truth(p)(t)).2 == Err(BeyondWindow(t, s.current - m.config.maxRollback))
  {
    hide Inv, RollbackTo, ConfirmOne;
    InvFacts(s, w, m, used, delivered);
    RollbackRefused(m.sim, Confirm(s, p, t, m.truth(p)(t)).0, w, t);
  }

  lemma AgreementStays<S(!new), I(!new)>(
      s: Session<S, I>, w: World<S>, m: Match<S, I>, used: seq<map<PlayerId, I>>,
      delivered: map<PlayerId, set<Tick>>, p: PlayerId, t: Tick)
    requires Inv(s, w, m, used, delivered)
    requires p in m.ids && 1 <= t && WindowOf(m, s.current).lo < t <= s.current + m.lead
    requires !Confirm(s, p, t, m.truth(p)(t)).1
    ensures p in delivered
    ensures Inv(Confirm(s, p, t, m.truth(p)(t)).0, w, m, used, Deliver(delivered, p, t))
  {
    hide PlayersInv, SavedInv, StateOf, ConfirmOne;
    InvFacts(s, w, m, used, delivered);
    ConfirmPlayers(s, m, used, delivered, p, t);
  }

  /** A contradicted confirmation leaves the timeline right before tick `t`. */
  lemma ContradictionPrepares<S(!new), I(!new)>(
      s: Session<S, I>, w: World<S>, m: Match<S, I>, used: seq<map<PlayerId, I>>,
      delivered: map<PlayerId, set<Tick>>, p: PlayerId, t: Tick)
    requires Inv(s, w, m, used, delivered)
    requires p in m.ids && 1 <= t && WindowOf(m, s.current).lo < t <= s.current + m.lead
    requires Confirm(s, p, t, m.truth(p)(t)).1
    ensures p in delivered && t <= s.current < HALF
    ensures var s1 := Confirm(s, p, t, m.truth(p)(t)).0;
            Pending(s1, StateOf(m, used[..t - 1]), m, used[..t - 1], Deliver(delivered, p, t), s.current)
    ensures s.current < t + m.config.maxRollback ==> SavedGet(s.saved, t - 1) == Some(StateOf(m, used[..t - 1]))
  {
    hide PlayersInv, StateOf, ConfirmOne;
    InvFacts(s, w, m, used, delivered);
    ConfirmPlayers(s, m, used, delivered, p, t);
    SavedCut(s.saved, m, used, s.current, t - 1);
  }

  lemma CorrectionRepairs<S(!new), I(!new)>(
      s: Session<S, I>, w: World<S>, m: Match<S, I>, used: seq<map<PlayerId, I>>,
      delivered: map<PlayerId, set<Tick>>, p: PlayerId, t: Tick) returns (used': seq<map<PlayerId, I>>)
    requires Inv(s, w, m, used, delivered)
    requires p in m.ids && 1 <= t && WindowOf(m, s.current).lo < t <= s.current + m.lead
    requires Confirm(s, p, t, m.truth(p)(t)).1 && s.current < t + m.config.maxRollback
    ensures p in delivered && t <= s.current
    ensures var r := RollbackTo(m.sim, Confirm(s, p, t, m.truth(p)(t)).0, w, t);
            && r.2 == Ok(s.current - t + 1)
            && r.0.current == s.current && r.0.stats == Counted(s.stats, s.current - t + 1, s.current - t + 1)
            && used[..t - 1] <= used'
            && Inv(r.0, r.1, m, used', Deliver(delivered, p, t))
  {
    hide PlayersInv, SavedInv, StateOf, RollbackTo, ConfirmOne, MatchValid;
    ContradictionPrepares(s, w, m, used, delivered, p, t);
    var s1 := Confirm(s, p, t, m.truth(p)(t)).0;
    used' := RollbackKeeps(s1, w, m, used[..t - 1], Deliver(delivered, p, t), t);
  }

  /** A local input lands ahead of the present, so it never contradicts anything. */
  lemma AddLocalKeeps<S(!new), I(!new)>(s: Session<S, I>, w: World<S>, m: Match<S, I>, used: seq<map<PlayerId, I>>,
                                        delivered: map<PlayerId, set<Tick>>, p: PlayerId)
    requires Inv(s, w, m, used, delivered)
    requires p in m.ids && s.config.inputDelay + 1 <= m.lead
    ensures p in delivered
    ensures var t := LocalTarget(s);
            var r := AddLocalInput(s, p, m.truth(p)(t));
            t == s.current + s.config.inputDelay + 1 && r.1 == t
            && Inv(r.0, w, m, used, Deliver(delivered, p, t))
  {
    var t := LocalTarget(s);
    hide PlayersInv, SavedInv, StateOf, ConfirmOne;
    InvFacts(s, w, m, used, delivered);
    ConfirmPlayers(s, m, used, delivered, p, t);
  }

  /** Dropping the end of the timeline, back to a tick that is still saved. */
  lemma CutPending<S(!new), I(!new)>(s: Session<S, I>, w: World<S>, m: Match<S, I>, used: seq<map<PlayerId, I>>,
                                     delivered: map<PlayerId, set<Tick>>, k: nat)
    requires Inv(s, w, m, used, delivered) && k < |used| && s.current <= k + m.config.maxRollback
    ensures Pending(s, StateOf(m, used[..k]), m, used[..k], delivered, s.current)
    ensures SavedGet(s.saved, k) == Some(StateOf(m, used[..k]))
  {
    hide StateOf;
    SavedCut(s.saved, m, used, s.current, k);
    forall q | q in s.players
      ensures PlayerInv(s.players[q], WindowOf(m, |used|), Line(m, used[..k], delivered, q))
    {
      CutKeeps(s.players[q], WindowOf(m, |used|), Line(m, used, delivered, q), k);
      hide PlayerInv;
      assert Share(used[..k], q) == Share(used, q)[..k];
    }
  }

  /** Rolling back with nothing corrected re-simulates the same history. */
  lemma RollbackHarmless<S(!new), I(!new)>(
      s: Session<S, I>, w: World<S>, m: Match<S, I>, used: seq<map<PlayerId, I>>,
      delivered: map<PlayerId, set<Tick>>, t: Tick) returns (used': seq<map<PlayerId, I>>)
    requires Inv(s, w, m, used, delivered)
    requires 1 <= t <= s.current && s.current < t + m.config.maxRollback
    ensures var r := RollbackTo(m.sim, s, w, t);
            && r.2 == Ok(s.current - t + 1)
            && r.0.current == s.current
            && used[..t - 1] <= used'
            && Inv(r.0, r.1, m, used', delivered)
  {
    hide PlayersInv, SavedInv, StateOf, RollbackTo;
    CutPending(s, w, m, used, delivered, t - 1);
    used' := RollbackKeeps(s, w, m, used[..t - 1], delivered, t);
  }

  lemma Remembered<I>(ring: PlayerInputs<I>, w: Window, line: Timeline<I>, t: Tick)
    requires PlayerInv(ring, w, line) && 1 <= t <= |line.used| && w.lo < t
    ensures PredictOne(ring, t, line.default).0 == ring && PredictOne(ring, t, line.default).1 == line.used[t - 1]
  {
    assert HoldsUsed(Held(ring), w, line);
    assert t in Held(ring);
  }

  /** Every tick of the window is remembered, so asking again changes nothing. */
  lemma FrameRemembered<S, I>(players: map<PlayerId, PlayerInputs<I>>, m: Match<S, I>, used: seq<map<PlayerId, I>>,
                              delivered: map<PlayerId, set<Tick>>, t: Tick)
    requires PlayersInv(players, m, used, delivered, |used|) && RingsSized(players)
    requires 1 <= t <= |used| && WindowOf(m, |used|).lo < t
    ensures PredictAll(players, t, m.default) == players
    ensures InputsAt(players, t, m.default) == used[t - 1]
  {
    hide PlayerInv, PredictOne;
    forall p | p in players
      ensures PredictOne(players[p], t, m.default).0 == players[p]
      ensures PredictOne(players[p], t, m.default).1 == used[t - 1][p]
    {
      Remembered(players[p], WindowOf(m, |used|), Line(m, used, delivered, p), t);
    }
  }

  lemma ReplayedTick<S(!new), I(!new)>(s: Session<S, I>, w: World<S>, m: Match<S, I>, used: seq<map<PlayerId, I>>,
                                       delivered: map<PlayerId, set<Tick>>, t: Tick)
    requires Sized(s) && MatchValid(m) && s.default == m.default
    requires PlayersInv(s.players, m, used, delivered, |used|) && |used| < HALF
    requires 1 <= t <= |used| && WindowOf(m, |used|).lo < t
    requires w == StateOf(m, used[..t - 1])
    ensures var r := SimulateTick(m.sim, s, w, t);
            r.0.players == s.players && r.1 == StateOf(m, used[..t])
  {
    hide PlayersInv, FrameFrom, FrameOfFrom;
    FrameRemembered(s.players, m, used, delivered, t);
    FrameSame(s.players, t, m.default, 0);
    assert used[..t][..t - 1] == used[..t - 1];
  }

  lemma SavedAgain<S>(saved: seq<Option<World<S>>>, w: World<S>)
    requires |saved| > 0 && SavedGet(saved, w.tick) == Some(w)
    ensures SavedPut(saved, w) == saved
  {
  }

  lemma {:induction false} ReplayReproduces<S(!new), I(!new)>(
      s: Session<S, I>, w: World<S>, m: Match<S, I>, used: seq<map<PlayerId, I>>, delivered: map<PlayerId, set<Tick>>, t: Tick)
    requires Sized(s) && MatchValid(m) && s.default == m.default
    requires PlayersInv(s.players, m, used, delivered, |used|) && |used| < HALF
    requires 1 <= t <= |used| && WindowOf(m, |used|).lo < t
    requires SavedInv(s.saved, m, used, |used|) && |used| - |s.saved| <= t - 1
    requires w == StateOf(m, used[..t - 1])
    ensures Resimulate(m.sim, s, w, t, |used|) == (s, StateOf(m, used), |used| - t + 1)
    decreases |used| - t
  {
    hide PlayersInv, MatchValid, StateOf, Resimulate, SavedPut;
    ReplayedTick(s, w, m, used, delivered, t);
    ResimulateUnfolds(m.sim, s, w, t, |used|);
    var (s1, w1) := SimulateTick(m.sim, s, w, t);
    assert w.(tick := t - 1) == w;
    assert SavedGet(s.saved, t - 1) == Some(w);
    SavedAgain(s.saved, w);
    assert s1 == s;
    hide SimulateTick;
    if t == |used| {
      assert used[..t] == used;
    } else {
      ReplayReproduces(s1, w1, m, used, delivered, t + 1);
    }
  }

  /** The exact verdict on every tick asked for, with nothing corrected: a tick not simulated
      yet changes nothing, one past the limit is refused and counted, and one inside it is
      simulated again with world, rings and saved states exactly as they were. */
  lemma RollbackReproduces<S(!new), I(!new)>(s: Session<S, I>, w: World<S>, m: Match<S, I>, used: seq<map<PlayerId, I>>,
                                             delivered: map<PlayerId, set<Tick>>, t: Tick)
    requires Inv(s, w, m, used, delivered) && 1 <= t < HALF
    ensures RollbackTo(m.sim, s, w, t) ==
            if t > s.current then (s, w, Ok(0))
            else if t + m.config.maxRollback <= s.current then
              (s.(stats := s.stats.(refused := s.stats.refused + 1)), w,
               Err(BeyondWindow(t, s.current - m.config.maxRollback)))
            else (s.(stats := Counted(s.stats, s.current - t + 1, s.current - t + 1)), w, Ok(s.current - t + 1))
  {
    hide PlayersInv, StateOf, Resimulate, IgnoresSource;
    if t <= s.current < t + m.config.maxRollback {
      hide RollbackTo;
      CutPending(s, w, m, used, delivered, t - 1);
      ReplayReproduces(s, StateOf(m, used[..t - 1]), m, used, delivered, t);
      RollbackResimulates(m.sim, s, w, t);
    } else if t <= s.current {
      RollbackRefused(m.sim, s, w, t);
    }
  }

  /** The sync test finds every saved state it needs and never blames a simulation
      that is a function of state and input. */
  lemma SyncTestPasses<S(!new), I(!new)>(s: Session<S, I>, w: World<S>, m: Match<S, I>, used: seq<map<PlayerId, I>>,
                                         delivered: map<PlayerId, set<Tick>>)
    requires Inv(s, w, m, used, delivered)
    ensures SyncTest(m.sim, s, w) == (s, w, Ok(()))
  {
    if s.current > 0 {
      hide PlayersInv, StateOf, IgnoresSource;
      SavedCut(s.saved, m, used, s.current, s.current - 1);
      FrameRemembered(s.players, m, used, delivered, s.current);
      ReplayedTick(s, StateOf(m, used[..s.current - 1]), m, used, delivered, s.current);
      assert used[..s.current] == used;
    }
  }

  /** The verdict on a world that anything may have written since: it passes exactly when its
      state is the one the re-simulated frame leaves, which the call restores either way. */
  lemma SyncTestExactly<S(!new), I(!new)>(s: Session<S, I>, w: World<S>, m: Match<S, I>, used: seq<map<PlayerId, I>>,
                                          delivered: map<PlayerId, set<Tick>>)
    requires |used| < HALF && Inv(s, StateOf(m, used), m, used, delivered) && s.current > 0
    ensures SyncTest(m.sim, s, w) ==
            (s, StateOf(m, used),
             if w.state == StateOf(m, used).state then Ok(()) else Err(Nondeterministic(s.current)))
  {
    hide PlayersInv, StateOf, IgnoresSource;
    SavedCut(s.saved, m, used, s.current, s.current - 1);
    FrameRemembered(s.players, m, used, delivered, s.current);
    ReplayedTick(s, StateOf(m, used[..s.current - 1]), m, used, delivered, s.current);
    assert used[..s.current] == used;
  }
}
