/** The rollback session as values: what each call of `RollbackSession` computes, and
    why every arrival order of the same inputs ends in the same world. */
module Rollback {
  import opened Common
  import opened Ticks
  import opened Inputs

  datatype World<+S> = World(tick: Tick, state: S)

  type Frame<+I> = seq<(PlayerId, I, Source)>

  /** User code: one simulation step. */
  type Simulate<!S, !I> = (World<S>, Tick, Frame<I>) -> World<S>

  datatype Config = Config(maxRollback: nat, inputDelay: nat, inputHistory: nat)

  datatype Stats = Stats(frames: nat, rollbacks: nat, resimulated: nat, deepest: nat, refused: nat)

  datatype RollbackError =
    | BeyondWindow(requested: Tick, oldest: Tick)
    | NoSavedState(requested: Tick)
    | Nondeterministic(tick: Tick)

  datatype Session<S, I> = Session(
    config: Config,
    players: map<PlayerId, PlayerInputs<I>>,
    default: I,
    saved: seq<Option<World<S>>>,
    current: Tick,
    stats: Stats)

  // ---------------------------------------------------------------------------
  // Frames of input

  ghost predicate RingsSized<I>(players: map<PlayerId, PlayerInputs<I>>) {
    forall p :: p in players ==> |players[p].slots| > 0
  }

  function PredictAll<I>(players: map<PlayerId, PlayerInputs<I>>, t: Tick, default: I): map<PlayerId, PlayerInputs<I>>
    requires RingsSized(players)
  {
    map p | p in players :: PredictOne(players[p], t, default).0
  }

  /** The inputs of the players numbered `lo` and up, in ascending order: the order
      every peer's simulation consumes them in. */
  function FrameFrom<I>(players: map<PlayerId, PlayerInputs<I>>, t: Tick, default: I, lo: nat): Frame<I>
    requires RingsSized(players) && lo <= 256
    decreases 256 - lo
  {
    if lo == 256 then []
    else
      var rest := FrameFrom(players, t, default, lo + 1);
      if lo in players then
        var r := PredictOne(players[lo], t, default);
        [(lo, r.1, r.2)] + rest
      else rest
  }

  function FrameAt<I>(players: map<PlayerId, PlayerInputs<I>>, t: Tick, default: I): Frame<I>
    requires RingsSized(players)
  {
    FrameFrom(players, t, default, 0)
  }

  ghost predicate Ascending<I>(f: Frame<I>, lo: nat) {
    && (forall i :: 0 <= i < |f| ==> lo <= f[i].0)
    && (forall i, j :: 0 <= i < j < |f| ==> f[i].0 < f[j].0)
  }

  /** A frame lists its players in ascending order, each with its own ring's input, and
      leaves no player out. */
  lemma {:induction false} FrameComplete<I>(players: map<PlayerId, PlayerInputs<I>>, t: Tick, default: I, lo: nat)
    requires RingsSized(players) && lo <= 256
    ensures Ascending(FrameFrom(players, t, default, lo), lo)
    ensures forall p: PlayerId, input: I, source: Source ::
              (p, input, source) in FrameFrom(players, t, default, lo)
              <==> p in players && lo <= p && PredictOne(players[p], t, default).1 == input
                   && PredictOne(players[p], t, default).2 == source
    decreases 256 - lo
  {
    if lo < 256 {
      FrameComplete(players, t, default, lo + 1);
      var f, rest := FrameFrom(players, t, default, lo), FrameFrom(players, t, default, lo + 1);
      if lo in players {
        assert f == [f[0]] + rest;
        assert forall i :: 0 < i < |f| ==> f[i] == rest[i - 1];
      }
    }
  }

  /** The inputs of a frame, by player. */
  function InputsAt<I>(players: map<PlayerId, PlayerInputs<I>>, t: Tick, default: I): map<PlayerId, I>
    requires RingsSized(players)
  {
    map p | p in players :: PredictOne(players[p], t, default).1
  }

  /** The oldest of the newest confirmed ticks of the players numbered below `hi`; `None` as
      soon as one of them has confirmed nothing. */
  function OldestBelow<I>(players: map<PlayerId, PlayerInputs<I>>, hi: nat): Option<Option<Tick>>
    requires hi <= 256
  {
    if hi == 0 then Some(None)
    else
      var before := OldestBelow(players, hi - 1);
      if hi - 1 !in players || before.None? then before
      else
        var t := players[hi - 1].lastConfirmed;
        if t.None? then None
        else if before.value.Some? && IsNewer(t.value, before.value.value) then before
        else Some(t)
  }

  function ConfirmedFrame<I>(players: map<PlayerId, PlayerInputs<I>>): Option<Tick> {
    var oldest := OldestBelow(players, 256);
    if oldest.None? then None else oldest.value
  }

  lemma {:induction false} SilentStays<I>(players: map<PlayerId, PlayerInputs<I>>, lo: nat, hi: nat)
    requires lo <= hi <= 256 && OldestBelow(players, lo).None?
    ensures OldestBelow(players, hi).None?
  {
    if lo < hi {
      SilentStays(players, lo, hi - 1);
    }
  }

  // ---------------------------------------------------------------------------
  // Saved states

  function SavedGet<S>(saved: seq<Option<World<S>>>, t: Tick): (r: Option<World<S>>)
    requires |saved| > 0
    ensures r.Some? ==> r.value.tick == t
  {
    var s := saved[t % |saved|];
    if s.Some? && s.value.tick == t then s else None
  }

  function SavedPut<S>(saved: seq<Option<World<S>>>, w: World<S>): (r: seq<Option<World<S>>>)
    requires |saved| > 0
    ensures |r| == |saved|
    ensures SavedGet(r, w.tick) == Some(w)
  {
    saved[w.tick % |saved| := Some(w)]
  }

  lemma SavedPutElsewhere<S>(saved: seq<Option<World<S>>>, w: World<S>, u: Tick)
    requires |saved| > 0
    requires u != w.tick && -|saved| < u - w.tick < |saved|
    ensures SavedGet(SavedPut(saved, w), u) == SavedGet(saved, u)
  {
    if u % |saved| == w.tick % |saved| {
      ResiduesDistinct(u, w.tick, |saved|);
    }
  }

  // ---------------------------------------------------------------------------
  // The calls

  function RingSize(config: Config): (n: nat)
    ensures n >= 4 && n >= config.maxRollback + 2
  {
    if config.maxRollback + 2 > 4 then config.maxRollback + 2 else 4
  }

  predicate Sized<S, I>(s: Session<S, I>) {
    |s.saved| > 0 && s.config.inputHistory > 0 && forall p :: p in s.players ==> |s.players[p].slots| == s.config.inputHistory
  }

  function NewSession<S, I>(config: Config, ids: set<PlayerId>, default: I): Session<S, I>
    requires config.inputHistory > 0
  {
    Session(config, map p | p in ids :: NewPlayer(config.inputHistory), default,
            seq(RingSize(config), i => None), 0, Stats(0, 0, 0, 0, 0))
  }

  function PlayerOrNew<S, I>(s: Session<S, I>, p: PlayerId): PlayerInputs<I> {
    if p in s.players then s.players[p] else NewPlayer(s.config.inputHistory)
  }

  /** Simulates tick `t` from the state before it, saving that state first. */
  function SimulateTick<S, I>(sim: Simulate<S, I>, s: Session<S, I>, w: World<S>, t: Tick): (r: (Session<S, I>, World<S>))
    requires Sized(s)
    ensures Sized(r.0) && r.0.config == s.config
    ensures r.0 == s.(players := r.0.players, saved := r.0.saved)
  {
    var before := w.(tick := Minus(t, 1));
    (s.(saved := SavedPut(s.saved, before), players := PredictAll(s.players, t, s.default)),
     sim(before, t, FrameAt(s.players, t, s.default)).(tick := t))
  }

  function Advance<S, I>(sim: Simulate<S, I>, s: Session<S, I>, w: World<S>): (r: (Session<S, I>, World<S>))
    requires Sized(s)
    ensures Sized(r.0)
  {
    var (s', w') := SimulateTick(sim, s, w.(tick := s.current), Plus(s.current, 1));
    (s'.(current := Plus(s.current, 1), stats := s.stats.(frames := s.stats.frames + 1)), w')
  }

  /** The re-simulation loop: `t`, `t + 1`, ... while not newer than `target`. */
  function Resimulate<S, I>(sim: Simulate<S, I>, s: Session<S, I>, w: World<S>, t: Tick, target: Tick)
    : (r: (Session<S, I>, World<S>, nat))
    requires Sized(s)
    ensures Sized(r.0)
    ensures r.0 == s.(players := r.0.players, saved := r.0.saved)
    decreases if IsNewer(t, target) then 0 else Minus(target, t) + 1
  {
    if IsNewer(t, target) then (s, w, 0)
    else
      var (s1, w1) := SimulateTick(sim, s, w, t);
      if t == target then (s1, w1, 1)
      else
        var (s2, w2, n) := Resimulate(sim, s1, w1, Plus(t, 1), target);
        (s2, w2, n + 1)
  }

  lemma ResimulateUnfolds<S, I>(sim: Simulate<S, I>, s: Session<S, I>, w: World<S>, t: Tick, target: Tick)
    requires Sized(s) && !IsNewer(t, target)
    ensures var (s1, w1) := SimulateTick(sim, s, w, t);
            var r := Resimulate(sim, s, w, t, target);
            if t == target then r == (s1, w1, 1)
            else var next := Resimulate(sim, s1, w1, Plus(t, 1), target);
                 r == (next.0, next.1, next.2 + 1)
  {
  }

  lemma ResimulateStops<S, I>(sim: Simulate<S, I>, s: Session<S, I>, w: World<S>, t: Tick, target: Tick)
    requires Sized(s) && IsNewer(t, target)
    ensures Resimulate(sim, s, w, t, target) == (s, w, 0)
  {
  }

  function RollbackTo<S, I>(sim: Simulate<S, I>, s: Session<S, I>, w: World<S>, t: Tick)
    : (r: (Session<S, I>, World<S>, Result<nat, RollbackError>))
    requires Sized(s)
    ensures Sized(r.0)
  {
    if IsNewer(t, s.current) then (s, w, Ok(0))
    else
      var diff := Diff(s.current, Minus(t, 1));
      var depth: nat := if diff > 0 then diff else 0;
      var refused := s.(stats := s.stats.(refused := s.stats.refused + 1));
      if depth > s.config.maxRollback then
        (refused, w, Err(BeyondWindow(t, Minus(s.current, s.config.maxRollback))))
      else
        match SavedGet(s.saved, Minus(t, 1))
        case None => (refused, w, Err(NoSavedState(t)))
        case Some(before) =>
          var (s', w', n) := Resimulate(sim, s, before, t, s.current);
          var stats := s.stats.(
            rollbacks := s.stats.rollbacks + 1,
            resimulated := s.stats.resimulated + n,
            deepest := if depth > s.stats.deepest then depth else s.stats.deepest);
          (s'.(stats := stats), w', Ok(n))
  }

  function Confirm<S, I(==)>(s: Session<S, I>, p: PlayerId, t: Tick, input: I): (r: (Session<S, I>, bool))
    requires Sized(s)
    ensures Sized(r.0)
  {
    var (q, contradicts) := ConfirmOne(PlayerOrNew(s, p), t, input);
    (s.(players := s.players[p := q]), contradicts)
  }

  function AddRemoteInput<S, I(==)>(sim: Simulate<S, I>, s: Session<S, I>, w: World<S>, p: PlayerId, t: Tick, input: I)
    : (r: (Session<S, I>, World<S>, Result<Option<Tick>, RollbackError>))
    requires Sized(s)
    ensures Sized(r.0)
  {
    var (s1, contradicts) := Confirm(s, p, t, input);
    if !contradicts then (s1, w, Ok(None))
    else
      var (s2, w2, outcome) := RollbackTo(sim, s1, w, t);
      match outcome
      case Ok(_) => (s2, w2, Ok(Some(t)))
      case Err(e) => (s2, w2, Err(e))
  }

  function LocalTarget<S, I>(s: Session<S, I>): Tick {
    Plus(s.current, s.config.inputDelay + 1)
  }

  function AddLocalInput<S, I(==)>(s: Session<S, I>, p: PlayerId, input: I): (r: (Session<S, I>, Tick))
    requires Sized(s)
    ensures Sized(r.0)
  {
    (Confirm(s, p, LocalTarget(s), input).0, LocalTarget(s))
  }

  /** Re-simulates the last frame from its saved state and compares the result. */
  function SyncTest<S(==), I>(sim: Simulate<S, I>, s: Session<S, I>, w: World<S>)
    : (r: (Session<S, I>, World<S>, Result<(), RollbackError>))
    requires Sized(s)
    ensures Sized(r.0)
  {
    if s.current == 0 then (s, w, Ok(()))
    else
      match SavedGet(s.saved, Minus(s.current, 1))
      case None => (s, w, Err(NoSavedState(s.current)))
      case Some(before) =>
        var w' := sim(before, s.current, FrameAt(s.players, s.current, s.default)).(tick := s.current);
        (s.(players := PredictAll(s.players, s.current, s.default)), w',
         if w'.state == w.state then Ok(()) else Err(Nondeterministic(s.current)))
  }

  function Reset<S, I>(s: Session<S, I>, w: World<S>): (r: Session<S, I>)
    requires Sized(s)
    ensures Sized(r)
  {
    s.(saved := seq(|s.saved|, i => None), current := w.tick)
  }
}
