/** `RollbackSession`, `InputQueue` and `SnapshotRing` as the objects they are: every
    method updates its fields in place and is tied to the value-level call it performs. */
module RollbackSession {
  import opened Common
  import opened Ticks
  import opened Inputs
  import R = Rollback

  /** The caller's world, which the session saves, restores and steps. */
  class GameWorld<S> {
    var value: R.World<S>

    constructor (value: R.World<S>)
      ensures this.value == value
    {
      this.value := value;
    }

    method SetTick(t: Tick)
      modifies this
      ensures value == old(value).(tick := t)
    {
      value := value.(tick := t);
    }

    method Step<I>(sim: R.Simulate<S, I>, t: Tick, frame: R.Frame<I>)
      modifies this
      ensures value == sim(old(value), t, frame)
    {
      value := sim(value, t, frame);
    }
  }

  class SnapshotRing<S> {
    var slots: seq<Option<R.World<S>>>

    constructor (capacity: nat)
      requires capacity > 0
      ensures slots == seq(capacity, i => None)
    {
      slots := seq(capacity, i => None);
    }

    method Store(snap: R.World<S>)
      requires |slots| > 0
      modifies this
      ensures slots == R.SavedPut(old(slots), snap)
    {
      slots := slots[snap.tick % |slots| := Some(snap)];
    }

    method Get(t: Tick) returns (r: Option<R.World<S>>)
      requires |slots| > 0
      ensures r == R.SavedGet(slots, t)
    {
      match slots[t % |slots|] {
        case Some(s) => if s.tick == t { r := Some(s); } else { r := None; }
        case None => r := None;
      }
    }

    method Clear()
      modifies this
      ensures slots == seq(old(|slots|), i => None)
    {
      var i := 0;
      while i < |slots|
        invariant 0 <= i <= |slots| == old(|slots|)
        invariant forall k :: 0 <= k < i ==> slots[k] == None
      {
        slots := slots[i := None];
        i := i + 1;
      }
    }
  }

  class InputQueue<I(==)> {
    var players: map<PlayerId, PlayerInputs<I>>
    const capacity: nat
    const defaultInput: I

    constructor (capacity: nat, defaultInput: I)
      requires capacity > 0
      ensures players == map[] && this.capacity == capacity && this.defaultInput == defaultInput
      ensures Valid()
    {
      players := map[];
      this.capacity := capacity;
      this.defaultInput := defaultInput;
    }

    ghost predicate Valid()
      reads this
    {
      capacity > 0 && forall p :: p in players ==> |players[p].slots| == capacity
    }

    method AddPlayer(player: PlayerId)
      requires Valid()
      modifies this
      ensures Valid()
      ensures players == old(players)[player := if player in old(players) then old(players)[player] else NewPlayer(capacity)]
    {
      if player !in players {
        players := players[player := NewPlayer(capacity)];
      }
    }

    /** Clears the predictions newer than `tick`, slot by slot. */
    method InvalidatePredictionsAfter(player: PlayerId, tick: Tick)
      requires Valid() && player in players
      modifies this
      ensures Valid()
      ensures players == old(players)[player := InvalidateAfter(old(players)[player], tick)]
    {
      var ring := players[player];
      var slots := ring.slots;
      var i := 0;
      while i < |slots|
        invariant 0 <= i <= |slots| == |ring.slots|
        invariant forall k :: 0 <= k < i ==> slots[k] == if Stale(ring.slots[k], tick) then None else ring.slots[k]
        invariant forall k :: i <= k < |slots| ==> slots[k] == ring.slots[k]
      {
        if slots[i].Some? {
          var slot := slots[i].value;
          if slot.source == Predicted && IsNewer(slot.tick, tick) {
            slots := slots[i := None];
          }
        }
        i := i + 1;
      }
      assert slots == InvalidateAfter(ring, tick).slots;
      players := players[player := ring.(slots := slots)];
    }

    /** Records a confirmed input; `Some(tick)` demands a rollback to that tick. */
    method Confirm(player: PlayerId, tick: Tick, input: I) returns (contradicted: Option<Tick>)
      requires Valid()
      modifies this
      ensures Valid()
      ensures var ring := if player in old(players) then old(players)[player] else NewPlayer(capacity);
              var r := ConfirmOne(ring, tick, input);
              && players == old(players)[player := r.0]
              && contradicted == if r.1 then Some(tick) else None
    {
      AddPlayer(player);
      var ring := players[player];
      var contradicts := false;
      match At(ring, tick) {
        case Some(slot) => contradicts := slot.source == Predicted && slot.input != input;
        case None =>
      }
      var updated := Put(ring, tick, input, Confirmed);
      if ring.lastConfirmed.None? || IsNewer(tick, ring.lastConfirmed.value) {
        updated := updated.(lastConfirmed := Some(tick), lastKnown := Some(input));
      }
      players := players[player := updated];
      if contradicts {
        InvalidatePredictionsAfter(player, tick);
        contradicted := Some(tick);
      } else {
        contradicted := None;
      }
    }

    method GetOrPredict(player: PlayerId, tick: Tick) returns (input: I, source: Source)
      requires Valid()
      modifies this
      ensures Valid()
      ensures var ring := if player in old(players) then old(players)[player] else NewPlayer(capacity);
              var r := PredictOne(ring, tick, defaultInput);
              players == old(players)[player := r.0] && input == r.1 && source == r.2
    {
      AddPlayer(player);
      var ring := players[player];
      match At(ring, tick) {
        case Some(slot) =>
          input, source := slot.input, slot.source;
        case None =>
          input, source := if ring.lastKnown.Some? then ring.lastKnown.value else defaultInput, Predicted;
          players := players[player := Put(ring, tick, input, Predicted)];
      }
    }

    /** Inputs for every participant, in ascending player order. */
    method Frame(tick: Tick) returns (frame: R.Frame<I>)
      requires Valid()
      modifies this
      ensures Valid()
      ensures frame == R.FrameAt(old(players), tick, defaultInput)
      ensures players == R.PredictAll(old(players), tick, defaultInput)
    {
      ghost var before := players;
      frame := [];
      var id := 256;
      while id > 0
        invariant 0 <= id <= 256
        invariant Valid() && players.Keys == before.Keys
        invariant frame == R.FrameFrom(before, tick, defaultInput, id)
        invariant forall p :: p in before ==>
                    players[p] == if id <= p then PredictOne(before[p], tick, defaultInput).0 else before[p]
      {
        id := id - 1;
        var player: PlayerId := id;
        if player in players {
          var input, source := GetOrPredict(player, tick);
          frame := [(player, input, source)] + frame;
        }
      }
    }

    /** The newest tick every participant has confirmed, if all have confirmed one. */
    method ConfirmedFrame() returns (frame: Option<Tick>)
      requires Valid()
      ensures frame == R.ConfirmedFrame(players)
    {
      frame := None;
      var id := 0;
      while id < 256
        invariant 0 <= id <= 256
        invariant R.OldestBelow(players, id) == Some(frame)
      {
        var player: PlayerId := id;
        if player in players {
          var t := players[player].lastConfirmed;
          if t.None? {
            R.SilentStays(players, id + 1, 256);
            return None;
          }
          if frame.None? || !IsNewer(t.value, frame.value) {
            frame := t;
          }
        }
        id := id + 1;
      }
    }
  }

  datatype FrameResult = FrameResult(tick: Tick, rolledBack: nat, fullyConfirmed: bool)

  class Session<S(==), I(==)> {
    const config: R.Config
    const inputs: InputQueue<I>
    const saved: SnapshotRing<S>
    var current: Tick
    var stats: R.Stats

    ghost predicate Valid()
      reads this, inputs, saved
    {
      && inputs.Valid() && inputs.capacity == config.inputHistory
      && |saved.slots| > 0
    }

    ghost function View(): (s: R.Session<S, I>)
      reads this, inputs, saved
      ensures Valid() ==> R.Sized(s)
    {
      R.Session(config, inputs.players, inputs.defaultInput, saved.slots, current, stats)
    }

    constructor (config: R.Config, defaultInput: I)
      requires config.inputHistory > 0
      ensures Valid() && fresh(inputs) && fresh(saved)
      ensures View() == R.NewSession(config, {}, defaultInput)
    {
      this.config := config;
      inputs := new InputQueue(config.inputHistory, defaultInput);
      saved := new SnapshotRing(R.RingSize(config));
      current := 0;
      stats := R.Stats(0, 0, 0, 0, 0);
      new;
      assert R.NewSession<S, I>(config, {}, defaultInput).players == map[];
    }

    method AddLocalInput(player: PlayerId, input: I) returns (target: Tick)
      requires Valid()
      modifies inputs
      ensures Valid()
      ensures (View(), target) == R.AddLocalInput(old(View()), player, input)
    {
      target := Plus(current, config.inputDelay + 1);
      var _ := inputs.Confirm(player, target, input);
    }

    method AddRemoteInput(world: GameWorld<S>, player: PlayerId, tick: Tick, input: I, sim: R.Simulate<S, I>)
      returns (r: Result<Option<Tick>, R.RollbackError>)
      requires Valid()
      modifies this, inputs, saved, world
      ensures Valid()
      ensures (View(), world.value, r) == R.AddRemoteInput(sim, old(View()), old(world.value), player, tick, input)
    {
      var contradicted := inputs.Confirm(player, tick, input);
      assert View() == R.Confirm(old(View()), player, tick, input).0;
      match contradicted {
        case None => r := Ok(None);
        case Some(t) =>
          var outcome := RollbackTo(world, t, sim);
          match outcome {
            case Ok(_) => r := Ok(Some(t));
            case Err(e) => r := Err(e);
          }
      }
    }

    /** Simulates tick `t` from the world before it, saving that world first. */
    method SimulateTick(world: GameWorld<S>, t: Tick, sim: R.Simulate<S, I>) returns (frame: R.Frame<I>)
      requires Valid()
      modifies saved, inputs, world
      ensures Valid()
      ensures frame == R.FrameAt(old(inputs.players), t, inputs.defaultInput)
      ensures (View(), world.value) == R.SimulateTick(sim, old(View()), old(world.value), t)
    {
      world.SetTick(Minus(t, 1));
      saved.Store(world.value);
      frame := inputs.Frame(t);
      world.Step(sim, t, frame);
      world.SetTick(t);
    }

    method Advance(world: GameWorld<S>, sim: R.Simulate<S, I>) returns (r: FrameResult)
      requires Valid()
      modifies this, inputs, saved, world
      ensures Valid()
      ensures (View(), world.value) == R.Advance(sim, old(View()), old(world.value))
      ensures r.tick == current && r.rolledBack == 0
      ensures r.fullyConfirmed <==>
                forall i :: 0 <= i < |R.FrameAt(old(inputs.players), current, inputs.defaultInput)| ==>
                  R.FrameAt(old(inputs.players), current, inputs.defaultInput)[i].2 == Confirmed
    {
      var tick := Plus(current, 1);
      world.SetTick(current);
      var frame := SimulateTick(world, tick, sim);
      var fully := forall i :: 0 <= i < |frame| ==> frame[i].2 == Confirmed;
      current := tick;
      stats := stats.(frames := stats.frames + 1);
      r := FrameResult(tick, 0, fully);
    }

    /** Restores the state just before `tick` and re-simulates to the present. */
    method RollbackTo(world: GameWorld<S>, tick: Tick, sim: R.Simulate<S, I>) returns (r: Result<nat, R.RollbackError>)
      requires Valid()
      modifies this, inputs, saved, world
      ensures Valid()
      ensures (View(), world.value, r) == R.RollbackTo(sim, old(View()), old(world.value), tick)
    {
      hide R.Resimulate, R.SimulateTick;
      if IsNewer(tick, current) {
        return Ok(0);
      }
      var depth := Diff(current, Minus(tick, 1));
      if depth < 0 {
        depth := 0;
      }
      if depth > config.maxRollback {
        stats := stats.(refused := stats.refused + 1);
        return Err(R.BeyondWindow(tick, Minus(current, config.maxRollback)));
      }
      var snapshot := saved.Get(Minus(tick, 1));
      if snapshot.None? {
        stats := stats.(refused := stats.refused + 1);
        return Err(R.NoSavedState(tick));
      }
      world.value := snapshot.value;

      var replayed := Replay(world, tick, sim);
      stats := stats.(
        rollbacks := stats.rollbacks + 1,
        resimulated := stats.resimulated + replayed,
        deepest := if depth > stats.deepest then depth else stats.deepest);
      r := Ok(replayed);
    }

    /** The re-simulation loop of a rollback. */
    method Replay(world: GameWorld<S>, tick: Tick, sim: R.Simulate<S, I>) returns (replayed: nat)
      requires Valid()
      modifies inputs, saved, world
      ensures Valid()
      ensures (View(), world.value, replayed) == R.Resimulate(sim, old(View()), old(world.value), tick, current)
    {
      hide R.Resimulate, R.SimulateTick;
      replayed := 0;
      var t := tick;
      ghost var done := false;
      ghost var goal := R.Resimulate(sim, View(), world.value, tick, current);
      while !IsNewer(t, current)
        invariant Valid()
        invariant done ==> t == Plus(current, 1)
        invariant if done then (View(), world.value, replayed) == goal
                  else var rest := R.Resimulate(sim, View(), world.value, t, current);
                       (rest.0, rest.1, rest.2 + replayed) == goal
        decreases if IsNewer(t, current) then 0 else Minus(current, t) + 1
      {
        R.ResimulateUnfolds(sim, View(), world.value, t, current);
        done := t == current;
        var _ := SimulateTick(world, t, sim);
        replayed := replayed + 1;
        t := Plus(t, 1);
      }
      R.ResimulateStops(sim, View(), world.value, t, current);
    }

    /** Re-simulates the last frame and checks the result is identical. */
    method SyncTest(world: GameWorld<S>, sim: R.Simulate<S, I>) returns (r: Result<(), R.RollbackError>)
      requires Valid()
      modifies inputs, world
      ensures Valid()
      ensures (View(), world.value, r) == R.SyncTest(sim, old(View()), old(world.value))
    {
      var tick := current;
      if tick == 0 {
        return Ok(());
      }
      var expected := world.value.state;
      var before := saved.Get(Minus(tick, 1));
      if before.None? {
        return Err(R.NoSavedState(tick));
      }
      world.value := before.value;
      var frame := inputs.Frame(tick);
      world.Step(sim, tick, frame);
      world.SetTick(tick);
      r := if world.value.state == expected then Ok(()) else Err(R.Nondeterministic(tick));
    }

    method Reset(world: GameWorld<S>)
      requires Valid()
      modifies this, saved
      ensures Valid()
      ensures View() == R.Reset(old(View()), world.value)
    {
      saved.Clear();
      current := world.value.tick;
    }
  }
}
