/** `Predictor` as the object it is, reconciling a live world in place. */
module PredictorObject {
  import opened Common
  import opened Ticks
  import opened Fixed
  import opened Worlds
  import opened Delta
  import opened Replication
  import C = Comparison
  import P = Prediction
  import W = WorldObject

  class Predictor<I(!new)> {
    var history: seq<P.Predicted<I>>
    const maxHistory: nat
    const tolerance: Fx
    var resimulatedTotal: nat
    var corrections: nat

    ghost function View(): P.Predictor<I>
      reads this
    {
      P.Predictor(history, maxHistory, resimulatedTotal, corrections)
    }

    constructor (maxHistory: nat, tolerance: Fx)
      requires maxHistory > 0
      ensures View() == P.Predictor([], maxHistory, 0, 0) && this.tolerance == tolerance
    {
      history := [];
      this.maxHistory := maxHistory;
      this.tolerance := tolerance;
      resimulatedTotal, corrections := 0, 0;
    }

    method Record(tick: Tick, input: I, state: State)
      modifies this
      ensures View() == P.Record(old(View()), tick, input, state)
    {
      if |history| == maxHistory && history != [] {
        history := history[1..];
      }
      history := history + [P.Predicted(tick, input, state)];
    }

    /** Finds the recorded entry for a tick. */
    method FindTick(tick: Tick) returns (k: nat)
      ensures k == P.Position(history, tick)
    {
      k := 0;
      assert history[0..] == history;
      while k < |history| && history[k].tick != tick
        invariant 0 <= k <= |history|
        invariant P.Position(history, tick) == k + P.Position(history[k..], tick)
      {
        assert history[k..][1..] == history[k + 1..];
        k := k + 1;
      }
    }

    /** Reconciles the world against an authoritative snapshot of the same registry. */
    method Reconcile(world: W.World, auth: State, sim: P.Simulation<I>) returns (outcome: P.Reconciliation)
      requires world.Consistent() && P.Fit(world.reg, world.View()) && P.Fit(world.reg, auth)
      requires P.AllFit(world.reg, history) && P.Closed(world.reg, sim)
      modifies this, world
      ensures world.Consistent()
      ensures P.Reconciled(View(), world.View(), outcome) ==
              P.Reconcile(world.reg, sim, tolerance, old(View()), old(world.View()), auth)
    {
      hide C.Compare, Valid, P.Step;
      var reg := world.reg;
      var tick := auth.tick;
      var pos := FindTick(tick);
      if pos == |history| {
        if history != [] {
          var oldest := history[0].tick;
          if IsNewer(oldest, tick) {
            return P.Stale(tick, oldest);
          }
        }
        Adopt(world, auth);
        history := [];
        return P.Resynced(tick);
      }
      P.BothFit(reg, history[pos].state, auth);
      var comparison := C.CompareWith(reg, history[pos].state, auth, tolerance);
      if comparison == C.Agrees {
        history := history[pos + 1..];
        return P.Confirmed(tick);
      }
      Adopt(world, auth);
      var rebuilt := Replay(world, sim, history[pos + 1..]);
      history := rebuilt;
      resimulatedTotal := resimulatedTotal + |rebuilt|;
      corrections := corrections + 1;
      return P.Corrected(tick, |rebuilt|, comparison);
    }
  }

  /** Steps the world through the recorded inputs again, keeping each state on the way. */
  method Replay<I(!new)>(world: W.World, sim: P.Simulation<I>, later: seq<P.Predicted<I>>)
    returns (rebuilt: seq<P.Predicted<I>>)
    requires world.Consistent() && P.Fit(world.reg, world.View()) && P.Closed(world.reg, sim)
    modifies world
    ensures world.Consistent()
    ensures (world.View(), rebuilt) == P.Rebuild(sim, old(world.View()), later)
  {
    hide P.Step;
    rebuilt := [];
    var i := 0;
    while i < |later|
      invariant 0 <= i <= |later|
      invariant world.Consistent() && P.Fit(world.reg, world.View())
      invariant (world.View(), rebuilt) == P.Rebuild(sim, old(world.View()), later[..i])
    {
      assert later[..i + 1][..i] == later[..i];
      var entry := later[i];
      var next := P.Step(sim, world.View(), entry.input, entry.tick);
      P.StepFits(world.reg, sim, world.View(), entry.input, entry.tick);
      Adopt(world, next);
      var state := world.Snapshot();
      rebuilt := rebuilt + [P.Predicted(entry.tick, entry.input, state)];
      i := i + 1;
    }
    assert later[..|later|] == later;
  }

  /** Restores a snapshot of the world's own registry, which always succeeds. */
  method Adopt(world: W.World, s: State)
    requires world.Consistent() && P.Fit(world.reg, s)
    modifies world
    ensures world.Consistent() && world.View() == s
  {
    var r := world.Restore(s);
  }
}
