/** Client prediction: recorded ticks, and reconciling them with an authority's snapshot. */
module Prediction {
  import opened Common
  import opened Ticks
  import opened Fixed
  import opened Worlds
  import opened Delta
  import opened Replication
  import opened Comparison

  /** One tick of the game under one input. */
  type Simulation<!I> = (State, I) -> State

  datatype Predicted<I> = Predicted(tick: Tick, input: I, state: State)

  datatype Predictor<I> = Predictor(
    history: seq<Predicted<I>>,
    maxHistory: nat,
    resimulatedTotal: nat,
    corrections: nat)

  datatype Reconciliation =
    | Confirmed(tick: Tick)
    | Corrected(tick: Tick, resimulated: nat, cause: Outcome)
    | Stale(tick: Tick, oldestHeld: Tick)
    | Resynced(tick: Tick)

  /** A state of this registry that a comparison can index. */
  ghost predicate Fit(reg: Registry, s: State) {
    Valid(reg, s) && |s.generations| < U32
  }

  ghost predicate AllFit<I>(reg: Registry, history: seq<Predicted<I>>) {
    forall k :: 0 <= k < |history| ==> Fit(reg, history[k].state)
  }

  lemma BothFit(reg: Registry, a: State, b: State)
    requires Fit(reg, a) && Fit(reg, b)
    ensures Valid(reg, a) && Valid(reg, b) && SlotMax(a, Some(b)) < U32
  {
  }

  /** The simulation stays within the registry. */
  ghost predicate Closed<I(!new)>(reg: Registry, sim: Simulation<I>) {
    forall s, i :: Fit(reg, s) ==> Fit(reg, sim(s, i))
  }

  function Step<I>(sim: Simulation<I>, s: State, input: I, tick: Tick): State {
    sim(s, input).(tick := tick)
  }

  lemma StepFits<I(!new)>(reg: Registry, sim: Simulation<I>, s: State, input: I, tick: Tick)
    requires Closed(reg, sim) && Fit(reg, s)
    ensures Fit(reg, Step(sim, s, input, tick))
  {
    TickFree(reg, sim(s, input), tick);
  }

  /** Drops the oldest when full. */
  function Record<I>(p: Predictor<I>, tick: Tick, input: I, state: State): Predictor<I> {
    var kept := if |p.history| == p.maxHistory && p.history != [] then p.history[1..] else p.history;
    p.(history := kept + [Predicted(tick, input, state)])
  }

  /** The first recorded entry for a tick, or the length when there is none. */
  function Position<I>(history: seq<Predicted<I>>, tick: Tick): (k: nat)
    ensures k <= |history|
    ensures k < |history| ==> history[k].tick == tick
    ensures forall j :: 0 <= j < k ==> history[j].tick != tick
  {
    if history == [] then 0
    else if history[0].tick == tick then 0
    else 1 + Position(history[1..], tick)
  }

  /** Replays recorded inputs from a state, one entry per tick. */
  function Rebuild<I>(sim: Simulation<I>, from: State, past: seq<Predicted<I>>): (r: (State, seq<Predicted<I>>))
    ensures |r.1| == |past|
  {
    if past == [] then (from, [])
    else
      var (world, rebuilt) := Rebuild(sim, from, past[..|past| - 1]);
      var last := past[|past| - 1];
      var next := Step(sim, world, last.input, last.tick);
      (next, rebuilt + [Predicted(last.tick, last.input, next)])
  }

  datatype Reconciled<I> = Reconciled(predictor: Predictor<I>, world: State, outcome: Reconciliation)

  function Reconcile<I>(reg: Registry, sim: Simulation<I>, tolerance: Fx, p: Predictor<I>, world: State, auth: State)
    : Reconciled<I>
    requires Fit(reg, auth) && AllFit(reg, p.history)
  {
    var tick := auth.tick;
    var k := Position(p.history, tick);
    if k == |p.history| then
      if p.history != [] && IsNewer(p.history[0].tick, tick) then
        Reconciled(p, world, Stale(tick, p.history[0].tick))
      else Reconciled(p.(history := []), auth, Resynced(tick))
    else
      BothFit(reg, p.history[k].state, auth);
      var comparison := Compare(reg, p.history[k].state, auth, tolerance);
      if comparison == Agrees then Reconciled(p.(history := p.history[k + 1..]), world, Confirmed(tick))
      else
        var (next, rebuilt) := Rebuild(sim, auth, p.history[k + 1..]);
        Reconciled(Predictor(rebuilt, p.maxHistory, p.resimulatedTotal + |rebuilt|, p.corrections + 1), next,
                   Corrected(tick, |rebuilt|, comparison))
  }

  // ----- the replay chain -----

  /** Consecutive ticks, each stored state the simulation of the one before. */
  ghost predicate Chain<I>(sim: Simulation<I>, history: seq<Predicted<I>>) {
    && (forall k :: 0 <= k < |history| ==> history[k].state.tick == history[k].tick)
    && (forall k :: 0 < k < |history| ==> history[k].tick == history[k - 1].tick + 1)
    && (forall k :: 0 < k < |history| ==>
          history[k].state == Step(sim, history[k - 1].state, history[k].input, history[k].tick))
  }

  /** The invariant: a bounded chain that ends at the live world. */
  ghost predicate Tracks<I>(reg: Registry, sim: Simulation<I>, p: Predictor<I>, world: State) {
    && Fit(reg, world)
    && 0 < p.maxHistory && |p.history| <= p.maxHistory
    && Chain(sim, p.history)
    && AllFit(reg, p.history)
    && (p.history != [] ==> p.history[|p.history| - 1].state == world)
  }

  lemma ChainSuffix<I>(sim: Simulation<I>, history: seq<Predicted<I>>, k: nat)
    requires Chain(sim, history) && k <= |history|
    ensures Chain(sim, history[k..])
  {
    var tail := history[k..];
    assert forall j :: 0 <= j < |tail| ==> tail[j] == history[k + j];
  }

  lemma {:induction false} RebuildChains<I(!new)>(reg: Registry, sim: Simulation<I>, from: State, past: seq<Predicted<I>>)
    requires Closed(reg, sim) && Fit(reg, from)
    requires forall k :: 0 < k < |past| ==> past[k].tick == past[k - 1].tick + 1
    ensures var (world, rebuilt) := Rebuild(sim, from, past);
            && Chain(sim, rebuilt)
            && AllFit(reg, rebuilt)
            && (forall k :: 0 <= k < |rebuilt| ==> rebuilt[k].tick == past[k].tick && rebuilt[k].input == past[k].input)
            && Fit(reg, world)
            && world == (if rebuilt == [] then from else rebuilt[|rebuilt| - 1].state)
            && (rebuilt != [] ==> rebuilt[0].state == Step(sim, from, past[0].input, past[0].tick))
  {
    hide Fit, AllFit, Closed, Chain, Step;
    if past == [] {
      EmptyChain<I>(reg, sim);
    } else {
      var init, last := past[..|past| - 1], past[|past| - 1];
      RebuildChains(reg, sim, from, init);
      var (world, rebuilt) := Rebuild(sim, from, init);
      var next := Predicted(last.tick, last.input, Step(sim, world, last.input, last.tick));
      StepFits(reg, sim, world, last.input, last.tick);
      StepTick(sim, world, last.input, last.tick);
      ChainGrows(sim, rebuilt, next);
      FitGrows(reg, rebuilt, next);
    }
  }

  lemma ChainGrows<I>(sim: Simulation<I>, history: seq<Predicted<I>>, next: Predicted<I>)
    requires Chain(sim, history) && next.state.tick == next.tick
    requires history != [] ==>
               var last := history[|history| - 1];
               next.tick == last.tick + 1 && next.state == Step(sim, last.state, next.input, next.tick)
    ensures Chain(sim, history + [next])
  {
    hide Step;
    var longer := history + [next];
    assert forall k :: 0 <= k < |history| ==> longer[k] == history[k];
  }

  lemma FitSuffix<I>(reg: Registry, history: seq<Predicted<I>>, k: nat)
    requires AllFit(reg, history) && k <= |history|
    ensures AllFit(reg, history[k..])
  {
    hide Fit;
  }

  lemma FitGrows<I>(reg: Registry, history: seq<Predicted<I>>, next: Predicted<I>)
    requires AllFit(reg, history) && Fit(reg, next.state)
    ensures AllFit(reg, history + [next])
  {
    hide Fit;
  }

  /** Simulating the next tick and recording it keeps the chain. */
  lemma RecordKeeps<I(!new)>(reg: Registry, sim: Simulation<I>, p: Predictor<I>, world: State, input: I)
    requires Closed(reg, sim) && Tracks(reg, sim, p, world) && world.tick + 1 < HALF
    ensures var next := Step(sim, world, input, world.tick + 1);
            Tracks(reg, sim, Record(p, world.tick + 1, input, next), next)
  {
    hide Fit, AllFit, Closed;
    var tick := world.tick + 1;
    var next := Step(sim, world, input, tick);
    StepFits(reg, sim, world, input, tick);
    var from := if |p.history| == p.maxHistory && p.history != [] then 1 else 0;
    var kept := p.history[from..];
    assert p.history[0..] == p.history;
    assert kept != [] ==> kept[|kept| - 1] == p.history[|p.history| - 1];
    assert |kept| < p.maxHistory;
    KeptTracks(reg, sim, p, world, from, Predicted(tick, input, next));
  }

  lemma KeptTracks<I>(reg: Registry, sim: Simulation<I>, p: Predictor<I>, world: State, from: nat, next: Predicted<I>)
    requires Tracks(reg, sim, p, world) && from <= |p.history|
    requires next.tick == world.tick + 1 && next.state == Step(sim, world, next.input, next.tick)
    requires Fit(reg, next.state)
    ensures Chain(sim, p.history[from..] + [next]) && AllFit(reg, p.history[from..] + [next])
  {
    hide Fit, AllFit, Chain, Step;
    var kept := p.history[from..];
    ChainSuffix(sim, p.history, from);
    FitSuffix(reg, p.history, from);
    assert kept != [] ==> kept[|kept| - 1] == p.history[|p.history| - 1];
    ChainTick(sim, p.history);
    StepTick(sim, world, next.input, next.tick);
    ChainGrows(sim, kept, next);
    FitGrows(reg, kept, next);
  }

  lemma ChainTick<I>(sim: Simulation<I>, history: seq<Predicted<I>>)
    requires Chain(sim, history)
    ensures history != [] ==> history[|history| - 1].state.tick == history[|history| - 1].tick
  {
  }

  lemma StepTick<I>(sim: Simulation<I>, s: State, input: I, tick: Tick)
    ensures Step(sim, s, input, tick).tick == tick
  {
  }

  lemma ChainTicks<I>(sim: Simulation<I>, history: seq<Predicted<I>>)
    requires Chain(sim, history)
    ensures forall k :: 0 < k < |history| ==> history[k].tick == history[k - 1].tick + 1
  {
  }

  /** Reconciling keeps it, whatever arrives. */
  lemma ReconcileKeeps<I(!new)>(reg: Registry, sim: Simulation<I>, tolerance: Fx, p: Predictor<I>, world: State,
                                auth: State)
    requires Closed(reg, sim) && Tracks(reg, sim, p, world) && Fit(reg, auth)
    ensures var r := Reconcile(reg, sim, tolerance, p, world, auth);
            Tracks(reg, sim, r.predictor, r.world)
  {
    hide Fit, AllFit, Closed, Compare, Chain, Rebuild;
    var k := Position(p.history, auth.tick);
    if k < |p.history| {
      var later := p.history[k + 1..];
      ChainSuffix(sim, p.history, k + 1);
      FitSuffix(reg, p.history, k + 1);
      ChainTicks(sim, later);
      RebuildChains(reg, sim, auth, later);
    } else {
      EmptyChain<I>(reg, sim);
    }
  }

  lemma EmptyChain<I>(reg: Registry, sim: Simulation<I>)
    ensures Chain(sim, []) && AllFit<I>(reg, [])
  {
  }

  // ----- what each outcome means -----

  /** A held tick whose state is not alike the authority's in every slot, in one discrete field
      or one number past the tolerance even, is corrected; otherwise it is confirmed. */
  lemma HeldTickVerdict<I>(reg: Registry, sim: Simulation<I>, tolerance: Fx, p: Predictor<I>, world: State, auth: State, k: nat)
    requires Tracks(reg, sim, p, world) && Fit(reg, auth) && 0 <= tolerance < MAX
    requires k < |p.history| && p.history[k].tick == auth.tick
    ensures Valid(reg, p.history[k].state) && Valid(reg, auth)
    ensures var r := Reconcile(reg, sim, tolerance, p, world, auth);
            if forall i: nat :: SlotAlike(reg, p.history[k].state, auth, i, tolerance) then
              r.outcome == Confirmed(auth.tick) && r.world == world
            else
              r.outcome.Corrected? && r.world == Rebuild(sim, auth, p.history[k + 1..]).0
  {
    hide Compare, Rebuild, SlotAlike;
    BothFit(reg, p.history[k].state, auth);
    AgreesExactly(reg, p.history[k].state, auth, tolerance);
    HeldTick(reg, sim, tolerance, p, world, auth, k);
    var j := Position(p.history, auth.tick);
    TicksFrom(sim, p.history, k);
    TicksFrom(sim, p.history, j);
  }

  // ----- how much is held -----

  /** Records these ticks one after another. */
  function RecordAll<I>(p: Predictor<I>, entries: seq<Predicted<I>>): (r: Predictor<I>)
  {
    if entries == [] then p
    else
      var last := entries[|entries| - 1];
      Record(RecordAll(p, entries[..|entries| - 1]), last.tick, last.input, last.state)
  }

  function LastOf<T>(s: seq<T>, n: nat): seq<T> {
    if |s| <= n then s else s[|s| - n..]
  }

  /** With no reconciliation in between, exactly the newest `max_history` ticks are held. */
  lemma {:induction false} RecordsHeld<I>(p: Predictor<I>, entries: seq<Predicted<I>>)
    requires 0 < p.maxHistory && |p.history| <= p.maxHistory
    ensures RecordAll(p, entries) == p.(history := LastOf(p.history + entries, p.maxHistory))
  {
    if entries == [] {
      assert p.history + entries == p.history;
    } else {
      var init, last := entries[..|entries| - 1], entries[|entries| - 1];
      RecordsHeld(p, init);
      var all := p.history + init;
      assert p.history + entries == all + [last];
      assert Predicted(last.tick, last.input, last.state) == last;
      if |all| >= p.maxHistory {
        assert LastOf(all, p.maxHistory)[1..] + [last] == LastOf(all + [last], p.maxHistory);
      }
    }
  }

  /** The state after the inputs, over the authority's: what a correction must leave. */
  function Fold<I>(sim: Simulation<I>, from: State, inputs: seq<(I, Tick)>): State {
    if inputs == [] then from
    else
      var (input, tick) := inputs[|inputs| - 1];
      Step(sim, Fold(sim, from, inputs[..|inputs| - 1]), input, tick)
  }

  function Inputs<I>(history: seq<Predicted<I>>): seq<(I, Tick)> {
    if history == [] then []
    else Inputs(history[..|history| - 1]) + [(history[|history| - 1].input, history[|history| - 1].tick)]
  }

  lemma {:induction false} RebuildFolds<I>(sim: Simulation<I>, from: State, past: seq<Predicted<I>>)
    ensures Rebuild(sim, from, past).0 == Fold(sim, from, Inputs(past))
  {
    if past != [] {
      RebuildFolds(sim, from, past[..|past| - 1]);
      assert Inputs(past)[..|Inputs(past)| - 1] == Inputs(past[..|past| - 1]);
    }
  }

  /** Which outcome, by the snapshot's tick alone unless it is one still held. */
  lemma OutcomeByTick<I>(reg: Registry, sim: Simulation<I>, tolerance: Fx, p: Predictor<I>, world: State, auth: State)
    requires Tracks(reg, sim, p, world) && Fit(reg, auth)
    requires auth.tick < HALF && world.tick < HALF
    ensures var r := Reconcile(reg, sim, tolerance, p, world, auth);
            if p.history == [] || auth.tick > world.tick then
              r == Reconciled(p.(history := []), auth, Resynced(auth.tick))
            else if auth.tick < p.history[0].tick then
              r == Reconciled(p, world, Stale(auth.tick, p.history[0].tick))
            else r.outcome.Confirmed? || r.outcome.Corrected?
  {
    hide Fit, Compare, Rebuild;
    var h := p.history;
    if h != [] {
      TicksFrom(sim, h, |h| - 1);
      var k := Position(h, auth.tick);
      if h[0].tick <= auth.tick <= world.tick {
        TicksFrom(sim, h, auth.tick - h[0].tick);
      } else if k < |h| {
        TicksFrom(sim, h, k);
      }
    }
  }

  /** A snapshot older than the world and than everything held leaves the world alone exactly
      when something is held: with nothing held it is adopted, and the world goes back. */
  lemma OlderIsStaleExactly<I>(reg: Registry, sim: Simulation<I>, tolerance: Fx, p: Predictor<I>, world: State, auth: State)
    requires Tracks(reg, sim, p, world) && Fit(reg, auth)
    requires auth.tick < world.tick < HALF && forall k :: 0 <= k < |p.history| ==> auth.tick < p.history[k].tick
    ensures Reconcile(reg, sim, tolerance, p, world, auth).world == world <==> p.history != []
    ensures p.history == [] ==> Reconcile(reg, sim, tolerance, p, world, auth).outcome == Resynced(auth.tick)
  {
    hide Fit, Compare, Rebuild;
    OutcomeByTick(reg, sim, tolerance, p, world, auth);
  }

  /** It takes two snapshots: confirming the newest prediction empties the history, and a
      snapshot that comes late then rewinds the world to itself. */
  lemma LateSnapshotRewinds<I>(reg: Registry, sim: Simulation<I>, tolerance: Fx, p: Predictor<I>, world: State, late: State)
    requires Tracks(reg, sim, p, world) && p.history != [] && tolerance >= 0
    requires Fit(reg, late) && late.tick < world.tick < HALF
    ensures var first := Reconcile(reg, sim, tolerance, p, world, world);
            && first.outcome == Confirmed(world.tick) && first.world == world && first.predictor.history == []
            && Fit(reg, late) && AllFit(reg, first.predictor.history)
            && var second := Reconcile(reg, sim, tolerance, first.predictor, first.world, late);
            second.outcome == Resynced(late.tick) && second.world == late && second.world != world
  {
    hide Fit, Compare, Rebuild;
    var n := |p.history| - 1;
    TicksFrom(sim, p.history, n);
    var k := Position(p.history, world.tick);
    if k < n {
      TicksFrom(sim, p.history, k);
    }
    SelfAgrees(reg, world, tolerance);
  }

  lemma {:induction false} TicksFrom<I>(sim: Simulation<I>, history: seq<Predicted<I>>, k: nat)
    requires Chain(sim, history) && k < |history|
    ensures history[k].tick == history[0].tick + k
  {
    if k > 0 {
      TicksFrom(sim, history, k - 1);
    }
  }

  /** A held tick: agreement leaves the world alone and releases what is confirmed; a
      disagreement leaves it as the fold of the later inputs over the authority's state. */
  lemma HeldTick<I>(reg: Registry, sim: Simulation<I>, tolerance: Fx, p: Predictor<I>, world: State, auth: State, k: nat)
    requires Tracks(reg, sim, p, world) && Fit(reg, auth)
    requires k < |p.history| && p.history[k].tick == auth.tick
    ensures var r := Reconcile(reg, sim, tolerance, p, world, auth);
            var later := p.history[k + 1..];
            if Compare(reg, p.history[k].state, auth, tolerance) == Agrees then
              r.outcome == Confirmed(auth.tick) && r.world == world && r.predictor == p.(history := later)
            else
              && r.outcome == Corrected(auth.tick, |later|, Compare(reg, p.history[k].state, auth, tolerance))
              && r.world == Fold(sim, auth, Inputs(later))
              && |r.predictor.history| == |later| && Inputs(r.predictor.history) == Inputs(later)
              && r.predictor.corrections == p.corrections + 1
              && r.predictor.resimulatedTotal == p.resimulatedTotal + |later|
  {
    hide Fit, Compare;
    TicksFrom(sim, p.history, k);
    TicksFrom(sim, p.history, Position(p.history, auth.tick));
    RebuildFolds(sim, auth, p.history[k + 1..]);
    RebuildInputs(sim, auth, p.history[k + 1..]);
  }

  lemma {:induction false} RebuildInputs<I>(sim: Simulation<I>, from: State, past: seq<Predicted<I>>)
    ensures Inputs(Rebuild(sim, from, past).1) == Inputs(past)
  {
    if past != [] {
      RebuildInputs(sim, from, past[..|past| - 1]);
      var rebuilt := Rebuild(sim, from, past).1;
      assert rebuilt[..|rebuilt| - 1] == Rebuild(sim, from, past[..|past| - 1]).1;
    }
  }

  /** A right prediction is confirmed against the authority's own delta baseline: the
      tolerance absorbs what quantization lost. */
  lemma QuantizedAuthorityConfirms<I>(reg: Registry, sim: Simulation<I>, tolerance: Fx, p: Predictor<I>, world: State,
                                      k: nat)
    requires Tracks(reg, sim, p, world) && k < |p.history| && tolerance >= 0
    requires AllAbsorbed(reg, p.history[k].state, tolerance)
    ensures var auth := AsSent(reg, p.history[k].state);
            Fit(reg, auth) &&
            Reconcile(reg, sim, tolerance, p, world, auth).outcome == Confirmed(p.history[k].tick)
  {
    hide Compare, AsSent, AllAbsorbed, StateValid, Tracks;
    assert Chain(sim, p.history) && Fit(reg, p.history[k].state) by { TracksEntry(reg, sim, p, world, k); }
    var auth := AsSent(reg, p.history[k].state);
    assert Fit(reg, auth);
    SentCopyAgrees(reg, p.history[k].state, tolerance);
    HeldTick(reg, sim, tolerance, p, world, auth, k);
  }

  lemma TracksEntry<I>(reg: Registry, sim: Simulation<I>, p: Predictor<I>, world: State, k: nat)
    requires Tracks(reg, sim, p, world) && k < |p.history|
    ensures Chain(sim, p.history) && Fit(reg, p.history[k].state)
  {
  }

  // ----- catching up with the authority -----

  /** The authority's states, tick by tick, over the inputs the client buffered. */
  ghost predicate Authority<I>(sim: Simulation<I>, truth: seq<State>, later: seq<Predicted<I>>) {
    && |truth| == |later| + 1
    && forall k :: 0 <= k < |later| ==> truth[k + 1] == Step(sim, truth[k], later[k].input, later[k].tick)
  }

  lemma {:induction false} RebuildIsTruth<I>(sim: Simulation<I>, truth: seq<State>, later: seq<Predicted<I>>)
    requires Authority(sim, truth, later)
    ensures var (world, rebuilt) := Rebuild(sim, truth[0], later);
            && world == truth[|later|]
            && forall k :: 0 <= k < |later| ==> rebuilt[k].state == truth[k + 1]
  {
    if later != [] {
      RebuildIsTruth(sim, truth[..|later|], later[..|later| - 1]);
    }
  }

  /** After one correction the client's world, and every state it still holds, is the
      authority's; so each later snapshot it receives unquantized is confirmed. */
  lemma CorrectionCatchesUp<I(!new)>(reg: Registry, sim: Simulation<I>, tolerance: Fx, p: Predictor<I>, world: State,
                                     k: nat, truth: seq<State>, j: nat)
    requires Closed(reg, sim) && Tracks(reg, sim, p, world) && k < |p.history| && tolerance >= 0
    requires Authority(sim, truth, p.history[k + 1..]) && Fit(reg, truth[0]) && truth[0].tick == p.history[k].tick
    requires Compare(reg, p.history[k].state, truth[0], tolerance) != Agrees
    requires j < |p.history| - k - 1
    ensures var r := Reconcile(reg, sim, tolerance, p, world, truth[0]);
            && r.outcome.Corrected? && r.world == truth[|truth| - 1]
            && Tracks(reg, sim, r.predictor, r.world)
            && |r.predictor.history| == |p.history| - k - 1
            && r.predictor.history[j].state == truth[j + 1] && Fit(reg, truth[j + 1])
            && Reconcile(reg, sim, tolerance, r.predictor, r.world, truth[j + 1]).outcome ==
                 Confirmed(r.predictor.history[j].tick)
  {
    hide Fit, AllFit, Closed, Compare, Chain, Rebuild;
    assert Chain(sim, p.history);
    var later := p.history[k + 1..];
    TicksFrom(sim, p.history, k);
    TicksFrom(sim, p.history, Position(p.history, truth[0].tick));
    RebuildIsTruth(sim, truth, later);
    ReconcileKeeps(reg, sim, tolerance, p, world, truth[0]);
    var r := Reconcile(reg, sim, tolerance, p, world, truth[0]);
    assert r.predictor.history[j].state == truth[j + 1];
    HeldFits(reg, sim, r.predictor, r.world, j);
    SelfAgrees(reg, truth[j + 1], tolerance);
    HeldTick(reg, sim, tolerance, r.predictor, r.world, truth[j + 1], j);
  }

  lemma HeldFits<I>(reg: Registry, sim: Simulation<I>, p: Predictor<I>, world: State, j: nat)
    requires Tracks(reg, sim, p, world) && j < |p.history|
    ensures Fit(reg, p.history[j].state) && p.history[j].state.tick == p.history[j].tick
  {
    hide Fit;
  }

  lemma SelfAgrees(reg: Registry, s: State, tolerance: Fx)
    requires Fit(reg, s) && tolerance >= 0
    ensures Compare(reg, s, s, tolerance) == Agrees
  {
    hide Compare, FieldAt, ValuesAgree;
    forall i: nat
      ensures SlotAgrees(reg, s, s, i, tolerance)
    {
      forall c: nat, f: nat | c < |reg.layouts| && PresentAt(s, c, i) && f < |reg.layouts[c].fields|
        ensures ValuesAgree(FieldAt(reg.layouts, s, c, i, f), FieldAt(reg.layouts, s, c, i, f), tolerance)
      {
        ValueAgreesWithItself(FieldAt(reg.layouts, s, c, i, f), tolerance);
      }
    }
    CompareExactly(reg, s, s, tolerance);
  }

  // ----- runs -----

  datatype Call<I> = Predict(input: I) | Receive(auth: State)

  /** What a caller owes: ticks stay in the lower half of their space and snapshots are of
      this registry. */
  ghost predicate Owed<I>(reg: Registry, world: State, call: Call<I>) {
    match call
    case Predict(_) => world.tick + 1 < HALF
    case Receive(auth) => Fit(reg, auth) && auth.tick < HALF
  }

  ghost function Perform<I>(reg: Registry, sim: Simulation<I>, tolerance: Fx, p: Predictor<I>, world: State, call: Call<I>)
    : (Predictor<I>, State)
    requires Owed(reg, world, call) && AllFit(reg, p.history)
  {
    match call
    case Predict(input) =>
      var next := Step(sim, world, input, world.tick + 1);
      (Record(p, world.tick + 1, input, next), next)
    case Receive(auth) =>
      var r := Reconcile(reg, sim, tolerance, p, world, auth);
      (r.predictor, r.world)
  }

  /** Where a run of calls leads from a new predictor, while each call is owed. */
  ghost function After<I(!new)>(reg: Registry, sim: Simulation<I>, tolerance: Fx, maxHistory: nat, start: State,
                                calls: seq<Call<I>>): Option<(Predictor<I>, State)>
    decreases |calls|
  {
    if calls == [] then Some((Predictor([], maxHistory, 0, 0), start))
    else
      match After(reg, sim, tolerance, maxHistory, start, calls[..|calls| - 1])
      case None => None
      case Some((p, world)) =>
        var call := calls[|calls| - 1];
        if Owed(reg, world, call) && AllFit(reg, p.history) then Some(Perform(reg, sim, tolerance, p, world, call))
        else None
  }

  /** Over every run of predictions and snapshots, in any order and however late or
      repeated, the history is a bounded replay chain that ends at the live world. */
  lemma {:induction false} RunTracks<I(!new)>(reg: Registry, sim: Simulation<I>, tolerance: Fx, maxHistory: nat,
                                              start: State, calls: seq<Call<I>>)
    requires Closed(reg, sim) && Fit(reg, start) && maxHistory > 0
    ensures var r := After(reg, sim, tolerance, maxHistory, start, calls);
            r.Some? ==> Tracks(reg, sim, r.value.0, r.value.1)
    decreases |calls|
  {
    hide Fit, Closed, Reconcile, Tracks;
    if calls == [] {
      StartTracks(reg, sim, maxHistory, start);
    } else {
      RunTracks(reg, sim, tolerance, maxHistory, start, calls[..|calls| - 1]);
      var before := After(reg, sim, tolerance, maxHistory, start, calls[..|calls| - 1]);
      if before.Some? && Owed(reg, before.value.1, calls[|calls| - 1]) {
        match calls[|calls| - 1] {
          case Predict(input) => RecordKeeps(reg, sim, before.value.0, before.value.1, input);
          case Receive(auth) => ReconcileKeeps(reg, sim, tolerance, before.value.0, before.value.1, auth);
        }
      }
    }
  }

  lemma StartTracks<I>(reg: Registry, sim: Simulation<I>, maxHistory: nat, start: State)
    requires Fit(reg, start) && maxHistory > 0
    ensures Tracks(reg, sim, Predictor([], maxHistory, 0, 0), start)
  {
  }
}
