/** Per-player input rings: confirmation, prediction by repetition, and invalidation.

    The class `InputQueue` updates its map of rings in place; the functions on
    `PlayerInputs` say what each update means for one player. */
module Inputs {
  import opened Common
  import opened Ticks

  type PlayerId = p: nat | p < 256

  datatype Source = Confirmed | Predicted

  datatype Slot<+I> = Slot(tick: Tick, input: I, source: Source)

  /** One player's ring: the slot of tick `t` is `t % capacity`. */
  datatype PlayerInputs<+I> = PlayerInputs(
    slots: seq<Option<Slot<I>>>,
    lastConfirmed: Option<Tick>,
    lastKnown: Option<I>)

  function NewPlayer<I>(capacity: nat): PlayerInputs<I>
  {
    PlayerInputs(seq(capacity, i => None), None, None)
  }

  /** The entry for exactly this tick; a recycled slot reads as absent. */
  function At<I>(p: PlayerInputs<I>, t: Tick): (r: Option<Slot<I>>)
    requires |p.slots| > 0
    ensures r.Some? ==> r.value.tick == t
  {
    var s := p.slots[t % |p.slots|];
    if s.Some? && s.value.tick == t then s else None
  }

  function Put<I>(p: PlayerInputs<I>, t: Tick, input: I, source: Source): (q: PlayerInputs<I>)
    requires |p.slots| > 0
    ensures |q.slots| == |p.slots|
    ensures q.lastConfirmed == p.lastConfirmed && q.lastKnown == p.lastKnown
    ensures At(q, t) == Some(Slot(t, input, source))
    ensures forall u: Tick :: u % |p.slots| != t % |p.slots| ==> At(q, u) == At(p, u)
  {
    p.(slots := p.slots[t % |p.slots| := Some(Slot(t, input, source))])
  }

  /** Whether `invalidate_predictions_after(t)` drops this slot. */
  predicate Stale<I>(s: Option<Slot<I>>, t: Tick) {
    s.Some? && s.value.source.Predicted? && IsNewer(s.value.tick, t)
  }

  function InvalidateAfter<I>(p: PlayerInputs<I>, t: Tick): (q: PlayerInputs<I>)
    ensures |q.slots| == |p.slots|
    ensures q.lastConfirmed == p.lastConfirmed && q.lastKnown == p.lastKnown
    ensures forall i :: 0 <= i < |p.slots| ==> q.slots[i] == if Stale(p.slots[i], t) then None else p.slots[i]
  {
    p.(slots := seq(|p.slots|, i requires 0 <= i < |p.slots| => if Stale(p.slots[i], t) then None else p.slots[i]))
  }

  /** The ring after a confirmation is recorded and before predictions are dropped. */
  function Recorded<I>(p: PlayerInputs<I>, t: Tick, input: I): (q: PlayerInputs<I>)
    requires |p.slots| > 0
    ensures |q.slots| == |p.slots|
  {
    var stored := Put(p, t, input, Confirmed);
    if p.lastConfirmed.None? || IsNewer(t, p.lastConfirmed.value)
    then stored.(lastConfirmed := Some(t), lastKnown := Some(input)) else stored
  }

  function ConfirmOne<I(==)>(p: PlayerInputs<I>, t: Tick, input: I): (r: (PlayerInputs<I>, bool))
    requires |p.slots| > 0
    ensures |r.0.slots| == |p.slots|
  {
    var existing := At(p, t);
    var contradicts := existing.Some? && existing.value.source.Predicted? && existing.value.input != input;
    (if contradicts then InvalidateAfter(Recorded(p, t, input), t) else Recorded(p, t, input), contradicts)
  }

  function LastKnown<I>(p: PlayerInputs<I>, default: I): I {
    if p.lastKnown.Some? then p.lastKnown.value else default
  }

  function PredictOne<I>(p: PlayerInputs<I>, t: Tick, default: I): (r: (PlayerInputs<I>, I, Source))
    requires |p.slots| > 0
    ensures |r.0.slots| == |p.slots|
  {
    match At(p, t)
    case Some(slot) => (p, slot.input, slot.source)
    case None => (Put(p, t, LastKnown(p, default), Predicted), LastKnown(p, default), Predicted)
  }

  // ---------------------------------------------------------------------------
  // The ring as a map from the ticks it still holds to their entries.

  ghost function Held<I>(p: PlayerInputs<I>): (m: map<Tick, Slot<I>>)
    requires |p.slots| > 0
    ensures forall t: Tick :: t in m <==> At(p, t).Some?
    ensures forall t: Tick :: t in m ==> m[t] == At(p, t).value
  {
    map t: Tick | 0 <= t < U32 && At(p, t).Some? :: At(p, t).value
  }

  /** Storing tick `t` can evict only ticks a whole capacity away. */
  lemma PutHeld<I>(p: PlayerInputs<I>, t: Tick, input: I, source: Source)
    requires |p.slots| > 0
    ensures var before := Held(p); var after := Held(Put(p, t, input, source));
            && t in after && after[t] == Slot(t, input, source)
            && (forall u :: u in after && u != t ==> u in before && after[u] == before[u])
            && (forall u :: u in before && u != t && -|p.slots| < u - t < |p.slots| ==> u in after)
  {
    var q := Put(p, t, input, source);
    forall u: Tick | u != t && (At(q, u).Some? || (At(p, u).Some? && -|p.slots| < u - t < |p.slots|))
      ensures At(q, u) == At(p, u)
    {
      if u % |p.slots| == t % |p.slots| && -|p.slots| < u - t < |p.slots| {
        ResiduesDistinct(u, t, |p.slots|);
      }
    }
  }

  lemma InvalidateHeld<I>(p: PlayerInputs<I>, t: Tick)
    requires |p.slots| > 0 && t < HALF
    requires forall u | u in Held(p) :: u < HALF
    ensures var before := Held(p); var after := Held(InvalidateAfter(p, t));
            && (forall u | u in after :: u in before && after[u] == before[u] && (after[u].source.Predicted? ==> u <= t))
            && (forall u | u in before && (before[u].source.Predicted? ==> u <= t) :: u in after)
  {
    forall u: Tick ensures At(InvalidateAfter(p, t), u) == if Stale(At(p, u), t) then None else At(p, u) {
    }
  }

  // ---------------------------------------------------------------------------
  // What one player's ring promises while ticks `|used| + 1 .. hi` are still to
  // be simulated. `used[k]` holds the inputs the current timeline used at tick
  // `k + 1`; `truth` is the one real input per player and tick.

  datatype Window = Window(lo: int, hi: nat, top: nat, capacity: nat)

  ghost predicate WindowValid(w: Window) {
    w.lo < w.hi <= w.top < HALF && w.top - w.lo <= w.capacity
  }

  /** One player's share of the current timeline: the inputs used at ticks 1, 2, ...,
      the real inputs, and the ticks whose real input has been delivered. */
  datatype Timeline<!I> = Timeline(used: seq<I>, default: I, truth: Tick -> I, delivered: set<Tick>)

  /** What the ring knows, without its storage. */
  datatype Log<+I> = Log(held: map<Tick, Slot<I>>, lastConfirmed: Option<Tick>, lastKnown: Option<I>)

  ghost function LogOf<I>(p: PlayerInputs<I>): Log<I>
    requires |p.slots| > 0
  {
    Log(Held(p), p.lastConfirmed, p.lastKnown)
  }

  ghost predicate PlayerInv<I>(p: PlayerInputs<I>, w: Window, line: Timeline<I>) {
    && WindowValid(w)
    && |p.slots| == w.capacity
    && LogInv(LogOf(p), w, line)
  }

  ghost predicate LogInv<I>(g: Log<I>, w: Window, line: Timeline<I>) {
    && (g.lastConfirmed.Some? ==> g.lastConfirmed.value <= w.top)
    && HoldsUsed(g.held, w, line)
    && EntriesTrue(g, w, line)
    && PredictionsFresh(g, w, line)
    && DeliveredInForce(g.held, w, line)
  }

  /** The ring still holds exactly the input the timeline used. */
  ghost predicate HoldsUsed<I>(held: map<Tick, Slot<I>>, w: Window, line: Timeline<I>) {
    forall u: Tick :: w.lo < u <= |line.used| && 1 <= u ==> u in held && held[u].input == line.used[u - 1]
  }

  /** Only simulated ticks were predicted; confirmed entries are the real inputs. */
  ghost predicate EntriesTrue<I>(g: Log<I>, w: Window, line: Timeline<I>) {
    forall u :: u in g.held ==>
      if g.held[u].source.Predicted? then 1 <= u <= w.hi
      else g.lastConfirmed.Some? && u <= g.lastConfirmed.value && g.held[u].input == line.truth(u)
  }

  /** A prediction newer than every confirmation repeats the newest confirmed input. */
  ghost predicate PredictionsFresh<I>(g: Log<I>, w: Window, line: Timeline<I>) {
    forall u :: u in g.held && w.lo < u && g.held[u].source.Predicted?
                && (g.lastConfirmed.None? || g.lastConfirmed.value < u) ==>
      g.held[u].input == if g.lastKnown.Some? then g.lastKnown.value else line.default
  }

  /** A delivered input is in force: used where simulated, waiting where not. */
  ghost predicate DeliveredInForce<I>(held: map<Tick, Slot<I>>, w: Window, line: Timeline<I>) {
    forall u :: u in line.delivered ==>
      && 1 <= u <= w.top
      && (u <= |line.used| ==> line.used[u - 1] == line.truth(u))
      && (w.lo < u ==> u in held && held[u].source.Confirmed?)
  }

  /** Asking for the next tick's input extends the timeline by exactly that input. */
  lemma PredictKeeps<I>(p: PlayerInputs<I>, w: Window, line: Timeline<I>)
    requires PlayerInv(p, w, line)
    requires w.lo < |line.used| + 1 <= w.hi
    ensures var r := PredictOne(p, |line.used| + 1, line.default);
            PlayerInv(r.0, w, line.(used := line.used + [r.1]))
  {
    var t: Tick := |line.used| + 1;
    var r := PredictOne(p, t, line.default);
    var after := LogOf(r.0);
    if At(p, t).None? {
      PutHeld(p, t, LastKnown(p, line.default), Predicted);
    }
    LogExtends(LogOf(p), after, w, line, r.1);
  }

  lemma LogExtends<I>(g: Log<I>, after: Log<I>, w: Window, line: Timeline<I>, input: I)
    requires WindowValid(w) && LogInv(g, w, line)
    requires w.lo < |line.used| + 1 <= w.hi
    requires after.lastConfirmed == g.lastConfirmed && after.lastKnown == g.lastKnown
    requires var t := |line.used| + 1;
             && t in after.held && after.held[t].input == input
             && (if t in g.held then after.held[t] == g.held[t]
                 else after.held[t].source.Predicted? && input == if g.lastKnown.Some? then g.lastKnown.value else line.default)
             && (forall u :: u in after.held && u != t ==> u in g.held && after.held[u] == g.held[u])
             && (forall u :: u in g.held && w.lo < u <= w.top ==> u in after.held)
    ensures LogInv(after, w, line.(used := line.used + [input]))
  {
    var line' := line.(used := line.used + [input]);
    assert HoldsUsed(after.held, w, line');
    assert EntriesTrue(after, w, line');
    assert PredictionsFresh(after, w, line');
    assert DeliveredInForce(after.held, w, line');
  }

  /** A confirmation inside the window either leaves the timeline right as it is, or
      names the tick from which it must be simulated again. */
  lemma ConfirmKeeps<I>(p: PlayerInputs<I>, w: Window, line: Timeline<I>, t: Tick)
    requires PlayerInv(p, w, line)
    requires |line.used| == w.hi
    requires 1 <= t && w.lo < t <= w.top
    ensures var r := ConfirmOne(p, t, line.truth(t));
            var line' := line.(delivered := line.delivered + {t});
            if r.1 then t <= w.hi && PlayerInv(r.0, w, line'.(used := line.used[..t - 1]))
            else PlayerInv(r.0, w, line')
  {
    var r := ConfirmOne(p, t, line.truth(t));
    var g, after := LogOf(p), LogOf(r.0);
    assert g.lastConfirmed.Some? ==> g.lastConfirmed.value < HALF;
    assert forall u :: u in g.held ==> u < HALF by {
      assert EntriesTrue(g, w, line);
    }
    ConfirmLog(p, t, line.truth(t));
    if r.1 {
      ContradictionCuts(g, after, w, line, t);
    } else {
      AgreementKeeps(g, after, w, line, t);
    }
  }

  lemma RecordedLog<I>(p: PlayerInputs<I>, t: Tick, input: I)
    requires |p.slots| > 0 && t < HALF
    requires p.lastConfirmed.Some? ==> p.lastConfirmed.value < HALF
    ensures Stored(LogOf(p), LogOf(Recorded(p, t, input)), t, input)
    ensures forall u | u in Held(p) && u != t && -|p.slots| < u - t < |p.slots| :: u in Held(Recorded(p, t, input))
  {
    PutHeld(p, t, input, Confirmed);
    var stored, known := Put(p, t, input, Confirmed), Recorded(p, t, input);
    assert Held(known) == Held(stored) by {
      assert forall u: Tick :: At(known, u) == At(stored, u);
    }
  }

  /** What a confirmation does to the log, while no tick has reached half the space. */
  lemma ConfirmLog<I>(p: PlayerInputs<I>, t: Tick, input: I)
    requires |p.slots| > 0 && t < HALF
    requires p.lastConfirmed.Some? ==> p.lastConfirmed.value < HALF
    requires forall u | u in Held(p) :: u < HALF
    ensures var r := ConfirmOne(p, t, input);
            var g := LogOf(p); var after := LogOf(r.0);
            && (r.1 <==> t in g.held && g.held[t].source.Predicted? && g.held[t].input != input)
            && Stored(g, after, t, input)
            && (forall u | u in g.held && u != t && -|p.slots| < u - t < |p.slots| ::
                  (r.1 && g.held[u].source.Predicted? ==> u <= t) ==> u in after.held)
            && (r.1 ==> forall u | u in after.held && after.held[u].source.Predicted? :: u <= t)
  {
    RecordedLog(p, t, input);
    var known := Recorded(p, t, input);
    var r := ConfirmOne(p, t, input);
    if r.1 {
      InvalidateHeld(known, t);
    } else {
      assert r.0 == known;
    }
  }

  ghost predicate Stored<I>(g: Log<I>, after: Log<I>, t: Tick, input: I) {
    && t in after.held && after.held[t] == Slot(t, input, Confirmed)
    && (if g.lastConfirmed.None? || g.lastConfirmed.value < t then
          after.lastConfirmed == Some(t) && after.lastKnown == Some(input)
        else after.lastConfirmed == g.lastConfirmed && after.lastKnown == g.lastKnown)
    && (forall u :: u in after.held && u != t ==> u in g.held && after.held[u] == g.held[u])
  }

  lemma AgreementKeeps<I>(g: Log<I>, after: Log<I>, w: Window, line: Timeline<I>, t: Tick)
    requires WindowValid(w) && LogInv(g, w, line) && |line.used| == w.hi
    requires 1 <= t && w.lo < t <= w.top
    requires Stored(g, after, t, line.truth(t))
    requires forall u :: u in g.held && w.lo < u <= w.top ==> u in after.held
    requires t in g.held && g.held[t].source.Predicted? ==> g.held[t].input == line.truth(t)
    ensures LogInv(after, w, line.(delivered := line.delivered + {t}))
  {
    var line' := line.(delivered := line.delivered + {t});
    assert HoldsUsed(after.held, w, line');
    assert EntriesTrue(after, w, line');
    assert PredictionsFresh(after, w, line');
    assert DeliveredInForce(after.held, w, line');
  }

  lemma ContradictionCuts<I>(g: Log<I>, after: Log<I>, w: Window, line: Timeline<I>, t: Tick)
    requires WindowValid(w) && LogInv(g, w, line) && |line.used| == w.hi
    requires 1 <= t && w.lo < t <= w.top
    requires t in g.held && g.held[t].source.Predicted?
    requires Stored(g, after, t, line.truth(t))
    requires forall u :: u in after.held && after.held[u].source.Predicted? ==> u <= t
    requires forall u :: u in g.held && w.lo < u <= w.top && (u <= t || g.held[u].source.Confirmed?) ==> u in after.held
    ensures t <= w.hi
    ensures LogInv(after, w, line.(delivered := line.delivered + {t}, used := line.used[..t - 1]))
  {
    var line' := line.(delivered := line.delivered + {t}, used := line.used[..t - 1]);
    assert HoldsUsed(after.held, w, line');
    assert EntriesTrue(after, w, line');
    assert PredictionsFresh(after, w, line');
    assert DeliveredInForce(after.held, w, line');
  }
}
