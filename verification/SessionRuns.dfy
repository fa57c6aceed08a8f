/** Whole runs of a rollback session: which inputs each tick ends up simulated with, when
    those are the players' real ones, and what the input delay does to the first ticks. */
module SessionRuns {
  import opened Common
  import opened Ticks
  import opened Inputs
  import opened Rollback
  import opened Convergence

  datatype Call<+I> =
    | Step
    | Local(player: PlayerId)
    | Remote(player: PlayerId, tick: Tick)
    | Rewind(to: Tick)
    | Check

  /** What the caller owes each call: registered players, real inputs, and ticks inside
      the window the input history covers. */
  ghost predicate Admissible<S, I>(m: Match<S, I>, current: Tick, call: Call<I>) {
    match call
    case Step => current + 1 + m.lead < HALF
    case Local(p) => p in m.ids && m.config.inputDelay + 1 <= m.lead
    case Remote(p, t) => p in m.ids && 1 <= t && WindowOf(m, current).lo < t <= current + m.lead
    case Rewind(t) => 1 <= t <= current && current < t + m.config.maxRollback
    case Check => true
  }

  /** One call with the real inputs; false means the call returned an error. */
  ghost function Perform<S, I>(m: Match<S, I>, s: Session<S, I>, w: World<S>, call: Call<I>): (r: (Session<S, I>, World<S>, bool))
    requires Sized(s)
    ensures Sized(r.0)
  {
    match call
    case Step => var (s', w') := Advance(m.sim, s, w); (s', w', true)
    case Local(p) => (AddLocalInput(s, p, m.truth(p)(LocalTarget(s))).0, w, true)
    case Remote(p, t) => var (s', w', r) := AddRemoteInput(m.sim, s, w, p, t, m.truth(p)(t)); (s', w', r.Ok?)
    case Rewind(t) => var (s', w', r) := RollbackTo(m.sim, s, w, t); (s', w', r.Ok?)
    case Check => var (s', w', r) := SyncTest(m.sim, s, w); (s', w', r.Ok?)
  }

  ghost function DeliveredBy<S, I>(delivered: map<PlayerId, set<Tick>>, s: Session<S, I>, call: Call<I>): map<PlayerId, set<Tick>> {
    match call
    case Local(p) => if p in delivered then Deliver(delivered, p, LocalTarget(s)) else delivered
    case Remote(p, t) => if p in delivered then Deliver(delivered, p, t) else delivered
    case _ => delivered
  }

  /** Every call of the run is admissible and returns Ok. */
  ghost predicate Runs<S, I>(m: Match<S, I>, s: Session<S, I>, w: World<S>, calls: seq<Call<I>>)
    requires Sized(s)
    decreases |calls|
  {
    |calls| > 0 ==>
      && Admissible(m, s.current, calls[0])
      && var r := Perform(m, s, w, calls[0]);
         r.2 && Runs(m, r.0, r.1, calls[1..])
  }

  ghost function Final<S, I>(m: Match<S, I>, s: Session<S, I>, w: World<S>, calls: seq<Call<I>>): (r: (Session<S, I>, World<S>))
    requires Sized(s)
    ensures Sized(r.0)
    decreases |calls|
  {
    if |calls| == 0 then (s, w)
    else var r := Perform(m, s, w, calls[0]); Final(m, r.0, r.1, calls[1..])
  }

  ghost function DeliveredIn<S, I>(m: Match<S, I>, s: Session<S, I>, w: World<S>, calls: seq<Call<I>>,
                                   delivered: map<PlayerId, set<Tick>>): map<PlayerId, set<Tick>>
    requires Sized(s)
    decreases |calls|
  {
    if |calls| == 0 then delivered
    else var r := Perform(m, s, w, calls[0]);
         DeliveredIn(m, r.0, r.1, calls[1..], DeliveredBy(delivered, s, calls[0]))
  }

  // ---------------------------------------------------------------------------
  // The inputs each tick was last simulated with

  /** The rings' inputs for the `n` ticks from `from` on. */
  ghost function ReadBack<S, I>(s: Session<S, I>, default: I, from: Tick, n: nat): (used: seq<map<PlayerId, I>>)
    requires Sized(s) && from + n <= U32
    ensures |used| == n
  {
    seq(n, k requires 0 <= k < n => InputsAt(s.players, from + k, default))
  }

  /** The timeline up to tick `t`, then what the rings hold from `t` to the present. */
  ghost function Redone<S, I>(used: seq<map<PlayerId, I>>, s: Session<S, I>, default: I, t: Tick): seq<map<PlayerId, I>>
    requires Sized(s)
  {
    if 1 <= t <= |used| + 1 && t <= s.current then used[..t - 1] + ReadBack(s, default, t, s.current - t + 1) else used
  }

  /** A frame uses the inputs the rings give it; a rollback uses again what they hold. */
  ghost function UsedBy<S, I>(m: Match<S, I>, s: Session<S, I>, w: World<S>, call: Call<I>, used: seq<map<PlayerId, I>>)
    : seq<map<PlayerId, I>>
    requires Sized(s)
  {
    match call
    case Step => used + [InputsAt(s.players, Plus(s.current, 1), m.default)]
    case Remote(p, t) =>
      if Confirm(s, p, t, m.truth(p)(t)).1 then Redone(used, Perform(m, s, w, call).0, m.default, t) else used
    case Rewind(t) => Redone(used, Perform(m, s, w, call).0, m.default, t)
    case _ => used
  }

  ghost function UsedIn<S, I>(m: Match<S, I>, s: Session<S, I>, w: World<S>, calls: seq<Call<I>>, used: seq<map<PlayerId, I>>)
    : seq<map<PlayerId, I>>
    requires Sized(s)
    decreases |calls|
  {
    if |calls| == 0 then used
    else var r := Perform(m, s, w, calls[0]);
         UsedIn(m, r.0, r.1, calls[1..], UsedBy(m, s, w, calls[0], used))
  }

  /** The rings hold the timeline's own end. */
  lemma RedoneIs<S(!new), I(!new)>(s: Session<S, I>, w: World<S>, m: Match<S, I>, before: seq<map<PlayerId, I>>,
                                   used: seq<map<PlayerId, I>>, delivered: map<PlayerId, set<Tick>>, t: Tick)
    requires Inv(s, w, m, used, delivered) && Sized(s)
    requires 1 <= t <= s.current && WindowOf(m, s.current).lo < t && t <= |before| + 1
    requires before[..t - 1] <= used
    ensures Redone(before, s, m.default, t) == used
  {
    hide PlayersInv, SavedInv, StateOf, MatchValid, InputsAt;
    var again := Redone(before, s, m.default, t);
    forall k | t - 1 <= k < |used|
      ensures again[k] == used[k]
    {
      FrameRemembered(s.players, m, used, delivered, k + 1);
    }
    assert again[..t - 1] == used[..t - 1];
  }

  /** One call of any kind keeps the world the fold of the inputs used. */
  lemma PerformKeeps<S(!new), I(!new)>(
      m: Match<S, I>, s: Session<S, I>, w: World<S>, call: Call<I>, used: seq<map<PlayerId, I>>, delivered: map<PlayerId, set<Tick>>)
    requires Inv(s, w, m, used, delivered)
    requires Admissible(m, s.current, call)
    ensures Sized(s)
    ensures var r := Perform(m, s, w, call);
            r.2 ==> Inv(r.0, r.1, m, UsedBy(m, s, w, call, used), DeliveredBy(delivered, s, call))
  {
    hide Pending, Advance, AddLocalInput, AddRemoteInput, RollbackTo, SyncTest, Confirm, Redone;
    InvFacts(s, w, m, used, delivered);
    var r := Perform(m, s, w, call);
    match call
    case Step =>
      SameClock(s, w, m, used, delivered);
      AdvanceKeeps(s, w, m, used, delivered);
    case Local(p) => AddLocalKeeps(s, w, m, used, delivered, p);
    case Remote(p, t) =>
      var used' := AddRemoteKeeps(s, w, m, used, delivered, p, t);
      if r.2 && Confirm(s, p, t, m.truth(p)(t)).1 {
        RedoneIs(r.0, r.1, m, used, used', Deliver(delivered, p, t), t);
      }
    case Rewind(t) =>
      var used' := RollbackHarmless(s, w, m, used, delivered, t);
      WindowReaches(s, w, m, used, delivered, t);
      RedoneIs(r.0, r.1, m, used, used', delivered, t);
    case Check => SyncTestPasses(s, w, m, used, delivered);
  }

  lemma SameClock<S(!new), I(!new)>(s: Session<S, I>, w: World<S>, m: Match<S, I>, used: seq<map<PlayerId, I>>,
                                    delivered: map<PlayerId, set<Tick>>)
    requires Inv(s, w, m, used, delivered)
    ensures w.(tick := s.current) == w
  {
  }

  lemma WindowReaches<S(!new), I(!new)>(s: Session<S, I>, w: World<S>, m: Match<S, I>, used: seq<map<PlayerId, I>>,
                                        delivered: map<PlayerId, set<Tick>>, t: Tick)
    requires Inv(s, w, m, used, delivered) && s.current < t + m.config.maxRollback
    ensures WindowOf(m, s.current).lo < t
  {
    hide PlayersInv, SavedInv, StateOf, IgnoresSource;
  }

  /** Over every run of calls that return Ok, whatever arrived and whenever, the world is
      the straight run over the inputs each tick was last simulated with. */
  lemma {:induction false} RunKeeps<S(!new), I(!new)>(
      m: Match<S, I>, s: Session<S, I>, w: World<S>, calls: seq<Call<I>>, used: seq<map<PlayerId, I>>, delivered: map<PlayerId, set<Tick>>)
    requires Inv(s, w, m, used, delivered) && Sized(s)
    requires Runs(m, s, w, calls)
    ensures var r := Final(m, s, w, calls);
            Inv(r.0, r.1, m, UsedIn(m, s, w, calls, used), DeliveredIn(m, s, w, calls, delivered))
    decreases |calls|
  {
    hide Inv, Admissible, Perform, DeliveredBy, UsedBy;
    if |calls| > 0 {
      PerformKeeps(m, s, w, calls[0], used, delivered);
      var r := Perform(m, s, w, calls[0]);
      RunKeeps(m, r.0, r.1, calls[1..], UsedBy(m, s, w, calls[0], used), DeliveredBy(delivered, s, calls[0]));
    }
  }

  // ---------------------------------------------------------------------------
  // The counters

  /** Every rollback simulates something again, and none more than the deepest, which is
      within the limit; each tick of the world was one frame. */
  predicate Balanced<S, I>(s: Session<S, I>) {
    && s.stats.frames == s.current
    && s.stats.rollbacks <= s.stats.resimulated <= s.stats.rollbacks * s.stats.deepest
    && s.stats.deepest <= s.config.maxRollback
  }

  lemma CountedBalanced(stats: Stats, n: nat)
    requires 1 <= n && stats.rollbacks <= stats.resimulated <= stats.rollbacks * stats.deepest
    ensures var c := Counted(stats, n, n);
            c.rollbacks <= c.resimulated <= c.rollbacks * c.deepest
  {
    var c := Counted(stats, n, n);
    MulLess(stats.rollbacks, stats.deepest, c.deepest);
    assert c.rollbacks * c.deepest == stats.rollbacks * c.deepest + c.deepest;
  }

  lemma PerformCounts<S(!new), I(!new)>(
      m: Match<S, I>, s: Session<S, I>, w: World<S>, call: Call<I>, used: seq<map<PlayerId, I>>, delivered: map<PlayerId, set<Tick>>)
    requires Inv(s, w, m, used, delivered) && Admissible(m, s.current, call) && Balanced(s) && Sized(s)
    ensures var r := Perform(m, s, w, call); r.2 ==> Balanced(r.0)
  {
    hide Pending, AddRemoteInput, RollbackTo, SyncTest, Confirm;
    InvFacts(s, w, m, used, delivered);
    match call
    case Step =>
    case Local(p) => ConfirmsOnly(s, p, LocalTarget(s), m.truth(p)(LocalTarget(s)));
    case Remote(p, t) =>
      var used' := AddRemoteKeeps(s, w, m, used, delivered, p, t);
      if Confirm(s, p, t, m.truth(p)(t)).1 && t <= s.current {
        CountedBalanced(s.stats, s.current - t + 1);
      }
      if Perform(m, s, w, call).2 {
        InvFacts(Perform(m, s, w, call).0, Perform(m, s, w, call).1, m, used', Deliver(delivered, p, t));
      }
    case Rewind(t) =>
      RollbackReproduces(s, w, m, used, delivered, t);
      CountedBalanced(s.stats, s.current - t + 1);
    case Check => SyncTestPasses(s, w, m, used, delivered);
  }

  lemma ConfirmsOnly<S, I>(s: Session<S, I>, p: PlayerId, t: Tick, input: I)
    requires Sized(s)
    ensures Confirm(s, p, t, input).0 == s.(players := Confirm(s, p, t, input).0.players)
  {
  }

  /** Over every run that returns Ok the counters tell the truth about it. */
  lemma {:induction false} RunCounts<S(!new), I(!new)>(
      m: Match<S, I>, s: Session<S, I>, w: World<S>, calls: seq<Call<I>>, used: seq<map<PlayerId, I>>, delivered: map<PlayerId, set<Tick>>)
    requires Inv(s, w, m, used, delivered) && Sized(s) && Balanced(s)
    requires Runs(m, s, w, calls)
    ensures Balanced(Final(m, s, w, calls).0)
    decreases |calls|
  {
    hide Inv, Admissible, Perform, DeliveredBy, UsedBy, Balanced;
    if |calls| > 0 {
      PerformKeeps(m, s, w, calls[0], used, delivered);
      PerformCounts(m, s, w, calls[0], used, delivered);
      var r := Perform(m, s, w, calls[0]);
      RunCounts(m, r.0, r.1, calls[1..], UsedBy(m, s, w, calls[0], used), DeliveredBy(delivered, s, calls[0]));
    }
  }
}
