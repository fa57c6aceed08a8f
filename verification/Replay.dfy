/** The sliding window that refuses replayed packet sequences. */
module Replay {
  import opened Common
  import opened Sequences

  const WIDTH: nat := 64

  /** A 64-bit mask, as its bits. */
  type Mask = m: seq<bool> | |m| == 64 witness seq(64, i => false)

  datatype Window = Window(highest: Seq64, seen: Mask, started: bool)

  function Zeros(): Mask {
    seq(WIDTH, i => false)
  }

  function Empty(): Window {
    Window(0, Zeros(), false)
  }

  function ShiftIn(m: Mask, shift: nat): Mask {
    seq(WIDTH, i requires 0 <= i < WIDTH => i == 0 || (i >= shift && m[i - shift]))
  }

  function Advanced(m: Mask, shift: nat): Mask {
    if shift >= WIDTH then Zeros()[0 := true] else ShiftIn(m, shift)
  }

  function Judge(w: Window, s: Seq64): (Window, bool) {
    if !w.started then (Window(s, Zeros()[0 := true], true), true)
    else if s > w.highest then (Window(s, Advanced(w.seen, s - w.highest), true), true)
    else if w.highest - s >= WIDTH then (w, false)
    else if w.seen[w.highest - s] then (w, false)
    else (Window(w.highest, w.seen[w.highest - s := true], true), true)
  }

  class ReplayWindow {
    var highest: Seq64
    var seen: Mask
    var started: bool

    ghost function View(): Window
      reads this
    {
      Window(highest, seen, started)
    }

    constructor ()
      ensures View() == Empty()
    {
      highest, seen, started := 0, Zeros(), false;
    }

    method Accept(sequence: Seq64) returns (ok: bool)
      modifies this
      ensures (View(), ok) == Judge(old(View()), sequence)
    {
      if !started {
        started := true;
        highest := sequence;
        seen := Zeros()[0 := true];
        return true;
      }
      if sequence > highest {
        var shift := sequence - highest;
        if shift >= WIDTH {
          seen := Zeros()[0 := true];
        } else {
          seen := ShiftIn(seen, shift);
        }
        highest := sequence;
        return true;
      }
      var behind := highest - sequence;
      if behind >= WIDTH {
        return false;
      }
      if seen[behind] {
        return false;
      }
      seen := seen[behind := true];
      return true;
    }
  }

  // ----- the mask refines the set of accepted sequences -----

  ghost predicate Refines(w: Window, accepted: set<Seq64>) {
    && (w.started <==> accepted != {})
    && (w.started ==>
        && w.highest in accepted
        && (forall s :: s in accepted ==> s <= w.highest)
        && (forall i: nat :: i < WIDTH ==>
              (w.seen[i] <==> i <= w.highest && w.highest - i in accepted)))
  }

  /** After the first acceptance, exactly the sequences not yet accepted and less than 64
      behind the highest are accepted. */
  lemma AcceptExact(w: Window, accepted: set<Seq64>, s: Seq64)
    requires Refines(w, accepted)
    ensures Judge(w, s).1 <==> accepted == {} || (s !in accepted && s + WIDTH > w.highest)
    ensures Refines(Judge(w, s).0, if Judge(w, s).1 then accepted + {s} else accepted)
  {
    if w.started && s > w.highest {
      var shift := s - w.highest;
      var v := Judge(w, s).0;
      forall i: nat | i < WIDTH
        ensures v.seen[i] <==> i <= s && s - i in accepted + {s}
      {
        if shift <= i {
          assert s - i == w.highest - (i - shift);
        }
      }
    }
  }

  function Run(w: Window, arrivals: seq<Seq64>): Window {
    if arrivals == [] then w else Judge(Run(w, arrivals[..|arrivals| - 1]), arrivals[|arrivals| - 1]).0
  }

  /** Whether arrival `k` of a run is accepted. */
  predicate Accepted(arrivals: seq<Seq64>, k: nat)
    requires k < |arrivals|
  {
    Judge(Run(Empty(), arrivals[..k]), arrivals[k]).1
  }

  ghost function AcceptedSet(arrivals: seq<Seq64>): set<Seq64> {
    set k: nat | k < |arrivals| && Accepted(arrivals, k) :: arrivals[k]
  }

  lemma {:induction false} RunRefines(arrivals: seq<Seq64>)
    ensures Refines(Run(Empty(), arrivals), AcceptedSet(arrivals))
  {
    hide Judge, Refines, AcceptedSet;
    if arrivals == [] {
      NothingAccepted();
    } else {
      var before, s := arrivals[..|arrivals| - 1], arrivals[|arrivals| - 1];
      RunRefines(before);
      AcceptExact(Run(Empty(), before), AcceptedSet(before), s);
      AcceptedGrows(arrivals);
    }
  }

  lemma NothingAccepted()
    ensures AcceptedSet([]) == {} && Refines(Empty(), {})
  {
  }

  lemma AcceptedGrows(arrivals: seq<Seq64>)
    requires arrivals != []
    ensures var n := |arrivals| - 1;
            var before := AcceptedSet(arrivals[..n]);
            AcceptedSet(arrivals) == if Accepted(arrivals, n) then before + {arrivals[n]} else before
  {
    hide Judge, Run;
    var n := |arrivals| - 1;
    var before := arrivals[..n];
    forall k: nat | k < n
      ensures Accepted(before, k) <==> Accepted(arrivals, k)
    {
      assert before[..k] == arrivals[..k];
    }
    forall s | s in AcceptedSet(before)
      ensures s in AcceptedSet(arrivals)
    {
      var k: nat :| k < n && Accepted(before, k) && before[k] == s;
      assert Accepted(arrivals, k) && arrivals[k] == s;
    }
    if Accepted(arrivals, n) {
      assert arrivals[n] in AcceptedSet(arrivals);
    }
  }

  /** Over every run a sequence is accepted at most once. */
  lemma NoReplay(arrivals: seq<Seq64>, j: nat, k: nat)
    requires j < k < |arrivals|
    requires Accepted(arrivals, j) && arrivals[j] == arrivals[k]
    ensures !Accepted(arrivals, k)
  {
    var before := arrivals[..k];
    RunRefines(before);
    AcceptExact(Run(Empty(), before), AcceptedSet(before), arrivals[k]);
    assert before[..j] == arrivals[..j];
    assert Accepted(before, j);
    assert before[j] in AcceptedSet(before);
  }

  /** And an arrival is refused only for cause: it was accepted before, or some accepted
      sequence is 64 or more ahead of it. */
  lemma RefusedForCause(arrivals: seq<Seq64>, k: nat)
    requires k < |arrivals|
    ensures Accepted(arrivals, k) <==>
            forall j: nat :: j < k && Accepted(arrivals, j) ==>
              arrivals[j] != arrivals[k] && arrivals[j] < arrivals[k] + WIDTH
  {
    var before := arrivals[..k];
    RunRefines(before);
    var w := Run(Empty(), before);
    AcceptExact(w, AcceptedSet(before), arrivals[k]);
    assert forall j: nat :: j < k ==> before[..j] == arrivals[..j] && before[j] == arrivals[j];
    assert forall j: nat :: j < k ==> (Accepted(before, j) <==> Accepted(arrivals, j));
    if Accepted(arrivals, k) {
      forall j: nat | j < k && Accepted(arrivals, j)
        ensures arrivals[j] != arrivals[k] && arrivals[j] < arrivals[k] + WIDTH
      {
        assert before[j] in AcceptedSet(before);
      }
    } else {
      var culprit := if arrivals[k] in AcceptedSet(before) then arrivals[k] else w.highest;
      assert culprit in AcceptedSet(before);
      var j: nat :| j < |before| && Accepted(before, j) && before[j] == culprit;
      assert Accepted(arrivals, j);
    }
  }

  /** A receiver that extends each 16-bit number against its window. When the true number
      is recoverable, what it judges is the true number, so it never takes a packet twice
      even across the 16-bit wrap. */
  lemma ExtendedArrivalJudged(w: Window, accepted: set<Seq64>, n: Seq64)
    requires Refines(w, accepted) && w.started
    requires Recoverable(n, w.highest)
    ensures Judge(w, Extend(Wire(n), w.highest)).1 <==> n !in accepted && n + WIDTH > w.highest
  {
    ExtendRecovers(n, w.highest);
    AcceptExact(w, accepted, n);
  }
}
