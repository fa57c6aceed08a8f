/** 16-bit packet sequences: wrap-safe comparison, extension to 64 bits, and the ring
    keyed by them. */
module Sequences {
  import opened Common

  type Seq = s: nat | s < U16

  /** Half the 16-bit space: sequences closer than this compare correctly. */
  const REACH: nat := 0x8000

  /** The 16-bit number a packet carries for its true, unbounded number. */
  function Wire(n: int): (s: Seq)
    ensures 0 <= n < U16 ==> s == n
  {
    n % U16
  }

  predicate IsNewer(a: Seq, b: Seq) {
    0 < Wire(a - b) < REACH
  }

  function Distance(a: Seq, b: Seq): int {
    var d := Wire(a - b);
    if d < REACH then d else d - U16
  }

  function Gap(a: nat, b: nat): nat {
    if a < b then b - a else a - b
  }

  /** On wire values of numbers less than half the space apart, the comparison and the
      distance are those of the true numbers. */
  lemma OrderSurvivesWrap(a: nat, b: nat)
    requires Gap(a, b) < REACH
    ensures IsNewer(Wire(a), Wire(b)) <==> a > b
    ensures Distance(Wire(a), Wire(b)) == a - b
  {
    var q := a / U16 - b / U16;
    assert Wire(a) - Wire(b) == a - b - U16 * q;
    assert q == -1 || q == 0 || q == 1;
    assert Wire(Wire(a) - Wire(b)) == if a >= b then a - b else a - b + U16;
  }

  /** And no further: of numbers within one turn of the wire, exactly those closer than half of
      it compare right, and those half apart when the first is the older. */
  lemma OrderExactly(a: nat, b: nat)
    requires Gap(a, b) < U16
    ensures var right := Gap(a, b) < REACH || (Gap(a, b) == REACH && a < b);
            && ((IsNewer(Wire(a), Wire(b)) <==> a > b) <==> right)
            && (Distance(Wire(a), Wire(b)) == a - b <==> right)
  {
    var q := a / U16 - b / U16;
    assert Wire(a) - Wire(b) == a - b - U16 * q;
    assert q == -1 || q == 0 || q == 1;
    assert Wire(Wire(a) - Wire(b)) == if a >= b then a - b else a - b + U16;
  }

  // ----- extension to 64 bits -----

  type Seq64 = n: nat | n < U64

  /** The three candidates tried, in order: the same block of 2^16, the next, the one
      before. The additions wrap at 2^64. */
  function Candidate(wire: Seq, highest: Seq64, k: nat): Seq64
    requires k < 3
  {
    var base := highest - highest % U16;
    if k == 0 then base + wire
    else if k == 1 then (base + U16 + wire) % U64
    else (base - U16 + wire) % U64
  }

  /** The first of the nearest among the first `k` candidates. */
  function Nearest(wire: Seq, highest: Seq64, k: nat): Seq64
    requires 1 <= k <= 3
  {
    if k == 1 then Candidate(wire, highest, 0)
    else
      var best, next := Nearest(wire, highest, k - 1), Candidate(wire, highest, k - 1);
      if Gap(next, highest) < Gap(best, highest) then next else best
  }

  function Extend(wire: Seq, highest: Seq64): Seq64 {
    Nearest(wire, highest, 3)
  }

  method ExtendLoop(wire: Seq, highest: Seq64) returns (best: Seq64)
    ensures best == Extend(wire, highest)
  {
    best := Candidate(wire, highest, 0);
    var bestGap := U64 - 1;
    var k := 0;
    while k < 3
      invariant 0 <= k <= 3
      invariant k == 0 ==> best == Candidate(wire, highest, 0) && bestGap == U64 - 1
      invariant k > 0 ==> best == Nearest(wire, highest, k) && bestGap == Gap(best, highest)
    {
      var c := Candidate(wire, highest, k);
      var gap := Gap(c, highest);
      if gap < bestGap {
        bestGap := gap;
        best := c;
      }
      k := k + 1;
    }
  }

  /** The true number is recovered when it is under half the wire space from the highest
      seen, when it ties in the highest's own block of 2^16, or when the block that holds
      the rival does not exist. */
  predicate Recoverable(n: Seq64, highest: Seq64) {
    || Gap(n, highest) < REACH
    || (n / U16 == highest / U16 &&
        (Gap(n, highest) == REACH ||
         (n > highest && n < U16) ||
         (n < highest && n + U16 >= U64)))
  }

  lemma ExtendRecovers(n: Seq64, highest: Seq64)
    ensures Extend(Wire(n), highest) == n <==> Recoverable(n, highest)
  {
    hide Candidate;
    var wire, block := Wire(n), highest / U16;
    CandidatesAt(wire, highest);
    var home := U16 * block + wire;
    var ahead := if home + U16 < U64 then home + U16 else wire;
    var behind := if block > 0 then home - U16 else U64 - U16 + wire;
    var two := if Gap(ahead, highest) < Gap(home, highest) then ahead else home;
    assert Nearest(wire, highest, 1) == home;
    assert Nearest(wire, highest, 2) == two;
    assert Extend(wire, highest) == if Gap(behind, highest) < Gap(two, highest) then behind else two;
    var q := n / U16 - block;
    assert n == home + U16 * q;
    if q >= 2 || q <= -2 {
      FarBlock(n, highest, q);
    }
  }

  lemma CandidatesAt(wire: Seq, highest: Seq64)
    ensures Candidate(wire, highest, 0) == U16 * (highest / U16) + wire
    ensures Candidate(wire, highest, 1) ==
            var home := U16 * (highest / U16) + wire;
            if home + U16 < U64 then home + U16 else wire
    ensures Candidate(wire, highest, 2) ==
            var home := U16 * (highest / U16) + wire;
            if highest / U16 > 0 then home - U16 else U64 - U16 + wire
  {
    var block := highest / U16;
    var base := U16 * block;
    assert base == highest - highest % U16;
    assert block < 0x1_0000_0000_0000;
    if base + U16 + wire >= U64 {
      assert block == 0x1_0000_0000_0000 - 1;
      assert base + U16 + wire == U64 + wire;
    }
  }

  lemma FarBlock(n: Seq64, highest: Seq64, q: int)
    requires q == n / U16 - highest / U16
    requires q >= 2 || q <= -2
    ensures Gap(n, highest) > U16
  {
  }

  // ----- the ring keyed by sequence -----

  type Ring<T> = seq<Option<(Seq, T)>>

  function RingGet<T>(ring: Ring<T>, s: Seq): Option<T>
    requires |ring| > 0
  {
    match ring[s % |ring|]
    case Some(entry) => if entry.0 == s then Some(entry.1) else None
    case None => None
  }

  function RingPut<T>(ring: Ring<T>, s: Seq, v: T): (r: Ring<T>)
    requires |ring| > 0
    ensures |r| == |ring|
  {
    ring[s % |ring| := Some((s, v))]
  }

  predicate Contains<T>(ring: Ring<T>, s: Seq)
    requires |ring| > 0
  {
    RingGet(ring, s).Some?
  }

  /** A stored value is served under its own sequence only; a slot recycled by a later
      sequence reads as absent, and every other slot is untouched. */
  lemma RingPutGet<T>(ring: Ring<T>, s: Seq, v: T, q: Seq)
    requires |ring| > 0
    ensures RingGet(RingPut(ring, s, v), q) ==
            if q == s then Some(v)
            else if q % |ring| == s % |ring| then None
            else RingGet(ring, q)
  {
  }
}
