/** The simulation clock: a 32-bit tick that wraps, compared by signed distance. */
module Ticks {
  import opened Common

  type Tick = t: nat | t < U32

  /** Half the tick space: the model's runs stay below it, so no comparison inverts. */
  const HALF: int := 0x8000_0000

  function Plus(t: Tick, n: nat): (r: Tick)
    ensures t + n < U32 ==> r == t + n
  {
    (t + n) % U32
  }

  function Minus(t: Tick, n: nat): (r: Tick)
    ensures n <= t ==> r == t - n
    ensures t < n <= U32 ==> r == t - n + U32
  {
    (t - n) % U32
  }

  /** Signed distance from `b` to `a`. */
  function Diff(a: Tick, b: Tick): (d: int)
    ensures -HALF <= a - b < HALF ==> d == a - b
    ensures a - b < -HALF ==> d == a - b + U32
    ensures a - b >= HALF ==> d == a - b - U32
  {
    var d := (a - b) % U32;
    if d < HALF then d else d - U32
  }

  predicate IsNewer(a: Tick, b: Tick) {
    Diff(a, b) > 0
  }
}
