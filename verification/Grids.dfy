/** The spatial grid's arithmetic: which cell a coordinate falls in, what the squared
    distance test lets through, and when the cells searched hold every hit. */
module Grids {
  import opened Common
  import opened Fixed

  datatype Vec2 = Vec2(x: Fx, y: Fx)

  /** The quotient truncates toward zero and is then floored. */
  function CellIndex(x: Fx, cell: Fx): int
    requires cell > 0
  {
    FloorInt(Div(x, cell))
  }

  /** The cell a coordinate falls in, while the quotient fits: cell `k` spans from `k` widths
      up to the next, except that truncation lets a negative coordinate count, when it lies
      under `cell / 2^32` below the boundary, as on it. */
  lemma CellIndexIs(x: Fx, cell: Fx)
    requires cell > 0 && Size(x) * ONE <= MAX * cell
    ensures var k := CellIndex(x, cell);
            if x >= 0 then k * cell <= x < (k + 1) * cell
            else (k * ONE - 1) * cell < x * ONE <= ((k + 1) * ONE - 1) * cell
  {
    var n := Size(x) * ONE;
    var q := n / cell;
    QuotientNonNegative(n, cell);
    assert n == cell * q + n % cell;
    FactorBound(cell, q, MAX) by { assert cell * (MAX + 1) == MAX * cell + cell; }
    assert TruncDiv(x * ONE, cell) == if x >= 0 then q else -q;
    if x >= 0 {
      Spans(x, cell, q, q / ONE);
    } else {
      SpansBelow(n, cell, q, (-q) / ONE);
    }
  }

  lemma Spans(x: nat, cell: int, q: nat, k: int)
    requires cell > 0 && cell * q <= x * ONE < cell * q + cell && k * ONE <= q < (k + 1) * ONE
    ensures k * cell <= x < (k + 1) * cell
  {
    MulLess(cell, k * ONE, q);
    MulLess(cell, q + 1, (k + 1) * ONE);
    assert cell * (q + 1) == cell * q + cell;
    assert cell * (k * ONE) == (k * cell) * ONE && cell * ((k + 1) * ONE) == ((k + 1) * cell) * ONE;
  }

  lemma SpansBelow(n: int, cell: int, q: int, k: int)
    requires cell > 0 && cell * q <= n < cell * q + cell && k * ONE <= -q < (k + 1) * ONE
    ensures (k * ONE - 1) * cell < -n <= ((k + 1) * ONE - 1) * cell
  {
    var low, high := 1 - k * ONE, 1 - (k + 1) * ONE;
    MulLess(cell, q + 1, low);
    MulLess(cell, high, q);
    assert cell * (q + 1) == cell * q + cell;
    assert (k * ONE - 1) * cell == -(cell * low) && ((k + 1) * ONE - 1) * cell == -(cell * high);
  }

  type Cell = (int, int)

  function CellOf(p: Vec2, cell: Fx): Cell
    requires cell > 0
  {
    (CellIndex(p.x, cell), CellIndex(p.y, cell))
  }

  /** How many cells a query looks to each side. */
  function Reach(radius: Fx, cell: Fx): int
    requires cell > 0
  {
    CellIndex(radius, cell) + 1
  }

  /** Every cell a query visits has 32-bit indices. */
  predicate Addressable(centre: Vec2, radius: Fx, cell: Fx)
    requires cell > 0
  {
    var (x, y) := CellOf(centre, cell);
    var r := Reach(radius, cell);
    && r < 0x8000_0000
    && -0x8000_0000 <= x - r && x + r < 0x8000_0000
    && -0x8000_0000 <= y - r && y + r < 0x8000_0000
  }

  function LengthSq(v: Vec2): Fx {
    Add(Mul(v.x, v.x), Mul(v.y, v.y))
  }

  predicate Hit(p: Vec2, centre: Vec2, radius: Fx) {
    LengthSq(Vec2(Sub(p.x, centre.x), Sub(p.y, centre.y))) <= Mul(radius, radius)
  }

  /** Within the square of cells a query visits. */
  predicate Near(a: Cell, b: Cell, reach: int) {
    -reach <= a.0 - b.0 <= reach && -reach <= a.1 - b.1 <= reach
  }

  /** A square as the distance test sees it: floored, before saturation. */
  function Sq(d: int): nat {
    SquareSign(d);
    d * d / ONE
  }

  lemma SquareSign(d: int)
    ensures d * d >= 0 && d * d / ONE >= 0
  {
    if d >= 0 { MulLess(d, 0, d); } else { MulLess(-d, 0, -d); assert d * d == (-d) * (-d); }
  }

  /** The square of the radius does not saturate. */
  predicate Fits(radius: Fx) {
    radius >= 0 && Sq(radius) < MAX
  }

  /** The largest offset the distance test lets through along one axis: flooring the squares
      can let it exceed a small radius. */
  function Furthest(radius: nat): nat {
    Isqrt((Sq(radius) + 1) * ONE - 1)
  }

  lemma FurthestIs(radius: nat, d: nat)
    ensures Sq(d) <= Sq(radius) <==> d <= Furthest(radius)
  {
    var f := Furthest(radius);
    QuotientBelow(d * d, Sq(radius));
    if d <= f {
      SquareMono(d, f);
    } else {
      SquareMono(f + 1, d);
    }
  }

  lemma QuotientBelow(n: nat, q: nat)
    ensures n / ONE <= q <==> n < (q + 1) * ONE
  {
  }

  /** From a radius of one half on, the test is exact along an axis. */
  lemma HalfIsExact(radius: nat)
    requires radius >= ONE / 2
    ensures Furthest(radius) == radius
  {
    FurthestIs(radius, radius);
    FurthestIs(radius, radius + 1);
    assert (radius + 1) * (radius + 1) == radius * radius + 2 * radius + 1;
    StepUp(radius * radius, 2 * radius + 1);
  }

  lemma StepUp(n: nat, more: nat)
    requires more >= ONE
    ensures (n + more) / ONE > n / ONE
  {
  }

  /** The squared offsets, each floored to the raw scale, add up to no more than the floored
      squared radius. */
  predicate Within(p: Vec2, centre: Vec2, radius: Fx) {
    Sq(p.x - centre.x) + Sq(p.y - centre.y) <= Sq(radius)
  }

  predicate InCircle(p: Vec2, centre: Vec2, radius: Fx) {
    var dx: int, dy: int := p.x - centre.x, p.y - centre.y;
    dx * dx + dy * dy <= radius * radius
  }

  /** The circle, but for what flooring the two squares can let through. */
  predicate NearCircle(p: Vec2, centre: Vec2, radius: Fx) {
    var dx: int, dy: int := p.x - centre.x, p.y - centre.y;
    dx * dx + dy * dy < radius * radius + 2 * ONE
  }

  /** What the distance test means in plain integers: every point of the circle passes, and
      whatever passes lies less than two units of the squared raw scale outside it. */
  lemma HitIsCircle(p: Vec2, centre: Vec2, radius: Fx)
    requires Fits(radius)
    ensures InCircle(p, centre, radius) ==> Hit(p, centre, radius)
    ensures Hit(p, centre, radius) ==> NearCircle(p, centre, radius)
    ensures Hit(p, centre, radius) <==> Within(p, centre, radius)
  {
    hide Hit, Fits, Sq, InCircle, NearCircle;
    HitIsSquares(p, centre, radius);
    CircleIsWithin(p, centre, radius);
  }

  lemma CircleIsWithin(p: Vec2, centre: Vec2, radius: Fx)
    ensures InCircle(p, centre, radius) ==> Within(p, centre, radius)
    ensures Within(p, centre, radius) ==> NearCircle(p, centre, radius)
  {
    hide Sq;
    SquaresBelow(p.x - centre.x, p.y - centre.y, radius);
  }

  lemma SquaresBelow(dx: int, dy: int, radius: int)
    ensures dx * dx + dy * dy <= radius * radius ==> Sq(dx) + Sq(dy) <= Sq(radius)
    ensures Sq(dx) + Sq(dy) <= Sq(radius) ==> dx * dx + dy * dy < radius * radius + 2 * ONE
  {
    SquareSign(dx);
    SquareSign(dy);
    SquareSign(radius);
    FloorsBelow(dx * dx, dy * dy, radius * radius);
  }

  lemma FloorsBelow(a: nat, b: nat, r: nat)
    ensures a + b <= r ==> a / ONE + b / ONE <= r / ONE
    ensures a / ONE + b / ONE <= r / ONE ==> a + b < r + 2 * ONE
  {
  }

  lemma HitIsSquares(p: Vec2, centre: Vec2, radius: Fx)
    requires Fits(radius)
    ensures Hit(p, centre, radius) <==> Sq(p.x - centre.x) + Sq(p.y - centre.y) <= Sq(radius)
  {
    var dx: int, dy: int := p.x - centre.x, p.y - centre.y;
    OffsetSquare(p.x, centre.x);
    OffsetSquare(p.y, centre.y);
    MulIsSquare(radius);
    hide Sq, Mul, Sub;
  }

  /** The square of a saturated offset is the true square, or both are at the top. */
  lemma OffsetSquare(a: Fx, b: Fx)
    ensures Mul(Sub(a, b), Sub(a, b)) == (if Sq(a - b) < MAX then Sq(a - b) else MAX)
  {
    var d := Sub(a, b);
    MulIsSquare(d);
    if d != a - b {
      SaturatedSquare(d);
      SquareSign(a - b);
      WideSquare(a - b);
    }
  }

  lemma WideSquare(d: int)
    requires d > MAX || d < MIN
    ensures Sq(d) >= MAX
  {
    var m: nat := if d < 0 then -d else d;
    assert d * d == m * m;
    SquareMono(MAX, m);
    SaturatedSquare(MAX);
  }

  // ----- cells are monotone and never spread further than the distance -----

  lemma TruncShift(a: int, c: int, m: nat)
    requires c > 0
    ensures TruncDiv(a, c) <= TruncDiv(a + c * m, c) <= TruncDiv(a, c) + m
  {
    var b := a + c * m;
    MulLess(m, 0, c);
    if a >= 0 {
      FloorShift(a, c, m);
    } else if b < 0 {
      FloorShift(-b, c, m);
    } else {
      TruncAcross(-a, b, c, m);
    }
  }

  lemma TruncAcross(a: nat, b: nat, c: int, m: nat)
    requires c > 0 && a + b == c * m
    ensures 0 <= a / c && 0 <= b / c && a / c + b / c <= m
  {
    var u, v := a / c, b / c;
    assert a == c * u + a % c && b == c * v + b % c;
    QuotientNonNegative(a, c);
    QuotientNonNegative(b, c);
    assert c * (u + v) == c * u + c * v;
    assert c * (m + 1) == c * m + c;
    FactorBound(c, u + v, m);
  }

  lemma FloorShift(a: nat, c: int, m: nat)
    requires c > 0
    ensures (a + c * m) / c == a / c + m
  {
    var b := a + c * m;
    assert b == c * (b / c) + b % c && a == c * (a / c) + a % c;
    var d := b / c - a / c - m;
    assert c * d == a % c - b % c by {
      assert c * (b / c) - c * (a / c) - c * m == c * d;
    }
    if d >= 1 { MulAtLeast(c, d); } else if d <= -1 { MulAtLeast(c, -d); }
  }

  lemma TruncOrder(a: int, b: int, c: int)
    requires c > 0 && a <= b
    ensures TruncDiv(a, c) <= TruncDiv(b, c)
  {
    if 0 <= a {
      QuotientOrder(a, b, c);
    } else if b < 0 {
      QuotientOrder(-b, -a, c);
    } else {
      QuotientNonNegative(-a, c);
      QuotientNonNegative(b, c);
    }
  }

  lemma SatSpread(u: int, v: int, m: nat)
    requires u <= v <= u + m
    ensures Sat(u) <= Sat(v) <= Sat(u) + m
  {
  }

  lemma FloorSpread(u: int, v: int, k: nat)
    requires u <= v <= u + k * ONE
    ensures u / ONE <= v / ONE <= u / ONE + k
  {
    var a, b := u / ONE, v / ONE;
    assert u == ONE * a + u % ONE && v == ONE * b + v % ONE;
  }

  /** Coordinates no more than `k` cells' width apart fall at most `k` cells apart, whatever
      their signs and even where the quotient saturates. */
  lemma CellSpread(x: Fx, y: Fx, cell: Fx, k: nat)
    requires cell > 0 && x <= y <= x + cell * k
    ensures CellIndex(x, cell) <= CellIndex(y, cell) <= CellIndex(x, cell) + k
  {
    hide TruncDiv;
    var u, v := TruncDiv(x * ONE, cell), TruncDiv(y * ONE, cell);
    TruncOrder(x * ONE, y * ONE, cell);
    TruncShift(x * ONE, cell, k * ONE);
    assert (x + cell * k) * ONE == x * ONE + cell * (k * ONE);
    TruncOrder(y * ONE, x * ONE + cell * (k * ONE), cell);
    SatSpread(u, v, k * ONE);
    FloorSpread(Sat(u), Sat(v), k);
  }

  // ----- hits -----

  lemma MulIsSquare(d: Fx)
    ensures Mul(d, d) == Sat(Sq(d))
  {
  }

  /** A hit is within the furthest passing offset on each axis. */
  lemma HitOffsets(p: Vec2, centre: Vec2, radius: Fx)
    requires Fits(radius) && Hit(p, centre, radius)
    ensures var f := Furthest(radius);
            -(f as int) <= p.x - centre.x <= f && -(f as int) <= p.y - centre.y <= f
  {
    hide Furthest, Sq, Mul, Sub;
    MulIsSquare(Sub(p.x, centre.x));
    MulIsSquare(Sub(p.y, centre.y));
    MulIsSquare(radius);
    OffsetBound(p.x, centre.x, radius);
    OffsetBound(p.y, centre.y, radius);
  }

  lemma OffsetBound(a: Fx, b: Fx, radius: Fx)
    requires Fits(radius) && Sat(Sq(Sub(a, b))) <= Sq(radius)
    ensures -(Furthest(radius) as int) <= a - b <= Furthest(radius)
  {
    hide Furthest, Sq;
    var d := Sub(a, b);
    var size: nat := if d < 0 then -(d as int) else d;
    SquareEven(d);
    FurthestIs(radius, size);
    SaturatedSquare(d);
  }

  lemma SquareEven(d: int)
    ensures Sq(d) == Sq(-d)
  {
    assert d * d == (-d) * (-d);
  }

  lemma SaturatedSquare(d: Fx)
    ensures d == MAX || d == MIN ==> Sq(d) >= MAX
  {
  }

  /** The cells a query visits reach the furthest passing offset. */
  predicate Covered(radius: nat, cell: Fx)
    requires cell > 0 && radius <= MAX
  {
    Furthest(radius) <= cell * Reach(radius, cell)
  }

  lemma ReachCovers(radius: Fx, cell: Fx)
    requires radius >= 0 && cell > 0 && radius / cell < 0x7FFF_FFFF
    ensures Reach(radius, cell) == radius / cell + 1 >= 1 && radius < cell * Reach(radius, cell)
  {
    var k := radius / cell;
    assert radius == cell * k + radius % cell;
    assert k >= 0 by { QuotientNonNegative(radius, cell); }
    var q := radius * ONE / cell;
    assert k * ONE <= q < (k + 1) * ONE by {
      assert radius * ONE == cell * q + (radius * ONE) % cell;
      assert cell * (k * ONE) <= radius * ONE < cell * ((k + 1) * ONE);
      if q < k * ONE {
        MulLess(cell, q + 1, k * ONE);
      } else if q >= (k + 1) * ONE {
        MulLess(cell, (k + 1) * ONE, q);
      }
    }
    assert Div(radius, cell) == q;
    assert q / ONE == k;
    assert cell * (k + 1) == cell * k + cell;
  }

  lemma HitIsNear(p: Vec2, centre: Vec2, radius: Fx, cell: Fx)
    requires cell > 0 && Fits(radius) && radius / cell < 0x7FFF_FFFF && Covered(radius, cell)
    requires Hit(p, centre, radius)
    ensures Near(CellOf(p, cell), CellOf(centre, cell), Reach(radius, cell))
  {
    hide Furthest, CellIndex, Hit;
    ReachCovers(radius, cell);
    HitOffsets(p, centre, radius);
    AxisNear(p.x, centre.x, cell, Reach(radius, cell));
    AxisNear(p.y, centre.y, cell, Reach(radius, cell));
  }

  lemma AxisNear(a: Fx, b: Fx, cell: Fx, reach: nat)
    requires cell > 0 && -(cell * reach) <= a - b <= cell * reach
    ensures -(reach as int) <= CellIndex(a, cell) - CellIndex(b, cell) <= reach
  {
    if a <= b {
      CellSpread(a, b, cell, reach);
    } else {
      CellSpread(b, a, cell, reach);
    }
  }

  /** From a radius of one half on, every query's cells hold every hit. */
  lemma HalfIsCovered(radius: Fx, cell: Fx)
    requires cell > 0 && radius >= ONE / 2 && radius / cell < 0x7FFF_FFFF
    ensures Covered(radius, cell)
  {
    HalfIsExact(radius);
    ReachCovers(radius, cell);
  }

  lemma SmallFurthest(radius: nat)
    requires radius < ONE / 2
    ensures radius <= Furthest(radius) < ONE
  {
    hide Sq, Furthest;
    FurthestIs(radius, radius);
    FurthestIs(radius, ONE);
    SmallSquare(radius);
    UnitSquare();
  }

  lemma UnitSquare()
    ensures Sq(ONE) == ONE
  {
  }

  /** Below, an entity at the furthest passing offset across a cell edge is missed unless the
      cells searched reach that far. */
  lemma UncoveredMisses(radius: Fx, cell: Fx) returns (p: Vec2, centre: Vec2)
    requires cell > 0 && radius >= 0 && radius / cell < 0x7FFF_FFFF && !Covered(radius, cell)
    ensures Hit(p, centre, radius)
    ensures !Near(CellOf(p, cell), CellOf(centre, cell), Reach(radius, cell))
  {
    var f, k := Furthest(radius), Reach(radius, cell);
    ReachCovers(radius, cell);
    if radius >= ONE / 2 {
      HalfIsCovered(radius, cell);
    }
    SmallFurthest(radius);
    MulAtLeast(cell, k);
    assert cell < f < ONE;
    WideMeansSmall(radius);
    QuotientBound(radius, cell);
    centre, p := Vec2(cell - 1, 0), Vec2(cell - 1 + f, 0);
    FurthestIs(radius, f);
    HitAt(p, centre, f, radius);
    EdgeCells(cell, f, k);
  }

  /** The test overshoots a radius by two raw units only well below one quarter. */
  lemma WideMeansSmall(radius: nat)
    requires Furthest(radius) >= radius + 2
    ensures radius < ONE / 4
  {
    assert (radius + 2) * (radius + 2) == radius * radius + (4 * radius + 4);
    if radius >= ONE / 4 {
      StepUp(radius * radius, 4 * radius + 4);
    }
    FurthestIs(radius, radius + 2);
  }

  lemma QuotientBound(radius: nat, cell: Fx)
    requires cell > 0
    ensures 0 <= radius / cell <= radius
  {
    var q := radius / cell;
    QuotientNonNegative(radius, cell);
    assert radius == cell * q + radius % cell;
    MulLess(q, 1, cell);
  }

  lemma HitAt(p: Vec2, centre: Vec2, f: nat, radius: Fx)
    requires 0 <= radius < ONE && f < ONE && p.y == centre.y == 0 && p.x - centre.x == f
    requires Sq(f) <= Sq(radius)
    ensures Hit(p, centre, radius)
  {
    hide Sq, Mul, Sub, Add;
    MulIsSquare(f);
    MulIsSquare(radius);
    MulIsSquare(0);
    SquareOfZero();
    SmallSquare(radius);
    SmallDifference(p.x, centre.x, f);
    SmallDifference(p.y, centre.y, 0);
    AddZero(Sq(f));
  }

  lemma SmallDifference(a: Fx, b: Fx, f: nat)
    requires a - b == f && f < ONE
    ensures Sub(a, b) == f
  {
  }

  lemma AddZero(x: nat)
    requires x < ONE
    ensures Add(Sat(x), Sat(0)) == x && Sat(x) == x
  {
  }

  lemma SquareOfZero()
    ensures Sq(0) == 0
  {
  }

  lemma SmallSquare(d: nat)
    requires d < ONE
    ensures Sq(d) < ONE
  {
    SquareMono(d, ONE - 1);
    QuotientBelow(d * d, ONE - 1);
  }

  lemma EdgeCells(cell: Fx, f: nat, k: nat)
    requires 0 < cell < ONE && cell * k < f < ONE && k < 0x7FFF_FFFF
    ensures CellIndex(cell - 1, cell) == 0
    ensures CellIndex(cell - 1 + f, cell) > k
  {
    hide CellIndex;
    SmallCell(cell - 1, cell);
    var x := cell - 1 + f;
    SmallCell(x, cell);
    assert x >= cell * (k + 1) by { assert cell * (k + 1) == cell * k + cell; }
    QuotientAtLeast(x, cell, k + 1);
    QuotientAtMost(cell - 1, cell);
  }

  /** Small coordinates: the cell is the plain floored quotient. */
  lemma SmallCell(x: nat, cell: Fx)
    requires 0 < cell < ONE && x < 2 * ONE
    ensures CellIndex(x, cell) == if x * ONE / cell < MAX then (x * ONE / cell) / ONE else FloorInt(MAX)
  {
    QuotientNonNegative(x * ONE, cell);
  }

  lemma QuotientAtLeast(x: nat, cell: int, k: nat)
    requires cell > 0 && x >= cell * k
    ensures (x * ONE / cell) / ONE >= k
  {
    var v := x * ONE / cell;
    assert x * ONE == cell * v + (x * ONE) % cell;
    assert cell * (v + 1) == cell * v + cell;
    assert cell * (k * ONE) == cell * k * ONE;
    if v < k * ONE {
      MulLess(cell, v + 1, k * ONE);
    }
  }

  lemma QuotientAtMost(x: nat, cell: int)
    requires x < cell
    ensures 0 <= x * ONE / cell < ONE
  {
    var v := x * ONE / cell;
    QuotientNonNegative(x * ONE, cell);
    assert x * ONE == cell * v + (x * ONE) % cell;
    if v >= ONE {
      MulLess(cell, ONE, v);
    }
  }

  /** For a given radius and cell width, searching the cells finds every hit around every
      centre exactly when the cells searched reach the furthest passing offset. */
  lemma CellsSufficeExactly(radius: Fx, cell: Fx)
    requires cell > 0 && Fits(radius) && radius / cell < 0x7FFF_FFFF
    ensures (forall p, centre :: Hit(p, centre, radius) ==>
               Near(CellOf(p, cell), CellOf(centre, cell), Reach(radius, cell)))
            <==> Covered(radius, cell)
  {
    hide Hit, Near, Furthest, CellIndex, Covered;
    if Covered(radius, cell) {
      forall p, centre | Hit(p, centre, radius)
        ensures Near(CellOf(p, cell), CellOf(centre, cell), Reach(radius, cell))
      {
        HitIsNear(p, centre, radius, cell);
      }
    } else {
      var p, centre := UncoveredMisses(radius, cell);
    }
  }
}
