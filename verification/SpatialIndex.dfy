/** The spatial grid as the object it is: buckets of entities by cell, kept in step with the
    recorded positions, and a query that agrees with a scan of them. */
module SpatialIndex {
  import opened Common
  import opened Fixed
  import opened Grids
  import Worlds

  type Entity = Worlds.Entity

  /** The order of handles: index, then generation. */
  predicate Less(a: Entity, b: Entity) {
    a.index < b.index || (a.index == b.index && a.generation < b.generation)
  }

  ghost predicate Strict(s: seq<Entity>) {
    forall i, j :: 0 <= i < j < |s| ==> Less(s[i], s[j])
  }

  ghost predicate NoRepeats<T>(s: seq<T>) {
    forall i, j :: 0 <= i < j < |s| ==> s[i] != s[j]
  }

  function InsertOrdered(e: Entity, s: seq<Entity>): seq<Entity> {
    if s == [] then [e]
    else if Less(s[|s| - 1], e) then s + [e]
    else InsertOrdered(e, s[..|s| - 1]) + [s[|s| - 1]]
  }

  /** Sorting by handle. */
  function Ordered(s: seq<Entity>): seq<Entity> {
    if s == [] then [] else InsertOrdered(s[|s| - 1], Ordered(s[..|s| - 1]))
  }

  lemma {:induction false} InsertMembers(e: Entity, s: seq<Entity>)
    ensures forall x :: x in InsertOrdered(e, s) <==> x in s || x == e
  {
    if s != [] && !Less(s[|s| - 1], e) {
      InsertMembers(e, s[..|s| - 1]);
      assert s == s[..|s| - 1] + [s[|s| - 1]];
    }
  }

  lemma {:induction false} InsertStrict(e: Entity, s: seq<Entity>)
    requires Strict(s) && e !in s
    ensures Strict(InsertOrdered(e, s))
  {
    if s != [] {
      var init, last := s[..|s| - 1], s[|s| - 1];
      if Less(last, e) {
        assert forall i :: 0 <= i < |s| ==> s[i] == last || Less(s[i], last);
      } else {
        InsertStrict(e, init);
        InsertMembers(e, init);
        var r := InsertOrdered(e, init);
        forall i | 0 <= i < |r|
          ensures Less(r[i], last)
        {
          assert r[i] in r;
          assert e != last;
        }
      }
    }
  }

  /** Sorting distinct handles gives them strictly ascending, and the same ones. */
  lemma {:induction false} OrderedIsStrict(s: seq<Entity>)
    requires NoRepeats(s)
    ensures Strict(Ordered(s))
    ensures forall x :: x in Ordered(s) <==> x in s
  {
    if s != [] {
      var init, last := s[..|s| - 1], s[|s| - 1];
      OrderedIsStrict(init);
      assert s == init + [last];
      InsertMembers(last, Ordered(init));
      InsertStrict(last, Ordered(init));
    }
  }

  lemma SomeMember(s: seq<Entity>)
    ensures s != [] ==> exists x :: x in s
  {
    if s != [] {
      assert s[0] in s;
    }
  }

  /** There is only one strictly ascending list of a set of handles. */
  lemma {:induction false} StrictUnique(a: seq<Entity>, b: seq<Entity>)
    requires Strict(a) && Strict(b) && forall x :: x in a <==> x in b
    ensures a == b
  {
    if a == [] {
      SomeMember(b);
    } else {
      assert a[|a| - 1] in a;
      var la, lb := a[|a| - 1], b[|b| - 1];
      assert lb in b;
      assert la == lb by {
        var i :| 0 <= i < |b| && b[i] == la;
        var j :| 0 <= j < |a| && a[j] == lb;
      }
      var ia, ib := a[..|a| - 1], b[..|b| - 1];
      assert a == ia + [la] && b == ib + [la];
      SameButLast(ia, ib, la);
      SameButLast(ib, ia, la);
      StrictUnique(ia, ib);
    }
  }

  lemma SameButLast(a: seq<Entity>, b: seq<Entity>, last: Entity)
    requires Strict(a + [last]) && forall x :: x in a + [last] ==> x in b + [last]
    ensures forall x :: x in a ==> x in b
  {
    var all := a + [last];
    forall x | x in a
      ensures x in b
    {
      var i :| 0 <= i < |a| && a[i] == x;
      assert all[i] == x && all[|a|] == last;
      assert x in all;
    }
  }

  // ----- buckets -----

  function Drop(bucket: seq<Entity>, e: Entity): seq<Entity> {
    if bucket == [] then []
    else if bucket[|bucket| - 1] == e then Drop(bucket[..|bucket| - 1], e)
    else Drop(bucket[..|bucket| - 1], e) + [bucket[|bucket| - 1]]
  }

  lemma {:induction false} DropKeeps(bucket: seq<Entity>, e: Entity)
    requires NoRepeats(bucket)
    ensures NoRepeats(Drop(bucket, e))
    ensures forall x :: x in Drop(bucket, e) <==> x in bucket && x != e
  {
    if bucket != [] {
      var init, last := bucket[..|bucket| - 1], bucket[|bucket| - 1];
      assert bucket == init + [last];
      DropKeeps(init, e);
      assert last !in init;
    }
  }

  type Cells = map<Cell, seq<Entity>>
  type Positions = map<Entity, Vec2>

  /** Every tracked entity is in the bucket of its position's cell, once, and nowhere else;
      no bucket is empty. */
  ghost predicate Filed(cells: Cells, positions: Positions, cell: Fx)
    requires cell > 0
  {
    && (forall c :: c in cells ==> cells[c] != [] && NoRepeats(cells[c]))
    && (forall e :: e in positions ==>
          CellOf(positions[e], cell) in cells && e in cells[CellOf(positions[e], cell)])
    && (forall c, e :: c in cells && e in cells[c] ==> e in positions && CellOf(positions[e], cell) == c)
  }

  /** Takes an entity out of a bucket, and the bucket away when that empties it. */
  function Unfile(cells: Cells, c: Cell, e: Entity): Cells {
    if c !in cells then cells
    else
      var kept := Drop(cells[c], e);
      if kept == [] then cells - {c} else cells[c := kept]
  }

  function File(cells: Cells, c: Cell, e: Entity): Cells {
    cells[c := (if c in cells then cells[c] else []) + [e]]
  }

  lemma UnfileKeeps(cells: Cells, positions: Positions, cell: Fx, e: Entity)
    requires cell > 0 && Filed(cells, positions, cell) && e in positions
    ensures Filed(Unfile(cells, CellOf(positions[e], cell), e), positions - {e}, cell)
  {
    hide CellOf;
    var c := CellOf(positions[e], cell);
    DropKeeps(cells[c], e);
  }

  lemma FileKeeps(cells: Cells, positions: Positions, cell: Fx, e: Entity, p: Vec2)
    requires cell > 0 && Filed(cells, positions, cell) && e !in positions
    ensures Filed(File(cells, CellOf(p, cell), e), positions[e := p], cell)
  {
    hide CellOf;
    var c := CellOf(p, cell);
    var after, placed := File(cells, c, e), positions[e := p];
    assert after[c] == (if c in cells then cells[c] else []) + [e];
    forall d, x | d in after && x in after[d]
      ensures x in placed && CellOf(placed[x], cell) == d
    {
      if d == c && x == e {
      } else {
        assert d in cells && x in cells[d];
      }
    }
    forall x | x in placed
      ensures CellOf(placed[x], cell) in after && x in after[CellOf(placed[x], cell)]
    {
      if x == e {
        assert e in after[c];
      }
    }
  }

  class SpatialGrid {
    var cells: Cells
    var positions: Positions
    const cellSize: Fx

    ghost predicate Valid()
      reads this
    {
      cellSize > 0 && Filed(cells, positions, cellSize)
    }

    constructor (cellSize: Fx)
      requires cellSize > 0
      ensures Valid() && positions == map[] && this.cellSize == cellSize
    {
      cells, positions := map[], map[];
      this.cellSize := cellSize;
    }

    /** Inserts or moves an entity. */
    method Insert(entity: Entity, position: Vec2)
      requires Valid()
      modifies this
      ensures Valid() && positions == old(positions)[entity := position]
    {
      hide CellOf;
      if entity in positions {
        var oldCell := CellOf(positions[entity], cellSize);
        var newCell := CellOf(position, cellSize);
        if oldCell == newCell {
          positions := positions[entity := position];
          return;
        }
        UnfileKeeps(cells, positions, cellSize, entity);
        FileKeeps(Unfile(cells, oldCell, entity), positions - {entity}, cellSize, entity, position);
        assert (positions - {entity})[entity := position] == positions[entity := position];
        if oldCell in cells {
          var kept := Drop(cells[oldCell], entity);
          if kept == [] {
            cells := cells - {oldCell};
          } else {
            cells := cells[oldCell := kept];
          }
        }
      } else {
        FileKeeps(cells, positions, cellSize, entity, position);
      }
      var c := CellOf(position, cellSize);
      cells := cells[c := (if c in cells then cells[c] else []) + [entity]];
      positions := positions[entity := position];
    }

    method Remove(entity: Entity)
      requires Valid()
      modifies this
      ensures Valid() && positions == old(positions) - {entity}
    {
      hide CellOf;
      if entity in positions {
        UnfileKeeps(cells, positions, cellSize, entity);
        var c := CellOf(positions[entity], cellSize);
        positions := positions - {entity};
        if c in cells {
          var kept := Drop(cells[c], entity);
          if kept == [] {
            cells := cells - {c};
          } else {
            cells := cells[c := kept];
          }
        }
      } else {
        assert positions - {entity} == positions;
      }
    }

    /** The number of occupied cells: one for each cell some tracked entity is in. */
    method CellCount() returns (n: nat)
      requires Valid()
      ensures n == |set e | e in positions :: CellOf(positions[e], cellSize)|
    {
      hide CellOf;
      assert cells.Keys == set e | e in positions :: CellOf(positions[e], cellSize) by {
        forall c | c in cells
          ensures exists e :: e in positions && CellOf(positions[e], cellSize) == c
        {
          var e := cells[c][0];
          assert e in cells[c];
          assert e in positions && CellOf(positions[e], cellSize) == c;
        }
      }
      n := |cells.Keys|;
    }

    /** The tracked entities that pass the distance test and whose cell is searched, strictly
        ascending. */
    method Query(centre: Vec2, radius: Fx) returns (out: seq<Entity>)
      requires Valid() && Addressable(centre, radius, cellSize)
      ensures Strict(out)
      ensures forall e :: e in out <==>
                && e in positions && Hit(positions[e], centre, radius)
                && Near(CellOf(positions[e], cellSize), CellOf(centre, cellSize), Reach(radius, cellSize))
      ensures Fits(radius) ==> forall e :: e in out ==> Within(positions[e], centre, radius)
    {
      hide CellOf, Hit, Reach, Strict, Addressable, Within, InCircle, NearCircle;
      var (cx, cy) := CellOf(centre, cellSize);
      var reach := Reach(radius, cellSize);
      var found: seq<Entity> := [];
      var dx := -reach;
      while dx <= reach
        invariant dx <= reach + 1 || dx == -reach
        invariant NoRepeats(found)
        invariant forall e :: e in found <==> Visited(e, centre, radius, cx - reach, cx + dx - 1, cy - reach, cy + reach)
        decreases reach - dx
      {
        var dy := -reach;
        while dy <= reach
          invariant dy <= reach + 1
          invariant NoRepeats(found)
          invariant forall e :: e in found <==>
                      || Visited(e, centre, radius, cx - reach, cx + dx - 1, cy - reach, cy + reach)
                      || Visited(e, centre, radius, cx + dx, cx + dx, cy - reach, cy + dy - 1)
          decreases reach - dy
        {
          var c := (cx + dx, cy + dy);
          if c in cells {
            found := Sift(c, centre, radius, found);
          }
          dy := dy + 1;
        }
        dx := dx + 1;
      }
      OrderedIsStrict(found);
      out := Ordered(found);
      if Fits(radius) {
        forall e | e in out {
          HitIsCircle(positions[e], centre, radius);
        }
      }
    }

    /** A hit whose cell lies in a rectangle of cells. */
    ghost predicate Visited(e: Entity, centre: Vec2, radius: Fx, x0: int, x1: int, y0: int, y1: int)
      requires cellSize > 0
      reads this
    {
      && e in positions && Hit(positions[e], centre, radius)
      && var c := CellOf(positions[e], cellSize);
      x0 <= c.0 <= x1 && y0 <= c.1 <= y1
    }

    /** Appends the hits of one bucket. */
    method Sift(c: Cell, centre: Vec2, radius: Fx, before: seq<Entity>) returns (found: seq<Entity>)
      requires Valid() && c in cells && NoRepeats(before)
      requires forall e :: e in before ==> e !in cells[c]
      ensures NoRepeats(found)
      ensures forall e :: e in found <==> e in before || (e in cells[c] && Hit(positions[e], centre, radius))
    {
      hide CellOf, Hit;
      var bucket := cells[c];
      found := before;
      var i := 0;
      while i < |bucket|
        invariant 0 <= i <= |bucket|
        invariant NoRepeats(found)
        invariant forall e :: e in found <==>
                    e in before || (e in bucket[..i] && Hit(positions[e], centre, radius))
      {
        var e := bucket[i];
        assert e in bucket;
        assert bucket[..i + 1] == bucket[..i] + [e];
        assert e !in bucket[..i];
        if e in positions {
          if Hit(positions[e], centre, radius) {
            found := found + [e];
          }
        }
        i := i + 1;
      }
      assert bucket[..|bucket|] == bucket;
    }

    /** For a radius of one half or more, whose square does not saturate, the query is exactly
        the scan of every tracked entity. */
    method QueryAsScan(centre: Vec2, radius: Fx) returns (out: seq<Entity>)
      requires Valid() && Addressable(centre, radius, cellSize)
      requires radius >= ONE / 2 && Fits(radius) && radius / cellSize < 0x7FFF_FFFF
      ensures Strict(out)
      ensures forall e :: e in out <==> e in positions && Within(positions[e], centre, radius)
      ensures forall e | e in positions :: InCircle(positions[e], centre, radius) ==> e in out
      ensures forall e | e in out :: e in positions && NearCircle(positions[e], centre, radius)
    {
      hide CellOf, Hit, Reach, Strict, Near, Addressable, Within, InCircle, NearCircle;
      out := Query(centre, radius);
      HalfIsCovered(radius, cellSize);
      forall e | e in positions {
        HitIsCircle(positions[e], centre, radius);
      }
      forall e | e in positions && Hit(positions[e], centre, radius)
        ensures e in out
      {
        HitIsNear(positions[e], centre, radius, cellSize);
      }
    }
  }

  // ----- agreement with a scan, for any radius -----

  /** What a query returns: the hits in the cells it visits. */
  ghost predicate Answers(out: seq<Entity>, positions: Positions, centre: Vec2, radius: Fx, cell: Fx)
    requires cell > 0
  {
    && Strict(out)
    && forall e :: e in out <==>
         && e in positions && Hit(positions[e], centre, radius)
         && Near(CellOf(positions[e], cell), CellOf(centre, cell), Reach(radius, cell))
  }

  ghost predicate IsScan(out: seq<Entity>, positions: Positions, centre: Vec2, radius: Fx) {
    Strict(out) && forall e :: e in out <==> e in positions && Within(positions[e], centre, radius)
  }

  /** For a radius whose square does not saturate, every query of every set of entities is the
      scan exactly when the cells searched reach the furthest offset the distance test lets
      through. */
  lemma QueriesAgreeExactly(radius: Fx, cell: Fx)
    requires cell > 0 && Fits(radius) && radius / cell < 0x7FFF_FFFF
    ensures (forall out, positions, centre :: Answers(out, positions, centre, radius, cell) ==>
               IsScan(out, positions, centre, radius))
            <==> Covered(radius, cell)
  {
    hide Hit, Near, Covered, CellOf, Reach, Strict, Within;
    if Covered(radius, cell) {
      forall out, positions: Positions, centre | Answers(out, positions, centre, radius, cell)
        ensures IsScan(out, positions, centre, radius)
      {
        forall e | e in positions {
          HitIsCircle(positions[e], centre, radius);
        }
        forall e | e in positions && Hit(positions[e], centre, radius)
          ensures e in out
        {
          HitIsNear(positions[e], centre, radius, cell);
        }
      }
    } else {
      var p, centre := UncoveredMisses(radius, cell);
      var lone := Worlds.Entity(0, 0);
      var positions: Positions := map[lone := p];
      assert Strict([]) by { EmptyStrict(); }
      HitIsCircle(p, centre, radius);
      assert Answers([], positions, centre, radius, cell);
      assert lone !in [] && !IsScan([], positions, centre, radius);
    }
  }

  lemma EmptyStrict()
    ensures Strict([])
  {
  }
}
