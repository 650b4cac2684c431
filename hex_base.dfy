/**
 * hex_base.py: hexagons as objects. A Hexagon knows its cube cell, its
 * colour, its side length and its angle; HexXYA is the plane form of a
 * hexagon (centre, colour, angle, side) and HexGrid a list of them that is
 * translated and scaled in place.
 *
 * get_hex_ring here differs from the one in hex_rings.py: it seeds the list
 * with the start cell and appends the cell reached after every step, so a
 * ring of degree d has 6 d + 1 entries and the last repeats the first.
 */
module HexBase {

  import opened Wrappers
  import opened HexRings
  import HexUtils

  /** The cells of `get_hex_ring(degree)` in hex_base.py: the walk of hex_rings.py plus the closing cell. */
  function BaseRing(degree: int): seq<Cube>
  {
    (if degree > 0 then RingCubes(degree) else []) + [Cube(0, -degree, degree)]
  }

  /** Rings 0 .. n - 1 of hex_base.py concatenated. */
  function BaseRingsUpTo(n: int): seq<Cube>
    decreases n
  {
    if n <= 0 then [] else BaseRingsUpTo(n - 1) + BaseRing(n - 1)
  }

  lemma BaseRingLength(d: int)
    requires d >= 0
    ensures |BaseRing(d)| == 6 * d + 1
  {
    if d > 0 {
      RingLength(d);
    }
  }

  /**
   * A ring of degree d >= 0 in hex_base.py has 6 d + 1 cells; it starts at
   * (0, -d, d), ends where it started, agrees with the ring of hex_rings.py
   * on its first 6 d cells, and every cell is at cube distance d.
   */
  lemma BaseRingShape(d: int)
    requires d >= 0
    ensures |BaseRing(d)| == 6 * d + 1
    ensures BaseRing(d)[0] == Cube(0, -d, d) && BaseRing(d)[6 * d] == BaseRing(d)[0]
    ensures d > 0 ==> forall i :: 0 <= i < 6 * d ==> BaseRing(d)[i] == CubeOfTuple(Ring(d)[i])
    ensures forall i :: 0 <= i < |BaseRing(d)| ==> OnPlane(BaseRing(d)[i]) && Norm(BaseRing(d)[i]) == d
  {
    if d > 0 {
      RingLength(d);
      RingOnRing(d);
      assert forall i :: 0 <= i < 6 * d ==> BaseRing(d)[i] == CubeOfTuple(Ring(d)[i]);
    }
  }

  /** Consecutive cells of a hex_base.py ring touch, including the closing step back to the start. */
  lemma BaseRingAdjacent(d: int)
    requires d > 0
    ensures forall i :: 0 <= i < |BaseRing(d)| - 1 ==> IsNeighbour(BaseRing(d)[i], BaseRing(d)[i + 1])
  {
    RingLength(d);
    RingAdjacent(d);
    BaseRingShape(d);
    forall i | 0 <= i < |BaseRing(d)| - 1
      ensures IsNeighbour(BaseRing(d)[i], BaseRing(d)[i + 1])
    {
      if i < 6 * d - 1 {
        assert BaseRing(d)[i] == CubeOfTuple(Ring(d)[i]);
        assert BaseRing(d)[i + 1] == CubeOfTuple(Ring(d)[i + 1]);
      } else {
        assert BaseRing(d)[i] == CubeOfTuple(Ring(d)[6 * d - 1]);
        assert BaseRing(d)[i + 1] == CubeOfTuple(Ring(d)[0]);
      }
    }
  }

  /** `from_degree(n)` holds n (3 n - 2) cells: the 1 + 3 n (n - 1) of the disc plus one closing repeat per ring. */
  lemma {:induction false} BaseRingsUpToLength(n: int)
    ensures n <= 0 ==> |BaseRingsUpTo(n)| == 0
    ensures n >= 1 ==> |BaseRingsUpTo(n)| == n * (3 * n - 2)
  {
    if n >= 1 {
      BaseRingsUpToLength(n - 1);
      BaseRingLength(n - 1);
      assert |BaseRingsUpTo(n)| == |BaseRingsUpTo(n - 1)| + |BaseRing(n - 1)|;
      LengthGrowth(n);
    }
  }

  lemma LengthGrowth(n: int)
    ensures (n - 1) * (3 * (n - 1) - 2) + 6 * (n - 1) + 1 == n * (3 * n - 2)
  {
    assert (n - 1) * (3 * (n - 1) - 2) == 3 * n * n - 8 * n + 5;
    assert n * (3 * n - 2) == 3 * n * n - 2 * n;
  }

  /** A hexagon of the lattice. The cube cell and colour never change; `scale` changes the side. */
  class Hexagon {
    const q: int
    const r: int
    const s: int
    /** `get_color(q, r, s)`, fixed when the hexagon is made. */
    const color: int := Color(q, r, s)
    const angle: real
    var side: real

    /** The object invariant: the cell is on the plane. */
    ghost predicate Valid()
    {
      OnPlane(Cell())
    }

    function Cell(): Cube { Cube(q, r, s) }

    /** `Hexagon(q, r, s, side, angle)`; its assert is the precondition q + r + s == 0. */
    constructor(q: int, r: int, s: int, side: real, angle: real)
      requires q + r + s == 0
      ensures Valid()
      ensures this.q == q && this.r == r && this.s == s
      ensures this.color == Color(q, r, s) && this.side == side && this.angle == angle
    {
      this.q, this.r, this.s := q, r, s;
      this.side := side;
      this.angle := angle;
    }

    /** The `center` property: cube_to_xy of the cell at this side length. */
    function Center(): (c: (real, real))
      reads this
      ensures c.0 == side * HexUtils.Sqrt3 * (q as real + r as real / 2.0)
      ensures c.1 == side * 1.5 * r as real
    {
      HexUtils.CubeToXY(q, r, side)
    }

    /** `scale(factor)` */
    method Scale(factor: real)
      modifies this
      ensures side == old(side) * factor
    {
      side := side * factor;
    }

    /**
     * `self + direction`: a new hexagon one move away with the same side and
     * angle. A move along one of the six directions never joins two dark hexagons.
     */
    method Add(direction: Cube) returns (h: Hexagon)
      requires Valid()
      requires direction.q + direction.r + direction.s == 0
      ensures h.Valid()
      ensures h.Cell() == Plus(Cell(), direction)
      ensures h.side == side && h.angle == angle
      ensures direction in Directions ==> !(color == 1 && h.color == 1)
    {
      h := new Hexagon(q + direction.q, r + direction.r, s + direction.s, side, angle);
      assert h.Cell() == Plus(Cell(), direction);
      if direction in Directions {
        assert Minus(h.Cell(), Cell()) == direction;
        NoAdjacentDark(Cell(), h.Cell());
      }
    }
  }

  function Cells(hexes: seq<Hexagon>): (cs: seq<Cube>)
    ensures |cs| == |hexes|
  {
    seq(|hexes|, i requires 0 <= i < |hexes| => hexes[i].Cell())
  }

  /** Every hexagon is valid and has the default side 1 and angle 0. */
  ghost predicate AllDefault(hexes: seq<Hexagon>)
    reads set h | h in hexes
  {
    forall i :: 0 <= i < |hexes| ==> hexes[i].Valid() && hexes[i].side == 1.0 && hexes[i].angle == 0.0
  }

  lemma CellsAppend(a: seq<Hexagon>, b: seq<Hexagon>)
    ensures Cells(a + b) == Cells(a) + Cells(b)
  {
  }

  lemma AllDefaultAppend(a: seq<Hexagon>, b: seq<Hexagon>)
    requires AllDefault(a) && AllDefault(b)
    ensures AllDefault(a + b)
  {
    forall i | 0 <= i < |a + b|
      ensures (a + b)[i].Valid() && (a + b)[i].side == 1.0 && (a + b)[i].angle == 0.0
    {
      if i < |a| {
        assert (a + b)[i] == a[i];
      } else {
        assert (a + b)[i] == b[i - |a|];
      }
    }
  }

  /** `hexes.append(hexes[-1] + direction)`: the earlier hexagons stay, the new one is one move on. */
  method AppendMove(hexes: seq<Hexagon>, direction: Cube) returns (r: seq<Hexagon>)
    requires |hexes| >= 1 && AllDefault(hexes)
    requires direction.q + direction.r + direction.s == 0
    ensures |r| == |hexes| + 1 && r[..|hexes|] == hexes
    ensures r[|hexes|].Cell() == Plus(hexes[|hexes| - 1].Cell(), direction)
    ensures AllDefault(r)
  {
    var next := hexes[|hexes| - 1].Add(direction);
    r := hexes + [next];
    assert r[..|hexes|] == hexes;
  }

  /**
   * One side of `get_hex_ring`: from a last hexagon at corner k of the ring,
   * append degree hexagons, each the previous one plus direction k.
   * `walked` holds the cells of every hexagon of the list but the last.
   */
  method WalkSide(degree: int, k: int, hexes0: seq<Hexagon>, ghost walked0: seq<Cube>)
      returns (hexes: seq<Hexagon>, ghost walked: seq<Cube>)
    requires 0 < degree && 0 <= k < 6
    requires |hexes0| == |walked0| + 1
    requires forall i :: 0 <= i < |walked0| ==> hexes0[i].Cell() == walked0[i]
    requires hexes0[|hexes0| - 1].Cell() == RingPoint(degree, k, 0)
    requires AllDefault(hexes0)
    ensures walked == walked0 + Side(degree, k)
    ensures |hexes| == |walked| + 1
    ensures forall i :: 0 <= i < |walked| ==> hexes[i].Cell() == walked[i]
    ensures hexes[|hexes| - 1].Cell() == RingPoint(degree, k, degree)
    ensures AllDefault(hexes)
  {
    hexes := hexes0;
    var n := |hexes0| - 1;
    var direction := Directions[k];
    var step := 0;
    while step < degree
      invariant 0 <= step <= degree
      invariant |hexes| == n + 1 + step
      invariant hexes[..n + 1] == hexes0
      invariant forall j :: 0 <= j <= step ==> hexes[n + j].Cell() == RingPoint(degree, k, j)
      invariant AllDefault(hexes)
    {
      StepAlongSide(degree, k, step);
      hexes := AppendMove(hexes, direction);
      step := step + 1;
    }
    walked := walked0 + Side(degree, k);
    forall i | 0 <= i < |walked|
      ensures hexes[i].Cell() == walked[i]
    {
      if i < n {
        assert hexes[i] == hexes[..n + 1][i];
      }
    }
  }

  /**
   * `get_hex_ring(degree)` of hex_base.py: start with Hexagon(0, -degree, degree)
   * and append the last hexagon plus the direction, degree times per direction.
   */
  method GetHexagonRing(degree: int) returns (hexes: seq<Hexagon>)
    ensures Cells(hexes) == BaseRing(degree)
    ensures AllDefault(hexes)
  {
    var start := new Hexagon(0, -degree, degree, 1.0, 0.0);
    hexes := [start];
    if degree <= 0 {
      // Every range(degree) below is empty.
      return;
    }
    ghost var walked: seq<Cube> := [];
    var k := 0;
    while k < 6
      invariant 0 <= k <= 6
      invariant walked == Sides(degree, k)
      invariant |hexes| == |walked| + 1
      invariant forall i :: 0 <= i < |walked| ==> hexes[i].Cell() == walked[i]
      invariant hexes[|hexes| - 1].Cell() == if k < 6 then RingPoint(degree, k, 0) else RingPoint(degree, 0, 0)
      invariant AllDefault(hexes)
    {
      hexes, walked := WalkSide(degree, k, hexes, walked);
      StepAlongSide(degree, k, degree);
      k := k + 1;
    }
    SidesStart(degree, 6);
    assert forall i :: 0 <= i < |hexes| ==> hexes[i].Cell() == BaseRing(degree)[i];
  }

  /** `HexagonGrid`: a plain list of hexagons. */
  class HexagonGrid {
    var hexes: seq<Hexagon>

    constructor(hexes: seq<Hexagon>)
      ensures this.hexes == hexes
    {
      this.hexes := hexes;
    }

    /** `from_degree(max_degree)`: the hex_base.py rings 0 .. max_degree - 1, in order. */
    static method FromDegree(maxDegree: int) returns (g: HexagonGrid)
      ensures Cells(g.hexes) == BaseRingsUpTo(maxDegree)
      ensures AllDefault(g.hexes)
    {
      var allHexes: seq<Hexagon> := [];
      var degree := 0;
      while degree < maxDegree
        invariant 0 <= degree
        invariant degree <= maxDegree || degree == 0
        invariant Cells(allHexes) == BaseRingsUpTo(degree)
        invariant AllDefault(allHexes)
      {
        var ring := GetHexagonRing(degree);
        CellsAppend(allHexes, ring);
        AllDefaultAppend(allHexes, ring);
        assert BaseRingsUpTo(degree + 1) == BaseRingsUpTo(degree) + BaseRing(degree);
        allHexes := allHexes + ring;
        degree := degree + 1;
      }
      g := new HexagonGrid(allHexes);
    }

    /**
     * `from_count(target_count)`: whole rings until there are at least
     * target_count hexagons; one ring fewer would not have been enough.
     */
    static method FromCount(targetCount: int) returns (g: HexagonGrid)
      ensures |g.hexes| >= targetCount
      ensures targetCount <= 0 ==> g.hexes == []
      ensures exists n: nat :: Cells(g.hexes) == BaseRingsUpTo(n) && (n == 0 || |BaseRingsUpTo(n - 1)| < targetCount)
      ensures AllDefault(g.hexes)
    {
      var allHexes: seq<Hexagon> := [];
      var degree := 0;
      while |allHexes| < targetCount
        invariant Cells(allHexes) == BaseRingsUpTo(degree)
        invariant degree == 0 || |BaseRingsUpTo(degree - 1)| < targetCount
        invariant AllDefault(allHexes)
        decreases targetCount - |allHexes|
      {
        var ring := GetHexagonRing(degree);
        CellsAppend(allHexes, ring);
        AllDefaultAppend(allHexes, ring);
        assert BaseRingsUpTo(degree + 1) == BaseRingsUpTo(degree) + BaseRing(degree);
        allHexes := allHexes + ring;
        degree := degree + 1;
      }
      g := new HexagonGrid(allHexes);
    }
  }

  /** The plane form of a hexagon: centre (x, y), colour, angle and side, all but the colour mutable. */
  class HexXYA {
    var x: real
    var y: real
    const color: int
    var angle: real
    var side: real

    /** `HexXYA(hexagon)`: copies the centre, colour, angle and side of the hexagon. */
    constructor(hexagon: Hexagon)
      ensures (x, y) == hexagon.Center()
      ensures color == hexagon.color && angle == hexagon.angle && side == hexagon.side
    {
      var c := hexagon.Center();
      x, y := c.0, c.1;
      color := hexagon.color;
      angle := hexagon.angle;
      side := hexagon.side;
    }

    /** `translate(dx, dy)` */
    method Translate(dx: real, dy: real)
      modifies this
      ensures x == old(x) + dx && y == old(y) + dy
      ensures angle == old(angle) && side == old(side)
    {
      x := x + dx;
      y := y + dy;
    }

    /** `scale(factor)`: the centre and the side are multiplied by the factor. */
    method Scale(factor: real)
      modifies this
      ensures x == old(x) * factor && y == old(y) * factor && side == old(side) * factor
      ensures angle == old(angle)
    {
      x := x * factor;
      y := y * factor;
      side := side * factor;
    }
  }

  /** A list of HexXYA, one fresh object per hexagon, moved and scaled in place. */
  class HexGrid {
    const hexxyas: seq<HexXYA>

    /** The objects are distinct, so updating one leaves the others alone. */
    ghost predicate Valid()
    {
      forall i, j :: 0 <= i < j < |hexxyas| ==> hexxyas[i] != hexxyas[j]
    }

    /** `HexGrid(hexagons)`: one new HexXYA per hexagon, in order. */
    constructor(hexagons: seq<Hexagon>)
      ensures Valid()
      ensures |hexxyas| == |hexagons|
      ensures forall i :: 0 <= i < |hexagons| ==>
        && (hexxyas[i].x, hexxyas[i].y) == hexagons[i].Center()
        && hexxyas[i].color == hexagons[i].color
        && hexxyas[i].angle == hexagons[i].angle
        && hexxyas[i].side == hexagons[i].side
      ensures forall i :: 0 <= i < |hexxyas| ==> fresh(hexxyas[i])
    {
      var made: seq<HexXYA> := [];
      var i := 0;
      while i < |hexagons|
        invariant 0 <= i <= |hexagons| && |made| == i
        invariant forall k, l :: 0 <= k < l < i ==> made[k] != made[l]
        invariant forall k :: 0 <= k < i ==> fresh(made[k])
        invariant forall k :: 0 <= k < i ==>
          && (made[k].x, made[k].y) == hexagons[k].Center()
          && made[k].color == hexagons[k].color
          && made[k].angle == hexagons[k].angle
          && made[k].side == hexagons[k].side
      {
        var h := new HexXYA(hexagons[i]);
        made := made + [h];
        i := i + 1;
      }
      hexxyas := made;
    }

    /** `translate(dx, dy)`: every element moves by (dx, dy); count, order, colour, angle and side are kept. */
    method Translate(dx: real, dy: real)
      requires Valid()
      modifies set h | h in hexxyas
      ensures forall i :: 0 <= i < |hexxyas| ==>
        && hexxyas[i].x == old(hexxyas[i].x) + dx && hexxyas[i].y == old(hexxyas[i].y) + dy
        && hexxyas[i].angle == old(hexxyas[i].angle) && hexxyas[i].side == old(hexxyas[i].side)
    {
      var i := 0;
      while i < |hexxyas|
        invariant 0 <= i <= |hexxyas|
        invariant forall k :: 0 <= k < i ==>
          && hexxyas[k].x == old(hexxyas[k].x) + dx && hexxyas[k].y == old(hexxyas[k].y) + dy
          && hexxyas[k].angle == old(hexxyas[k].angle) && hexxyas[k].side == old(hexxyas[k].side)
        invariant forall k :: i <= k < |hexxyas| ==>
          && hexxyas[k].x == old(hexxyas[k].x) && hexxyas[k].y == old(hexxyas[k].y)
          && hexxyas[k].angle == old(hexxyas[k].angle) && hexxyas[k].side == old(hexxyas[k].side)
      {
        ghost var h := hexxyas[i];
        assert forall k :: 0 <= k < |hexxyas| && k != i ==> hexxyas[k] != h;
        hexxyas[i].Translate(dx, dy);
        i := i + 1;
      }
    }

    /** `scale(factor)`: every centre and side is multiplied by the factor; count, order and angle are kept. */
    method Scale(factor: real)
      requires Valid()
      modifies set h | h in hexxyas
      ensures forall i :: 0 <= i < |hexxyas| ==>
        && hexxyas[i].x == old(hexxyas[i].x) * factor && hexxyas[i].y == old(hexxyas[i].y) * factor
        && hexxyas[i].side == old(hexxyas[i].side) * factor && hexxyas[i].angle == old(hexxyas[i].angle)
    {
      var i := 0;
      while i < |hexxyas|
        invariant 0 <= i <= |hexxyas|
        invariant forall k :: 0 <= k < i ==>
          && hexxyas[k].x == old(hexxyas[k].x) * factor && hexxyas[k].y == old(hexxyas[k].y) * factor
          && hexxyas[k].side == old(hexxyas[k].side) * factor && hexxyas[k].angle == old(hexxyas[k].angle)
        invariant forall k :: i <= k < |hexxyas| ==>
          && hexxyas[k].x == old(hexxyas[k].x) && hexxyas[k].y == old(hexxyas[k].y)
          && hexxyas[k].side == old(hexxyas[k].side) && hexxyas[k].angle == old(hexxyas[k].angle)
      {
        ghost var h := hexxyas[i];
        assert forall k :: 0 <= k < |hexxyas| && k != i ==> hexxyas[k] != h;
        hexxyas[i].Scale(factor);
        i := i + 1;
      }
    }

    /** `len(grid)` */
    function Len(): (n: nat)
      ensures n == |hexxyas|
    {
      |hexxyas|
    }

    /** The `side` property: the side of the first element; an empty grid raises IndexError. */
    function Side(): (r: Option<real>)
      reads set h | h in hexxyas
      ensures r.None? <==> |hexxyas| == 0
      ensures r.Some? ==> r.value == hexxyas[0].side
    {
      if |hexxyas| == 0 then None else Some(hexxyas[0].side)
    }
  }
}
