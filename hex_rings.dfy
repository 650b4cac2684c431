/**
 * hex_rings.py: the hexagon lattice in cube coordinates (q, r, s), its
 * colouring, and the concentric rings that the lattice is grown from.
 *
 * The specification of a ring is RingPoint: the j-th hexagon of side k of
 * the ring of a given degree, in closed form. The loops of the source are
 * proved to produce exactly that sequence, and the lemmas below state what
 * the closed form guarantees (length, start, distance from the origin,
 * adjacency of consecutive entries, no repetitions, colouring).
 */
module HexRings {

  /** A cell of the lattice in cube coordinates. */
  datatype Cube = Cube(q: int, r: int, s: int)

  /** The 4-tuples (q, r, s, color) that hex_rings.py returns. */
  datatype HexTuple = HexTuple(q: int, r: int, s: int, color: int)

  function Abs(x: int): nat { if x < 0 then -x else x }
  function Max3(a: int, b: int, c: int): int { if a >= b && a >= c then a else if b >= c then b else c }
  function Min3(a: int, b: int, c: int): int { if a <= b && a <= c then a else if b <= c then b else c }

  predicate OnPlane(c: Cube) { c.q + c.r + c.s == 0 }

  /** Cube distance from the origin. */
  function Norm(c: Cube): nat { Max3(Abs(c.q), Abs(c.r), Abs(c.s)) }

  function Plus(a: Cube, b: Cube): Cube { Cube(a.q + b.q, a.r + b.r, a.s + b.s) }
  function Minus(a: Cube, b: Cube): Cube { Cube(a.q - b.q, a.r - b.r, a.s - b.s) }

  /** East, south-east, south-west, west, north-west, north-east. */
  const Directions: seq<Cube> :=
    [Cube(1, 0, -1), Cube(0, 1, -1), Cube(-1, 1, 0), Cube(-1, 0, 1), Cube(0, -1, 1), Cube(1, -1, 0)]

  /** b is one of the six cells touching a. */
  predicate IsNeighbour(a: Cube, b: Cube) { Minus(b, a) in Directions }

  // ---------------------------------------------------------------------
  // Colouring

  /** `get_color`: 1 ("dark") when max + min of the absolute coordinates is a multiple of 3. */
  function Color(q: int, r: int, s: int): (c: int)
    ensures c == 0 || c == 1
  {
    if (Max3(Abs(q), Abs(r), Abs(s)) + Min3(Abs(q), Abs(r), Abs(s))) % 3 == 0 then 1 else 0
  }

  function ColorOf(c: Cube): int { Color(c.q, c.r, c.s) }

  lemma Mod3Shift(m: int, t: int, a: int)
    requires m == 3 * t + a || m == 3 * t - a
    ensures m % 3 == 0 <==> a % 3 == 0
  {
  }

  /**
   * On the plane q + r + s = 0 the colour rule is the congruence q = r (mod 3):
   * in every sign pattern, max + min of the absolute values is 3t + (q - r)
   * or 3t - (q - r) for some integer t.
   */
  lemma ColorIsCongruence(q: int, r: int, s: int)
    requires q + r + s == 0
    ensures Color(q, r, s) == 1 <==> (q - r) % 3 == 0
  {
    var hi := Max3(Abs(q), Abs(r), Abs(s));
    var lo := Min3(Abs(q), Abs(r), Abs(s));
    var a := q - r;
    assert Color(q, r, s) == 1 <==> (hi + lo) % 3 == 0;
    if q >= 0 && r >= 0 {
      assert hi == q + r;
      if q <= r { assert lo == q; Mod3Shift(hi + lo, q, a); } else { assert lo == r; Mod3Shift(hi + lo, r, a); }
    } else if q <= 0 && r <= 0 {
      assert hi == -q - r;
      if q >= r { assert lo == -q; Mod3Shift(hi + lo, -q, a); } else { assert lo == -r; Mod3Shift(hi + lo, -r, a); }
    } else if q > 0 && s >= 0 {
      assert hi == -r;
      if q <= s { assert lo == q; Mod3Shift(hi + lo, 0, a); } else { assert lo == s; Mod3Shift(hi + lo, -r, a); }
    } else if q > 0 {
      assert hi == q;
      if -r <= -s { assert lo == -r; Mod3Shift(hi + lo, 0, a); } else { assert lo == -s; Mod3Shift(hi + lo, q, a); }
    } else if s >= 0 {
      assert hi == -q;
      if r <= s { assert lo == r; Mod3Shift(hi + lo, 0, a); } else { assert lo == s; Mod3Shift(hi + lo, -q, a); }
    } else {
      assert hi == r;
      if -q <= -s { assert lo == -q; Mod3Shift(hi + lo, 0, a); } else { assert lo == -s; Mod3Shift(hi + lo, r, a); }
    }
  }

  /** Each of the six directions stays on the plane and shifts q - r by 1 or 2 either way. */
  lemma DirectionShift(d: Cube)
    requires d in Directions
    ensures d.q + d.r + d.s == 0
    ensures var k := d.q - d.r; k == 1 || k == -1 || k == 2 || k == -2
  {
  }

  /** Two integers 1 or 2 apart are never both multiples of 3. */
  lemma NotBothMultiples(x: int, y: int)
    requires y - x == 1 || y - x == -1 || y - x == 2 || y - x == -2
    ensures !(x % 3 == 0 && y % 3 == 0)
  {
  }

  /** The doc-comment of get_color: no two dark hexagons touch. */
  lemma NoAdjacentDark(a: Cube, b: Cube)
    requires OnPlane(a) && IsNeighbour(a, b)
    ensures OnPlane(b)
    ensures !(ColorOf(a) == 1 && ColorOf(b) == 1)
  {
    DirectionShift(Minus(b, a));
    ColorIsCongruence(a.q, a.r, a.s);
    ColorIsCongruence(b.q, b.r, b.s);
    NotBothMultiples(a.q - a.r, b.q - b.r);
  }

  // ---------------------------------------------------------------------
  // Rings: the specification

  /**
   * The cell reached after j steps along side k of the ring of degree d.
   * Side k starts at the k-th corner and walks along Directions[k]; the
   * walk starts at the corner (0, -d, d).
   */
  function RingPoint(d: int, k: int, j: int): Cube
    requires 0 <= k < 6
  {
    if k == 0 then Cube(j, -d, d - j)
    else if k == 1 then Cube(d, -d + j, -j)
    else if k == 2 then Cube(d - j, j, -d)
    else if k == 3 then Cube(-j, d, -d + j)
    else if k == 4 then Cube(-d, d - j, j)
    else Cube(-d + j, -j, d)
  }

  /** The first d cells of side k (the last step lands on the next corner, which belongs to side k + 1). */
  function Side(d: nat, k: int): seq<Cube>
    requires 0 <= k < 6
  {
    seq(d, j requires 0 <= j < d => RingPoint(d, k, j))
  }

  /** Sides 0 .. k - 1 of the ring of degree d, one after the other. */
  function Sides(d: nat, k: nat): seq<Cube>
    requires k <= 6
  {
    if k == 0 then [] else Sides(d, k - 1) + Side(d, k - 1)
  }

  /** The cells of the ring of degree d in walking order (d > 0). */
  function RingCubes(d: nat): seq<Cube> { Sides(d, 6) }

  function WithColor(c: Cube): HexTuple { HexTuple(c.q, c.r, c.s, ColorOf(c)) }

  function CubeOfTuple(t: HexTuple): Cube { Cube(t.q, t.r, t.s) }

  function Colored(cs: seq<Cube>): (ts: seq<HexTuple>)
    ensures |ts| == |cs|
  {
    seq(|cs|, i requires 0 <= i < |cs| => WithColor(cs[i]))
  }

  /**
   * What `get_hex_ring(degree)` returns: the origin alone for degree 0, the
   * 6 * degree cells of the ring for a positive degree, and nothing for a
   * negative one (range(degree) is then empty).
   */
  function Ring(degree: int): seq<HexTuple>
  {
    if degree == 0 then [WithColor(Cube(0, 0, 0))]
    else if degree < 0 then []
    else Colored(RingCubes(degree))
  }

  /** Rings 0 .. n - 1 concatenated: what `get_hex_rings_degree(n)` returns. */
  function RingsUpTo(n: int): seq<HexTuple>
    decreases n
  {
    if n <= 0 then [] else RingsUpTo(n - 1) + Ring(n - 1)
  }

  /**
   * The walk position of a cell of the ring of degree d: the inverse of
   * RingPoint, used to show that a ring never visits a cell twice.
   */
  function RingIndex(d: int, c: Cube): int
  {
    if c.r == -d && 0 <= c.q < d then c.q
    else if c.q == d && c.r < 0 then d + (c.r + d)
    else if c.s == -d && c.q > 0 then 2 * d + c.r
    else if c.r == d && -d < c.q <= 0 then 3 * d - c.q
    else if c.q == -d && c.r > 0 then 4 * d + (d - c.r)
    else 5 * d + (c.q + d)
  }

  // ---------------------------------------------------------------------
  // Rings: facts about one step

  /** One step along side k moves by Directions[k]; step d of a side is step 0 of the next side. */
  lemma StepAlongSide(d: int, k: int, j: int)
    requires 0 <= k < 6
    ensures Plus(RingPoint(d, k, j), Directions[k]) == RingPoint(d, k, j + 1)
    ensures k < 5 ==> RingPoint(d, k, d) == RingPoint(d, k + 1, 0)
    ensures k == 5 ==> RingPoint(d, k, d) == RingPoint(d, 0, 0)
  {
  }

  /** Consecutive cells of one side touch. */
  lemma SideStep(d: int, k: int, j: int)
    requires 0 <= k < 6
    ensures IsNeighbour(RingPoint(d, k, j), RingPoint(d, k, j + 1))
  {
    StepAlongSide(d, k, j);
    assert Minus(RingPoint(d, k, j + 1), RingPoint(d, k, j)) == Directions[k];
  }

  /** The last cell of side k - 1 touches the first cell of side k. */
  lemma CornerStep(d: int, k: int)
    requires 1 <= k < 6
    ensures IsNeighbour(RingPoint(d, k - 1, d - 1), RingPoint(d, k, 0))
  {
    SideStep(d, k - 1, d - 1);
    StepAlongSide(d, k - 1, d);
  }

  lemma RingPointOnRing(d: nat, k: int, j: int)
    requires 0 <= k < 6 && 0 <= j <= d
    ensures OnPlane(RingPoint(d, k, j)) && Norm(RingPoint(d, k, j)) == d
  {
    var c, e := RingPoint(d, k, j), d as int;
    if k == 0 {
      assert c == Cube(j, -e, e - j);
    } else if k == 1 {
      assert c == Cube(e, -e + j, -j);
    } else if k == 2 {
      assert c == Cube(e - j, j, -e);
    } else if k == 3 {
      assert c == Cube(-j, e, -e + j);
    } else if k == 4 {
      assert c == Cube(-e, e - j, j);
    } else {
      assert c == Cube(-e + j, -j, e);
    }
  }

  lemma RingPointIndex(d: nat, k: int, j: int)
    requires 0 <= k < 6 && 0 <= j < d
    ensures RingIndex(d, RingPoint(d, k, j)) == k * d + j
  {
    if k == 0 {
    } else if k == 1 {
    } else if k == 2 {
    } else if k == 3 {
    } else if k == 4 {
    } else {
    }
  }

  // ---------------------------------------------------------------------
  // Rings: facts about the whole walk

  lemma {:induction false} SidesLength(d: nat, k: nat)
    requires k <= 6
    ensures |Sides(d, k)| == k * d
  {
    if k > 0 {
      SidesLength(d, k - 1);
    }
  }

  /** The walk starts at the corner (0, -d, d). */
  lemma {:induction false} SidesStart(d: nat, k: nat)
    requires 1 <= d && 1 <= k <= 6
    ensures |Sides(d, k)| > 0 && Sides(d, k)[0] == RingPoint(d, 0, 0)
  {
    SidesLength(d, k);
    if k > 1 {
      SidesStart(d, k - 1);
    }
  }

  /** Entry i of the walk so far sits at walk position i. */
  lemma {:induction false} SidesIndex(d: nat, k: nat)
    requires k <= 6
    ensures forall i :: 0 <= i < |Sides(d, k)| ==> RingIndex(d, Sides(d, k)[i]) == i
  {
    SidesLength(d, k);
    if k > 0 {
      SidesIndex(d, k - 1);
      SidesLength(d, k - 1);
      var prev := Sides(d, k - 1);
      forall i | 0 <= i < |Sides(d, k)|
        ensures RingIndex(d, Sides(d, k)[i]) == i
      {
        if i >= |prev| {
          var j := i - |prev|;
          assert Sides(d, k)[i] == RingPoint(d, k - 1, j);
          RingPointIndex(d, k - 1, j);
        }
      }
    }
  }

  lemma {:induction false} SidesOnRing(d: nat, k: nat)
    requires k <= 6
    ensures forall i :: 0 <= i < |Sides(d, k)| ==> OnPlane(Sides(d, k)[i]) && Norm(Sides(d, k)[i]) == d
  {
    if k > 0 {
      SidesOnRing(d, k - 1);
      var prev := Sides(d, k - 1);
      forall i | 0 <= i < |Sides(d, k)|
        ensures OnPlane(Sides(d, k)[i]) && Norm(Sides(d, k)[i]) == d
      {
        if i >= |prev| {
          RingPointOnRing(d, k - 1, i - |prev|);
        }
      }
    }
  }

  /** Consecutive entries touch, and the walk so far ends one step before corner k. */
  lemma {:induction false} SidesAdjacent(d: nat, k: nat)
    requires 1 <= d && k <= 6
    ensures forall i :: 0 <= i < |Sides(d, k)| - 1 ==> IsNeighbour(Sides(d, k)[i], Sides(d, k)[i + 1])
    ensures k > 0 ==> Sides(d, k)[|Sides(d, k)| - 1] == RingPoint(d, k - 1, d - 1)
  {
    SidesLength(d, k);
    if k > 0 {
      SidesAdjacent(d, k - 1);
      SidesLength(d, k - 1);
      var prev := Sides(d, k - 1);
      var cur := Sides(d, k);
      forall i | 0 <= i < |cur| - 1
        ensures IsNeighbour(cur[i], cur[i + 1])
      {
        if i + 1 < |prev| {
          assert cur[i] == prev[i] && cur[i + 1] == prev[i + 1];
        } else if i + 1 == |prev| {
          // The last cell of side k - 2 and the first cell of side k - 1.
          assert cur[i] == prev[i] && cur[i + 1] == RingPoint(d, k - 1, 0);
          CornerStep(d, k - 1);
        } else {
          var j := i - |prev|;
          assert cur[i] == RingPoint(d, k - 1, j) && cur[i + 1] == RingPoint(d, k - 1, j + 1);
          SideStep(d, k - 1, j);
        }
      }
      assert cur[|cur| - 1] == RingPoint(d, k - 1, d - 1);
    }
  }

  /** `get_hex_ring(0)` is the origin, coloured dark. */
  lemma RingZero()
    ensures Ring(0) == [HexTuple(0, 0, 0, 1)]
  {
  }

  /** The ring of a positive degree d has 6 * d cells and starts at (0, -d, d). */
  lemma RingLength(d: int)
    requires d > 0
    ensures |Ring(d)| == 6 * d
    ensures Ring(d)[0] == WithColor(Cube(0, -d, d))
  {
    SidesLength(d, 6);
    SidesStart(d, 6);
  }

  /** Every cell of the ring lies on the plane at cube distance d and carries its own colour. */
  lemma RingOnRing(d: int)
    requires d > 0
    ensures forall i :: 0 <= i < |Ring(d)| ==>
      var c := CubeOfTuple(Ring(d)[i]); OnPlane(c) && Norm(c) == d && Ring(d)[i].color == ColorOf(c)
  {
    SidesOnRing(d, 6);
    assert forall i :: 0 <= i < |Ring(d)| ==> CubeOfTuple(Ring(d)[i]) == RingCubes(d)[i];
  }

  /** Each cell of the ring touches the next one, and the last touches the first. */
  lemma RingAdjacent(d: int)
    requires d > 0
    ensures forall i :: 0 <= i < |Ring(d)| - 1 ==> IsNeighbour(CubeOfTuple(Ring(d)[i]), CubeOfTuple(Ring(d)[i + 1]))
    ensures IsNeighbour(CubeOfTuple(Ring(d)[|Ring(d)| - 1]), CubeOfTuple(Ring(d)[0]))
  {
    var cs, ring := RingCubes(d), Ring(d);
    SidesAdjacent(d, 6);
    SidesLength(d, 6);
    SidesStart(d, 6);
    assert ring == Colored(cs);
    forall i | 0 <= i < |ring| - 1
      ensures IsNeighbour(CubeOfTuple(ring[i]), CubeOfTuple(ring[i + 1]))
    {
      assert CubeOfTuple(ring[i]) == cs[i] && CubeOfTuple(ring[i + 1]) == cs[i + 1];
    }
    var n := |ring|;
    assert CubeOfTuple(ring[n - 1]) == cs[n - 1] == RingPoint(d, 5, d - 1);
    assert CubeOfTuple(ring[0]) == cs[0] == RingPoint(d, 0, 0);
    StepAlongSide(d, 5, d - 1);
    StepAlongSide(d, 5, d);
  }

  /** No cell appears twice in a ring. */
  lemma RingDistinct(d: int)
    requires d > 0
    ensures forall i, j :: 0 <= i < j < |Ring(d)| ==> Ring(d)[i] != Ring(d)[j]
  {
    var cs := RingCubes(d);
    SidesIndex(d, 6);
    forall i, j | 0 <= i < j < |Ring(d)|
      ensures Ring(d)[i] != Ring(d)[j]
    {
      assert CubeOfTuple(Ring(d)[i]) == cs[i] && CubeOfTuple(Ring(d)[j]) == cs[j];
      assert RingIndex(d, cs[i]) == i && RingIndex(d, cs[j]) == j;
    }
  }

  lemma CubicGrowth(n: int)
    ensures 1 + 3 * (n - 1) * (n - 2) + 6 * (n - 1) == 1 + 3 * n * (n - 1)
  {
    assert (n - 1) * (n - 2) == n * n - 3 * n + 2;
    assert n * (n - 1) == n * n - n;
  }

  /** The disc of rings 0 .. n - 1 holds 1 + 3 n (n - 1) cells. */
  lemma {:induction false} RingsUpToLength(n: int)
    ensures n <= 0 ==> |RingsUpTo(n)| == 0
    ensures n >= 1 ==> |RingsUpTo(n)| == 1 + 3 * n * (n - 1)
  {
    if n > 1 {
      RingsUpToLength(n - 1);
      RingLength(n - 1);
      CubicGrowth(n);
    }
  }

  /** Every ring contributes at least one cell, so the disc grows strictly. */
  lemma RingNonEmpty(d: nat)
    ensures |Ring(d)| >= 1
  {
    if d > 0 {
      RingLength(d);
    }
  }

  // ---------------------------------------------------------------------
  // The operations of hex_rings.py

  lemma ColoredSnoc(cs: seq<Cube>, c: Cube)
    ensures Colored(cs + [c]) == Colored(cs) + [WithColor(c)]
  {
    assert forall i :: 0 <= i < |cs| ==> (cs + [c])[i] == cs[i];
  }

  /** Recording step j of side k extends the walk by RingPoint(d, k, j); after d steps the side is complete. */
  lemma SideGrows(d: nat, k: int, j: nat)
    requires 0 <= k < 6 && j < d
    ensures Side(d, k)[..j + 1] == Side(d, k)[..j] + [RingPoint(d, k, j)]
    ensures j + 1 == d ==> Side(d, k)[..j + 1] == Side(d, k)
  {
  }

  /** `get_hex_ring(degree)`: walk the six directions degree steps each, recording the cell before each step. */
  method GetHexRing(degree: int) returns (hexes: seq<HexTuple>)
    ensures hexes == Ring(degree)
  {
    if degree == 0 {
      return [HexTuple(0, 0, 0, Color(0, 0, 0))];
    }
    hexes := [];
    var q, r, s := 0, -degree, degree;
    if degree < 0 {
      // Every range(degree) below is empty: the six passes append nothing.
      return;
    }
    ghost var cubes: seq<Cube> := [];
    var k := 0;
    while k < 6
      invariant 0 <= k <= 6
      invariant cubes == Sides(degree, k)
      invariant hexes == Colored(cubes)
      invariant k < 6 ==> Cube(q, r, s) == RingPoint(degree, k, 0)
    {
      var dir := Directions[k];
      var step := 0;
      while step < degree
        invariant 0 <= step <= degree
        invariant cubes == Sides(degree, k) + Side(degree, k)[..step]
        invariant hexes == Colored(cubes)
        invariant Cube(q, r, s) == RingPoint(degree, k, step)
      {
        ColoredSnoc(cubes, Cube(q, r, s));
        SideGrows(degree, k, step);
        hexes := hexes + [HexTuple(q, r, s, Color(q, r, s))];
        cubes := cubes + [Cube(q, r, s)];
        StepAlongSide(degree, k, step);
        q, r, s := q + dir.q, r + dir.r, s + dir.s;
        step := step + 1;
      }
      assert Side(degree, k)[..degree] == Side(degree, k);
      StepAlongSide(degree, k, degree);
      k := k + 1;
    }
  }

  /** `get_hex_rings_degree(max_degree)`: rings 0 .. max_degree - 1, in order. */
  method GetHexRingsDegree(maxDegree: int) returns (allHexes: seq<HexTuple>)
    ensures allHexes == RingsUpTo(maxDegree)
  {
    allHexes := [];
    var degree := 0;
    // range(maxDegree) is empty when maxDegree <= 0, and RingsUpTo of it is [].
    var n := if maxDegree < 0 then 0 else maxDegree;
    assert RingsUpTo(n) == RingsUpTo(maxDegree);
    while degree < n
      invariant 0 <= degree <= n
      invariant allHexes == RingsUpTo(degree)
    {
      var ringHexes := GetHexRing(degree);
      assert RingsUpTo(degree + 1) == RingsUpTo(degree) + ringHexes;
      allHexes := allHexes + ringHexes;
      degree := degree + 1;
    }
  }

  /**
   * `get_hex_rings_count(hex_count)`: whole rings 0, 1, 2, ... until there are
   * at least hex_count cells. The result is a disc RingsUpTo(n) that is big
   * enough while the disc one ring smaller is not.
   */
  method GetHexRingsCount(hexCount: int) returns (allHexes: seq<HexTuple>)
    ensures |allHexes| >= hexCount
    ensures hexCount <= 0 ==> allHexes == []
    ensures exists n: nat :: allHexes == RingsUpTo(n) && (n == 0 || |RingsUpTo(n - 1)| < hexCount)
  {
    allHexes := [];
    var degree := 0;
    while |allHexes| < hexCount
      invariant allHexes == RingsUpTo(degree)
      invariant degree == 0 || |RingsUpTo(degree - 1)| < hexCount
      decreases hexCount - |allHexes|
    {
      var ringHexes := GetHexRing(degree);
      RingNonEmpty(degree);
      assert RingsUpTo(degree + 1) == RingsUpTo(degree) + ringHexes;
      allHexes := allHexes + ringHexes;
      degree := degree + 1;
    }
  }
}
