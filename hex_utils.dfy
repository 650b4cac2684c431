/**
 * hex_utils.py: conversion of cube coordinates to plane positions.
 *
 * math.sqrt(3) is a double; the model uses 1.7320508075688772, the shortest
 * decimal literal that rounds to it, so Sqrt3 * Sqrt3 equals 3 only to within 1e-15.
 */
module HexUtils {

  import opened HexRings

  const Sqrt3: real := 1.7320508075688772

  /** The 4-tuples and 3-tuples that hex_centers_xy accepts. */
  datatype HexData = Colored4(q: int, r: int, s: int, color: int) | Plain3(q: int, r: int, s: int)

  /** The 6-tuples (x, y, q, r, s, color) that hex_centers_xy returns. */
  datatype CenterXY = CenterXY(x: real, y: real, q: int, r: int, s: int, color: int)

  /** `cube_to_xy(q, r, side)`: the centre of cell (q, r) on a lattice of hexagons with the given side. */
  function CubeToXY(q: int, r: int, side: real): (real, real)
  {
    (side * (Sqrt3 * q as real + Sqrt3 / 2.0 * r as real), side * (3.0 / 2.0 * r as real))
  }

  lemma Sqrt3Accuracy()
    ensures 3.0 - 0.000000000000001 < Sqrt3 * Sqrt3 < 3.0 + 0.000000000000001
  {
  }

  /**
   * The centre is linear in side: y = side * 3/2 * r, x = side * sqrt(3) * (q + r/2);
   * the origin maps to (0, 0) and scaling side by k scales both coordinates by k.
   */
  lemma CubeToXYLinear(q: int, r: int, side: real, k: real)
    ensures CubeToXY(q, r, side).0 == side * Sqrt3 * (q as real + r as real / 2.0)
    ensures CubeToXY(q, r, side).1 == side * 1.5 * r as real
    ensures CubeToXY(0, 0, side) == (0.0, 0.0)
    ensures CubeToXY(q, r, k * side).0 == k * CubeToXY(q, r, side).0
    ensures CubeToXY(q, r, k * side).1 == k * CubeToXY(q, r, side).1
  {
    var u := Sqrt3 * q as real + Sqrt3 / 2.0 * r as real;
    var v := 3.0 / 2.0 * r as real;
    assert CubeToXY(q, r, k * side).0 == (k * side) * u == k * (side * u);
    assert CubeToXY(q, r, k * side).1 == (k * side) * v == k * (side * v);
  }

  function ColorOfData(h: HexData): int
  {
    match h
    case Colored4(_, _, _, c) => c
    case Plain3(_, _, _) => 0
  }

  /** The row that hex_centers_xy produces for one input tuple. */
  function CenterOf(h: HexData, side: real): CenterXY
  {
    var xy := CubeToXY(h.q, h.r, side);
    CenterXY(xy.0, xy.1, h.q, h.r, h.s, ColorOfData(h))
  }

  /**
   * `hex_centers_xy(hexes, side)`: one output row per input tuple, in order;
   * the cube coordinates are copied, 4-tuples keep their colour, 3-tuples get
   * colour 0, and (x, y) is the centre given by cube_to_xy.
   */
  method HexCentersXY(hexes: seq<HexData>, side: real) returns (xyData: seq<CenterXY>)
    ensures |xyData| == |hexes|
    ensures forall i :: 0 <= i < |hexes| ==>
      && xyData[i].q == hexes[i].q && xyData[i].r == hexes[i].r && xyData[i].s == hexes[i].s
      && (hexes[i].Colored4? ==> xyData[i].color == hexes[i].color)
      && (hexes[i].Plain3? ==> xyData[i].color == 0)
      && (xyData[i].x, xyData[i].y) == CubeToXY(hexes[i].q, hexes[i].r, side)
  {
    xyData := [];
    var i := 0;
    while i < |hexes|
      invariant 0 <= i <= |hexes|
      invariant |xyData| == i
      invariant forall k :: 0 <= k < i ==> xyData[k] == CenterOf(hexes[k], side)
    {
      var q, r, s, color;
      match hexes[i] {
        case Colored4(q4, r4, s4, c4) =>
          q, r, s, color := q4, r4, s4, c4;
        case Plain3(q3, r3, s3) =>
          q, r, s := q3, r3, s3;
          color := 0;
      }
      var xy := CubeToXY(q, r, side);
      xyData := xyData + [CenterXY(xy.0, xy.1, q, r, s, color)];
      i := i + 1;
    }
  }
}
