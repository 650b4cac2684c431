/**
 * Generator.py: a binary mask is laid over the canvas of hexagons or
 * Penrose triangles; each canvas unit counts how many of its four corner
 * probes land on an "on" pixel, and a buffer of `sample_size` rows is filled
 * with the best-covered units first.
 *
 * The random rotation angle, the rotation factor (cos theta, sin theta), the
 * random offset and the rounded integer probe coordinates of every unit are
 * inputs: the square roots, trigonometry and rounding that produce them are
 * not modelled.
 */
module Generator {

  import opened Wrappers
  import opened Utils
  import opened ImageSet
  import HexUtils
  import PenBase

  // ---------------------------------------------------------------------
  // Unit area and density

  /** The two concrete generators: Generator6 over hexagons, Generator5 over Penrose triangles. */
  datatype Kind = Hexagons | Penrose

  /** sin(pi/5) and sin(2 pi/5), as the shortest decimal literals that round to the doubles Python computes. */
  const SinPiOver5: real := 0.5877852522924731
  const SinTwoPiOver5: real := 0.9510565162951535

  /** The class attribute `unit_area`: the area of one unit of side 1. */
  function UnitArea(kind: Kind): (a: real)
    ensures a > 0.0
  {
    match kind
    case Hexagons => 3.0 * HexUtils.Sqrt3 / 2.0
    case Penrose => SinPiOver5 * PenBase.Psi2 + SinTwoPiOver5 * PenBase.Psi
  }

  /** The class attribute `rot_range`: rotations are drawn from [-rot_range, rot_range]. */
  function RotRange(kind: Kind): (r: real)
    ensures 0.0 < r < Pi
  {
    match kind
    case Hexagons => Pi / 6.0
    case Penrose => Pi / 2.0
  }

  /**
   * A regular hexagon of side 1 has area 3 sqrt(3)/2, and the Penrose unit
   * (a fat and a thin rhombus weighted by psi and psi^2) has area
   * sin(pi/5) psi^2 + sin(2 pi/5) psi. The literals satisfy the defining
   * identities of those closed forms to within 1e-14: 4 h^2 = 27 for the
   * hexagon area h, 8 sin^2(pi/5) = 5 - sqrt 5 and 8 sin^2(2 pi/5) = 5 + sqrt 5,
   * with sqrt 5 written as 2 psi + 1.
   */
  lemma UnitAreaValues()
    ensures var h := UnitArea(Hexagons); -0.00000000000001 < 4.0 * h * h - 27.0 < 0.00000000000001
    ensures var a := SinPiOver5; -0.00000000000001 < 8.0 * a * a - (5.0 - (2.0 * PenBase.Psi + 1.0)) < 0.00000000000001
    ensures var b := SinTwoPiOver5; -0.00000000000001 < 8.0 * b * b - (5.0 + (2.0 * PenBase.Psi + 1.0)) < 0.00000000000001
  {
  }

  /** One unit of the canvas, as the generator reads it: x, y, colour, angle and side. */
  datatype Unit = Unit(x: real, y: real, color: int, angle: real, side: real)

  /** The four rounded probe coordinates of one unit: rows u1, u2 and columns v1, v2. */
  datatype Corners = Corners(u1: int, v1: int, u2: int, v2: int)

  /** The random draws of one `get_sample` call. */
  datatype Placement = Placement(theta: real, rot: Complex, x0: real, y0: real)

  /** The unit's position after `canvas_xy @ rot_mat` and the shift by (x0, y0). */
  function NewXY(u: Unit, p: Placement): Complex
  {
    Sub(Mul(Complex(u.x, u.y), p.rot), Complex(p.x0, p.y0))
  }

  /** The five columns of the row a selected unit fills. */
  function Row(u: Unit, p: Placement): (row: seq<real>)
    ensures |row| == 5
  {
    var xy := NewXY(u, p);
    [xy.re, xy.im, u.color as real, u.angle + p.theta, u.side]
  }

  /**
   * Rotating by (cos theta, sin theta) is the row vector [x, y] times the
   * matrix [[cos theta, sin theta], [-sin theta, cos theta]], and a rotation
   * factor of modulus 1 keeps the distance between any two units.
   */
  lemma NewXYIsRowTimesMatrix(u: Unit, w: Unit, p: Placement)
    ensures NewXY(u, p).re == u.x * p.rot.re + u.y * -p.rot.im - p.x0
    ensures NewXY(u, p).im == u.x * p.rot.im + u.y * p.rot.re - p.y0
    ensures SqAbs(p.rot) == 1.0 ==>
      SqAbs(Sub(NewXY(u, p), NewXY(w, p))) == SqAbs(Sub(Complex(u.x, u.y), Complex(w.x, w.y)))
  {
    var d := Sub(Complex(u.x, u.y), Complex(w.x, w.y));
    assert Sub(NewXY(u, p), NewXY(w, p)) == Mul(d, p.rot);
    assert SqAbs(Mul(d, p.rot)) == SqAbs(d) * SqAbs(p.rot);
  }

  // ---------------------------------------------------------------------
  // Coverage

  /** `H, W = sample.mask.shape`; an empty mask has no columns. */
  function Height(mask: Grid): nat { |mask| }
  function Width(mask: Grid): nat { if |mask| == 0 then 0 else |mask[0]| }

  predicate InBounds(mask: Grid, u: int, v: int)
  {
    0 <= u < Height(mask) && 0 <= v < Width(mask)
  }

  /** What one probe adds: the mask value when it lands inside the mask, nothing otherwise. */
  function Probe(mask: Grid, u: int, v: int): (c: int)
    requires IsRect(mask)
    ensures !InBounds(mask, u, v) ==> c == 0
    ensures InBounds(mask, u, v) ==> c == mask[u][v] as int
  {
    if InBounds(mask, u, v) then mask[u][v] as int else 0
  }

  /** The coverage of one unit: the sum of its four probes. */
  function Coverage(mask: Grid, c: Corners): int
    requires IsRect(mask)
  {
    Probe(mask, c.u1, c.v1) + Probe(mask, c.u1, c.v2) + Probe(mask, c.u2, c.v1) + Probe(mask, c.u2, c.v2)
  }

  function Coverages(mask: Grid, corners: seq<Corners>): (cov: seq<int>)
    requires IsRect(mask)
    ensures |cov| == |corners|
  {
    seq(|corners|, i requires 0 <= i < |corners| => Coverage(mask, corners[i]))
  }

  predicate IsBinary(mask: Grid)
  {
    forall i, j :: 0 <= i < |mask| && 0 <= j < |mask[i]| ==> mask[i][j] == 0 || mask[i][j] == 1
  }

  /** Over a 0/1 mask a probe adds 0 or 1, so a coverage is between 0 and 4. */
  lemma CoverageBounds(mask: Grid, c: Corners)
    requires IsRect(mask) && IsBinary(mask)
    ensures 0 <= Coverage(mask, c) <= 4
  {
  }

  /** Four probes on "on" pixels give 4; four probes outside the mask give 0. */
  lemma CoverageExtremes(mask: Grid, c: Corners)
    requires IsRect(mask)
    ensures (&& InBounds(mask, c.u1, c.v1) && InBounds(mask, c.u2, c.v2)
             && mask[c.u1][c.v1] == 1 && mask[c.u1][c.v2] == 1
             && mask[c.u2][c.v1] == 1 && mask[c.u2][c.v2] == 1) ==> Coverage(mask, c) == 4
    ensures (&& !InBounds(mask, c.u1, c.v1) && !InBounds(mask, c.u1, c.v2)
             && !InBounds(mask, c.u2, c.v1) && !InBounds(mask, c.u2, c.v2)) ==> Coverage(mask, c) == 0
  {
  }

  /** A binarised mask is binary, so every coverage over it is in [0, 4]. */
  lemma BinarizedCoverageBounds(pixels: Grid, corners: seq<Corners>)
    requires IsRect(Binarized(pixels))
    ensures forall i :: 0 <= i < |corners| ==> 0 <= Coverages(Binarized(pixels), corners)[i] <= 4
  {
    var mask := Binarized(pixels);
    forall i, j | 0 <= i < |mask| && 0 <= j < |mask[i]|
      ensures mask[i][j] == 0 || mask[i][j] == 1
    {
      ThresholdFacts(pixels[i][j]);
    }
    forall i | 0 <= i < |corners|
      ensures 0 <= Coverages(mask, corners)[i] <= 4
    {
      CoverageBounds(mask, corners[i]);
    }
  }

  /** `update_coverage(uu, vv)`: every unit whose probe lands inside the mask gains the mask value there. */
  method UpdateCoverage(coverage: array<int>, mask: Grid, uu: seq<int>, vv: seq<int>)
    requires IsRect(mask)
    requires |uu| == coverage.Length && |vv| == coverage.Length
    modifies coverage
    ensures forall i :: 0 <= i < coverage.Length ==> coverage[i] == old(coverage[i]) + Probe(mask, uu[i], vv[i])
  {
    var i := 0;
    while i < coverage.Length
      invariant 0 <= i <= coverage.Length
      invariant forall k :: 0 <= k < i ==> coverage[k] == old(coverage[k]) + Probe(mask, uu[k], vv[k])
      invariant forall k :: i <= k < coverage.Length ==> coverage[k] == old(coverage[k])
    {
      coverage[i] := coverage[i] + Probe(mask, uu[i], vv[i]);
      i := i + 1;
    }
  }

  /** The coverage array of `get_sample`: zeros, then the four probe passes. */
  method ComputeCoverage(mask: Grid, corners: seq<Corners>) returns (coverage: array<int>)
    requires IsRect(mask)
    ensures fresh(coverage)
    ensures coverage[..] == Coverages(mask, corners)
  {
    var n := |corners|;
    coverage := new int[n](_ => 0);
    var u1 := seq(n, i requires 0 <= i < n => corners[i].u1);
    var v1 := seq(n, i requires 0 <= i < n => corners[i].v1);
    var u2 := seq(n, i requires 0 <= i < n => corners[i].u2);
    var v2 := seq(n, i requires 0 <= i < n => corners[i].v2);
    UpdateCoverage(coverage, mask, u1, v1);
    UpdateCoverage(coverage, mask, u1, v2);
    UpdateCoverage(coverage, mask, u2, v1);
    UpdateCoverage(coverage, mask, u2, v2);
  }

  // ---------------------------------------------------------------------
  // Selection

  /** `np.flatnonzero(coverage == val)`: the indices holding `val`, in ascending order. */
  function ClassIndices(cov: seq<int>, val: int): seq<nat>
  {
    if |cov| == 0 then []
    else
      var init := ClassIndices(cov[..|cov| - 1], val);
      if cov[|cov| - 1] == val then init + [|cov| - 1] else init
  }

  /** The indices listed are exactly those holding `val`, each once and in ascending order. */
  lemma {:induction false} ClassIndicesSpec(cov: seq<int>, val: int)
    ensures forall k :: 0 <= k < |ClassIndices(cov, val)| ==>
      ClassIndices(cov, val)[k] < |cov| && cov[ClassIndices(cov, val)[k]] == val
    ensures forall k, l :: 0 <= k < l < |ClassIndices(cov, val)| ==>
      ClassIndices(cov, val)[k] < ClassIndices(cov, val)[l]
    ensures forall i :: 0 <= i < |cov| && cov[i] == val ==> i in ClassIndices(cov, val)
  {
    if |cov| > 0 {
      var n := |cov| - 1;
      var pre := cov[..n];
      ClassIndicesSpec(pre, val);
      var init := ClassIndices(pre, val);
      var idxs := ClassIndices(cov, val);
      assert idxs == if cov[n] == val then init + [n] else init;
      forall k | 0 <= k < |idxs|
        ensures idxs[k] < |cov| && cov[idxs[k]] == val
      {
        if k < |init| {
          assert idxs[k] == init[k];
          assert pre[init[k]] == cov[init[k]];
        }
      }
      forall i | 0 <= i < |cov| && cov[i] == val
        ensures i in idxs
      {
        if i < n {
          assert pre[i] == cov[i];
          assert i in init;
        } else {
          assert idxs[|idxs| - 1] == n;
        }
      }
    }
  }

  /** The indices of classes 4 down to val + 1, in the order the loop visits them. */
  function Upper(cov: seq<int>, val: int): seq<nat>
    requires 0 <= val <= 4
    decreases 4 - val
  {
    if val == 4 then [] else Upper(cov, val + 1) + ClassIndices(cov, val + 1)
  }

  /** Every unit the loop could take, best-covered first. */
  function Candidates(cov: seq<int>): seq<nat>
  {
    Upper(cov, 0)
  }

  function Min(a: int, b: int): int { if a <= b then a else b }

  /** The number of entries between lo and hi. */
  function CountBetween(cov: seq<int>, lo: int, hi: int): nat
  {
    if |cov| == 0 then 0
    else CountBetween(cov[..|cov| - 1], lo, hi) + (if lo <= cov[|cov| - 1] <= hi then 1 else 0)
  }

  lemma {:induction false} ClassIndicesCount(cov: seq<int>, val: int)
    ensures |ClassIndices(cov, val)| == CountBetween(cov, val, val)
  {
    if |cov| > 0 {
      ClassIndicesCount(cov[..|cov| - 1], val);
    }
  }

  /** The classes 4 down to val + 1 hold exactly the units with coverage in [val + 1, 4]. */
  lemma {:induction false} UpperMembers(cov: seq<int>, val: int)
    requires 0 <= val <= 4
    ensures forall k :: 0 <= k < |Upper(cov, val)| ==>
      Upper(cov, val)[k] < |cov| && val < cov[Upper(cov, val)[k]] <= 4
    ensures forall i :: 0 <= i < |cov| && val < cov[i] <= 4 ==> i in Upper(cov, val)
    decreases 4 - val
  {
    if val < 4 {
      UpperMembers(cov, val + 1);
      ClassIndicesSpec(cov, val + 1);
      var up, cl := Upper(cov, val + 1), ClassIndices(cov, val + 1);
      assert Upper(cov, val) == up + cl;
      forall k | 0 <= k < |up + cl|
        ensures (up + cl)[k] < |cov| && val < cov[(up + cl)[k]] <= 4
      {
        if k >= |up| {
          assert (up + cl)[k] == cl[k - |up|];
        }
      }
      forall i | 0 <= i < |cov| && val < cov[i] <= 4
        ensures i in up + cl
      {
        if cov[i] > val + 1 {
          assert i in up;
        } else {
          assert i in cl;
        }
      }
    }
  }

  /** Unit a comes before unit b: a higher coverage, or the same coverage and a lower index. */
  predicate Before(cov: seq<int>, a: int, b: int)
  {
    0 <= a < |cov| && 0 <= b < |cov| && (cov[a] > cov[b] || (cov[a] == cov[b] && a < b))
  }

  /** Classes come in decreasing order, and within a class the canvas indices ascend. */
  lemma {:induction false} UpperOrder(cov: seq<int>, val: int)
    requires 0 <= val <= 4
    ensures forall k, l :: 0 <= k < l < |Upper(cov, val)| ==>
      Before(cov, Upper(cov, val)[k], Upper(cov, val)[l])
    decreases 4 - val
  {
    if val < 4 {
      UpperOrder(cov, val + 1);
      UpperMembers(cov, val + 1);
      ClassIndicesSpec(cov, val + 1);
      var up, cl := Upper(cov, val + 1), ClassIndices(cov, val + 1);
      assert Upper(cov, val) == up + cl;
      forall k, l | 0 <= k < l < |up + cl|
        ensures Before(cov, (up + cl)[k], (up + cl)[l])
      {
        if l < |up| {
          assert (up + cl)[k] == up[k];
          assert (up + cl)[l] == up[l];
        } else if k < |up| {
          assert (up + cl)[k] == up[k];
          assert (up + cl)[l] == cl[l - |up|];
        } else {
          assert (up + cl)[k] == cl[k - |up|];
          assert (up + cl)[l] == cl[l - |up|];
        }
      }
    }
  }

  /** The classes 4 down to val + 1 have as many entries as there are coverages in [val + 1, 4]. */
  lemma {:induction false} UpperCount(cov: seq<int>, val: int)
    requires 0 <= val <= 4
    ensures |Upper(cov, val)| == CountBetween(cov, val + 1, 4)
    decreases 4 - val
  {
    if val == 4 {
      CountEmpty(cov, 5, 4);
    } else {
      UpperCount(cov, val + 1);
      assert Upper(cov, val) == Upper(cov, val + 1) + ClassIndices(cov, val + 1);
      ClassIndicesCount(cov, val + 1);
      if val + 1 < 4 {
        CountShift(cov, val + 1);
      } else {
        CountEmpty(cov, 5, 4);
      }
    }
  }

  /** No entry lies in an empty range. */
  lemma {:induction false} CountEmpty(cov: seq<int>, lo: int, hi: int)
    requires hi < lo
    ensures CountBetween(cov, lo, hi) == 0
  {
    if |cov| > 0 {
      CountEmpty(cov[..|cov| - 1], lo, hi);
    }
  }

  /** Counting [lo, 4] is counting [lo + 1, 4] plus the entries equal to lo. */
  lemma {:induction false} CountShift(cov: seq<int>, lo: int)
    requires lo < 4
    ensures CountBetween(cov, lo, 4) == CountBetween(cov, lo + 1, 4) + CountBetween(cov, lo, lo)
  {
    if |cov| > 0 {
      CountShift(cov[..|cov| - 1], lo);
    }
  }

  /**
   * The candidates are exactly the units of coverage 1..4, each once, in
   * class order 4, 3, 2, 1 and ascending canvas index within a class; a unit
   * of coverage 0 is never a candidate.
   */
  lemma CandidatesSpec(cov: seq<int>)
    ensures forall k :: 0 <= k < |Candidates(cov)| ==>
      Candidates(cov)[k] < |cov| && 1 <= cov[Candidates(cov)[k]] <= 4
    ensures forall i :: 0 <= i < |cov| && 1 <= cov[i] <= 4 ==> i in Candidates(cov)
    ensures forall i :: 0 <= i < |cov| && cov[i] == 0 ==> i !in Candidates(cov)
    ensures forall k, l :: 0 <= k < l < |Candidates(cov)| ==> Before(cov, Candidates(cov)[k], Candidates(cov)[l])
    ensures |Candidates(cov)| == CountBetween(cov, 1, 4)
  {
    UpperMembers(cov, 0);
    UpperOrder(cov, 0);
    UpperCount(cov, 0);
  }

  /** Every candidate is the index of a unit. */
  lemma CandidatesInRange(cov: seq<int>)
    ensures Indexes(Candidates(cov), |cov|)
  {
    UpperMembers(cov, 0);
  }

  /** The candidates never repeat a unit. */
  lemma CandidatesDistinct(cov: seq<int>)
    ensures forall k, l :: 0 <= k < l < |Candidates(cov)| ==> Candidates(cov)[k] != Candidates(cov)[l]
  {
    CandidatesSpec(cov);
  }

  /** Every entry of s is an index below n. */
  predicate Indexes(s: seq<nat>, n: int)
  {
    forall k :: 0 <= k < |s| ==> s[k] < n
  }

  /** The rows of `ret` after the selection: one row per selected unit, in order, and zero rows after them. */
  ghost predicate Filled(ret: array2<real>, canvas: seq<Unit>, sel: seq<nat>, p: Placement)
    reads ret
    requires |sel| <= ret.Length0 && ret.Length1 == 5 && Indexes(sel, |canvas|)
  {
    && (forall k, c :: 0 <= k < |sel| && 0 <= c < 5 ==> ret[k, c] == Row(canvas[sel[k]], p)[c])
    && (forall k, c :: |sel| <= k < ret.Length0 && 0 <= c < 5 ==> ret[k, c] == 0.0)
  }

  /** The sample name: the class name, a dash and the in-class id zero-padded to two digits. */
  function Pad2(n: int): (s: string)
    ensures |s| >= 2
  {
    if n < 0 then "-" + Decimal(-n)
    else if n < 10 then "0" + Decimal(n)
    else Decimal(n)
  }

  function FormatName(classname: string, n: int): string
  {
    classname + "-" + Pad2(n)
  }

  /** A name of a dash-free class and a non-negative id parses back into both. */
  lemma NameRoundTrip(classname: string, n: int)
    requires '-' !in classname && n >= 0
    ensures ParseStem(FormatName(classname, n)) == Success((classname, n))
  {
    var digits := Pad2(n);
    assert '-' !in Decimal(n) by {
      assert forall k :: 0 <= k < |Decimal(n)| ==> IsDigit(Decimal(n)[k]);
    }
    assert '-' !in digits;
    SplitTwo(classname, digits);
    ParseDecimal(n);
  }

  /** Up to two digits the id is padded with one zero; from two digits on it is written as is. */
  lemma Pad2Shape(n: int)
    ensures 0 <= n < 10 ==> Pad2(n) == ['0', ('0' as int + n) as char]
    ensures n >= 10 ==> Pad2(n) == Decimal(n)
  {
    if 0 <= n < 10 {
      assert Decimal(n) == [('0' as int + n) as char];
    }
  }

  lemma MulPos(a: real, b: real)
    requires a > 0.0 && b > 0.0
    ensures a * b > 0.0
  {
  }

  /** A positive factor times a square is zero exactly when the square's root is. */
  lemma SquareScaled(k: real, x: real)
    requires k > 0.0
    ensures k * x * x >= 0.0
    ensures k * x * x == 0.0 <==> x == 0.0
  {
    var ax := if x < 0.0 then -x else x;
    assert k * x * x == k * ax * ax;
    if ax > 0.0 {
      MulPos(k, ax);
      MulPos(k * ax, ax);
    }
  }

  class Generator {
    const kind: Kind
    const canvas: seq<Unit>
    const unitSide: real
    const sampleSize: nat

    constructor(kind: Kind, canvas: seq<Unit>, sampleSize: nat, unitSide: real)
      ensures this.kind == kind && this.canvas == canvas
      ensures this.sampleSize == sampleSize && this.unitSide == unitSide
    {
      this.kind := kind;
      this.canvas := canvas;
      this.sampleSize := sampleSize;
      this.unitSide := unitSide;
    }

    /** `area_of_one_unit`: the unit area scaled by the square of the unit side. */
    function AreaOfOneUnit(): (a: real)
      ensures a >= 0.0
      ensures a == 0.0 <==> unitSide == 0.0
    {
      SquareScaled(UnitArea(kind), unitSide);
      UnitArea(kind) * unitSide * unitSide
    }

    /** `density`: units per unit of area; None for a unit side of 0, where numpy gives inf. */
    function Density(): (d: Option<real>)
      ensures d.None? <==> unitSide == 0.0
    {
      if AreaOfOneUnit() == 0.0 then None else Some(1.0 / AreaOfOneUnit())
    }

    /**
     * The area grows with the square of the side and is positive for any
     * non-zero side; density times area is one.
     */
    lemma AreaAndDensity()
      ensures unitSide != 0.0 ==> AreaOfOneUnit() > 0.0
      ensures Density().Some? ==> Density().value * AreaOfOneUnit() == 1.0 && Density().value > 0.0
      ensures AreaOfOneUnit() == UnitArea(kind) * (unitSide * unitSide)
    {
      if unitSide != 0.0 {
        assert unitSide * unitSide > 0.0;
        assert UnitArea(kind) * (unitSide * unitSide) > 0.0;
      }
    }

    /** Doubling the side quarters the density. */
    lemma DensityScales(other: Generator)
      requires other.kind == kind && other.unitSide == 2.0 * unitSide && unitSide != 0.0
      ensures Density().Some? && other.Density().Some?
      ensures other.Density().value * 4.0 == Density().value
    {
      AreaAndDensity();
      other.AreaAndDensity();
      assert other.AreaOfOneUnit() == 4.0 * AreaOfOneUnit();
    }

    /**
     * `get_sample` for a sample already drawn: the coverage of every unit,
     * then `sample_size` rows filled class by class from 4 down to 1.
     */
    method GetSample(sample: Sample, p: Placement, corners: seq<Corners>)
      returns (ret: array2<real>, taken: nat, name: string)
      requires IsRect(sample.mask)
      requires |corners| == |canvas|
      ensures fresh(ret) && ret.Length0 == sampleSize && ret.Length1 == 5
      ensures var cand := Candidates(Coverages(sample.mask, corners));
        && taken == Min(sampleSize, |cand|)
        && Indexes(cand, |canvas|)
        && Filled(ret, canvas, cand[..taken], p)
      ensures name == FormatName(sample.classname, sample.inclassid)
    {
      var coverage := ComputeCoverage(sample.mask, corners);
      ret, taken := Select(coverage[..], p);
      name := FormatName(sample.classname, sample.inclassid);
    }

    /** The class loop of `get_sample`: `sample_size` rows filled from class 4 down to class 1. */
    method Select(cov: seq<int>, p: Placement) returns (ret: array2<real>, taken: nat)
      requires |cov| == |canvas|
      ensures fresh(ret) && ret.Length0 == sampleSize && ret.Length1 == 5
      ensures taken == Min(sampleSize, |Candidates(cov)|)
      ensures Indexes(Candidates(cov), |canvas|)
      ensures Filled(ret, canvas, Candidates(cov)[..taken], p)
    {
      ret := new real[sampleSize, 5]((_, _) => 0.0);
      taken := 0;
      var val := 4;
      assert Upper(cov, 4)[..0] == [];
      while val >= 1
        invariant 0 <= val <= 4 && ret.Length0 == sampleSize && ret.Length1 == 5
        invariant fresh(ret)
        invariant taken == Min(sampleSize, |Upper(cov, val)|)
        invariant Indexes(Upper(cov, val)[..taken], |canvas|)
        invariant Filled(ret, canvas, Upper(cov, val)[..taken], p)
        decreases val
      {
        if taken >= sampleSize {
          break;
        }
        taken := TakeClass(ret, cov, val, taken, p);
        val := val - 1;
      }
      if val >= 1 {
        TakenSaturates(cov, val);
      } else {
        assert val == 0 && Candidates(cov) == Upper(cov, val);
      }
      CandidatesInRange(cov);
    }

    /** `take = sets_idx[val][:sample_size - taken]` and the rows it fills. */
    method TakeClass(ret: array2<real>, cov: seq<int>, val: int, taken: nat, p: Placement) returns (taken': nat)
      requires 1 <= val <= 4 && ret.Length0 == sampleSize && ret.Length1 == 5 && |cov| == |canvas|
      requires taken == Min(sampleSize, |Upper(cov, val)|) && taken < sampleSize
      requires Indexes(Upper(cov, val)[..taken], |canvas|)
      requires Filled(ret, canvas, Upper(cov, val)[..taken], p)
      modifies ret
      ensures taken' == Min(sampleSize, |Upper(cov, val - 1)|)
      ensures Indexes(Upper(cov, val - 1)[..taken'], |canvas|)
      ensures Filled(ret, canvas, Upper(cov, val - 1)[..taken'], p)
    {
      var idxs := ClassIndices(cov, val);
      ClassIndicesSpec(cov, val);
      var take := idxs[..Min(|idxs|, sampleSize - taken)];
      ghost var up := Upper(cov, val);
      assert Upper(cov, val - 1) == up + idxs;
      assert up[..taken] == up;
      FillRows(ret, canvas, up, taken, take, p);
      taken' := taken + |take|;
      assert (up + idxs)[..taken'] == up + take;
    }

    /** Once the buffer is full, the remaining classes change nothing. */
    lemma {:induction false} TakenSaturates(cov: seq<int>, val: int)
      requires 0 <= val <= 4
      requires |Upper(cov, val)| >= sampleSize
      ensures |Upper(cov, 0)| >= sampleSize
      ensures Upper(cov, 0)[..sampleSize] == Upper(cov, val)[..sampleSize]
      decreases val
    {
      if val > 0 {
        assert Upper(cov, val - 1) == Upper(cov, val) + ClassIndices(cov, val);
        TakenSaturates(cov, val - 1);
      }
    }
  }

  /** One class of the loop: the rows after the selected ones receive the rows of the units in `take`. */
  method FillRows(ret: array2<real>, canvas: seq<Unit>, ghost sel: seq<nat>, taken: nat, take: seq<nat>, p: Placement)
    requires ret.Length1 == 5 && taken == |sel| && taken + |take| <= ret.Length0
    requires Indexes(sel, |canvas|) && Indexes(take, |canvas|)
    requires Filled(ret, canvas, sel, p)
    modifies ret
    ensures Indexes(sel + take, |canvas|)
    ensures Filled(ret, canvas, sel + take, p)
  {
    ghost var cand := sel + take;
    assert Indexes(cand, |canvas|) by {
      forall k | 0 <= k < |cand| ensures cand[k] < |canvas| {
        if k < |sel| { assert cand[k] == sel[k]; } else { assert cand[k] == take[k - |sel|]; }
      }
    }
    var j := 0;
    while j < |take|
      invariant 0 <= j <= |take|
      invariant forall k, c :: 0 <= k < taken + j && 0 <= c < 5 ==> ret[k, c] == Row(canvas[cand[k]], p)[c]
      invariant forall k, c :: taken + j <= k < ret.Length0 && 0 <= c < 5 ==> ret[k, c] == 0.0
    {
      assert cand[taken + j] == take[j];
      var row := Row(canvas[take[j]], p);
      var r := taken + j;
      var c := 0;
      while c < 5
        invariant 0 <= c <= 5
        invariant forall k, c' :: 0 <= k < r && 0 <= c' < 5 ==> ret[k, c'] == Row(canvas[cand[k]], p)[c']
        invariant forall c' :: 0 <= c' < c ==> ret[r, c'] == row[c']
        invariant forall c' :: c <= c' < 5 ==> ret[r, c'] == 0.0
        invariant forall k, c' :: r < k < ret.Length0 && 0 <= c' < 5 ==> ret[k, c'] == 0.0
      {
        ret[r, c] := row[c];
        c := c + 1;
      }
      j := j + 1;
    }
  }
}
