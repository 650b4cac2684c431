/**
 * pen_base.py: Robinson triangles of the P3 Penrose tiling, their
 * substitution ("inflate") rule, and the PenroseP3 ensemble that applies it.
 *
 * Vertices are complex numbers (pairs of reals). psi = (sqrt(5) - 1) / 2 is
 * irrational; the model uses the shortest decimal literal that rounds to the
 * double Python computes, so psi * psi equals 1 - psi only to within 1e-15.
 */
module PenBase {

  import opened Utils

  /** `TOL`: two centres closer than this are the same point. */
  const Tol: real := 0.00001
  /** `psi`, 1 / phi. */
  const Psi: real := 0.6180339887498949
  /** `psi2 = 1 - psi`. */
  const Psi2: real := 1.0 - Psi

  /** psi and psi2 are complementary weights in (0, 1), and psi2 is psi squared up to rounding. */
  lemma PsiFacts()
    ensures Psi + Psi2 == 1.0
    ensures 0.0 < Psi2 < Psi < 1.0
    ensures -0.000000000000001 < Psi * Psi - Psi2 < 0.000000000000001
  {
  }

  // ---------------------------------------------------------------------
  // Triangles

  /** A and C are on the base, B is the apex. Fatt is the "B_L" tile, Thin the "B_S" tile. */
  datatype Triangle = Fatt(A: Complex, B: Complex, C: Complex) | Thin(A: Complex, B: Complex, C: Complex)

  /** A triangle of the same variant (`self.__class__`) with other vertices. */
  function WithVertices(t: Triangle, a: Complex, b: Complex, c: Complex): (u: Triangle)
    ensures u.Fatt? == t.Fatt? && u.A == a && u.B == b && u.C == c
  {
    match t
    case Fatt(_, _, _) => Fatt(a, b, c)
    case Thin(_, _, _) => Thin(a, b, c)
  }

  /** `centre()`: the midpoint of the base AC. */
  function Centre(t: Triangle): (m: Complex)
    ensures Add(m, m) == Add(t.A, t.C)
    ensures SqAbs(Sub(m, t.A)) == SqAbs(Sub(m, t.C))
  {
    Scale(0.5, Add(t.A, t.C))
  }

  /** `conjugate()`: the reflection of the triangle about the x-axis. */
  function Conjugate(t: Triangle): Triangle
  {
    WithVertices(t, Conj(t.A), Conj(t.B), Conj(t.C))
  }

  lemma ConjugateInvolution(t: Triangle)
    ensures Conjugate(t).Fatt? == t.Fatt?
    ensures Conjugate(Conjugate(t)) == t
    ensures Centre(Conjugate(t)) == Conj(Centre(t))
  {
  }

  // ---------------------------------------------------------------------
  // Substitution

  /** The point at fraction w of the way from p to q: (1 - w) p + w q. */
  function Lerp(p: Complex, q: Complex, w: real): Complex
  {
    Add(Scale(1.0 - w, p), Scale(w, q))
  }

  /**
   * `inflate()`: a Fatt becomes [Fatt(D, E, A), Thin(E, D, B), Fatt(C, D, B)]
   * with D = psi2 A + psi C and E = psi2 A + psi B; a Thin becomes
   * [Thin(D, C, A), Fatt(C, D, B)] with D = psi A + psi2 B.
   */
  function InflateTile(t: Triangle): (children: seq<Triangle>)
    ensures t.Fatt? ==> |children| == 3 && children[0].Fatt? && children[1].Thin? && children[2].Fatt?
    ensures t.Thin? ==> |children| == 2 && children[0].Thin? && children[1].Fatt?
  {
    match t
    case Fatt(a, b, c) =>
      var d := Add(Scale(Psi2, a), Scale(Psi, c));
      var e := Add(Scale(Psi2, a), Scale(Psi, b));
      [Fatt(d, e, a), Thin(e, d, b), Fatt(c, d, b)]
    case Thin(a, b, c) =>
      var d := Add(Scale(Psi, a), Scale(Psi2, b));
      [Thin(d, c, a), Fatt(c, d, b)]
  }

  /**
   * The new vertices lie on the old edges and cut them in the golden ratio:
   * for a Fatt, D is psi of the way from A to C (and psi2 of it is left to
   * C), and E is psi of the way from A to B; for a Thin, D is psi2 of the way
   * from A to B. Every child is made of new vertices and old ones, in this order.
   */
  lemma InflateTileGeometry(t: Triangle)
    ensures t.Fatt? ==>
      var ch := InflateTile(t);
      |ch| == 3 && ch[0].Fatt? && ch[1].Thin? && ch[2].Fatt? &&
      var d, e := ch[0].A, ch[0].B;
      Sub(d, t.A) == Scale(Psi, Sub(t.C, t.A)) && Sub(t.C, d) == Scale(Psi2, Sub(t.C, t.A)) &&
      Sub(e, t.A) == Scale(Psi, Sub(t.B, t.A)) && Sub(t.B, e) == Scale(Psi2, Sub(t.B, t.A)) &&
      ch[0].C == t.A && ch[1] == Thin(e, d, t.B) && ch[2] == Fatt(t.C, d, t.B)
    ensures t.Thin? ==>
      var ch := InflateTile(t);
      |ch| == 2 && ch[0].Thin? && ch[1].Fatt? &&
      var d := ch[0].A;
      Sub(d, t.A) == Scale(Psi2, Sub(t.B, t.A)) && Sub(t.B, d) == Scale(Psi, Sub(t.B, t.A)) &&
      ch[0].B == t.C && ch[0].C == t.A && ch[1] == Fatt(t.C, d, t.B)
  {
  }

  // ---------------------------------------------------------------------
  // Linear maps of the plane: rotation and the two reflections

  /** The real-linear map v |-> (a re + b im) + (c re + d im) i. */
  datatype Linear = Linear(a: real, b: real, c: real, d: real)

  function Apply(m: Linear, v: Complex): Complex
  {
    Complex(m.a * v.re + m.b * v.im, m.c * v.re + m.d * v.im)
  }

  /** Multiplication by rot, as a matrix. */
  function RotationBy(rot: Complex): Linear { Linear(rot.re, -rot.im, rot.im, rot.re) }
  /** Reflection about the x-axis. */
  const MirrorX: Linear := Linear(1.0, 0.0, 0.0, -1.0)
  /** Reflection about the y-axis. */
  const MirrorY: Linear := Linear(-1.0, 0.0, 0.0, 1.0)

  function Transform(t: Triangle, m: Linear): Triangle
  {
    WithVertices(t, Apply(m, t.A), Apply(m, t.B), Apply(m, t.C))
  }

  function TransformAll(s: seq<Triangle>, m: Linear): (r: seq<Triangle>)
    ensures |r| == |s|
  {
    seq(|s|, i requires 0 <= i < |s| => Transform(s[i], m))
  }

  /** `e.A *= rot` on every vertex. */
  function RotateTile(t: Triangle, rot: Complex): Triangle
  {
    WithVertices(t, Mul(t.A, rot), Mul(t.B, rot), Mul(t.C, rot))
  }

  /** `complex(-v.real, v.imag)` on every vertex. */
  function FlipYTile(t: Triangle): Triangle
  {
    WithVertices(t, Complex(-t.A.re, t.A.im), Complex(-t.B.re, t.B.im), Complex(-t.C.re, t.C.im))
  }

  /** Complex multiplication by rot is the matrix RotationBy(rot). */
  lemma MulIsRotation(v: Complex, rot: Complex)
    ensures Mul(v, rot) == Apply(RotationBy(rot), v)
  {
    assert v.re * rot.re - v.im * rot.im == rot.re * v.re + -rot.im * v.im;
    assert v.re * rot.im + v.im * rot.re == rot.im * v.re + rot.re * v.im;
  }

  /** Rotation, flip_y and flip_x (conjugation) are the linear maps above. */
  lemma VertexMapsAreLinear(t: Triangle, rot: Complex)
    ensures RotateTile(t, rot) == Transform(t, RotationBy(rot))
    ensures FlipYTile(t) == Transform(t, MirrorY)
    ensures Conjugate(t) == Transform(t, MirrorX)
  {
    MulIsRotation(t.A, rot);
    MulIsRotation(t.B, rot);
    MulIsRotation(t.C, rot);
  }

  /** A linear map distributes over a sum. */
  lemma ApplyAdd(m: Linear, u: Complex, w: Complex)
    ensures Apply(m, Add(u, w)) == Add(Apply(m, u), Apply(m, w))
  {
    assert m.a * (u.re + w.re) == m.a * u.re + m.a * w.re;
    assert m.b * (u.im + w.im) == m.b * u.im + m.b * w.im;
    assert m.c * (u.re + w.re) == m.c * u.re + m.c * w.re;
    assert m.d * (u.im + w.im) == m.d * u.im + m.d * w.im;
  }

  /** A linear map commutes with scaling. */
  lemma ApplyScale(m: Linear, x: real, u: Complex)
    ensures Apply(m, Scale(x, u)) == Scale(x, Apply(m, u))
  {
    assert m.a * (x * u.re) + m.b * (x * u.im) == x * (m.a * u.re + m.b * u.im);
    assert m.c * (x * u.re) + m.d * (x * u.im) == x * (m.c * u.re + m.d * u.im);
  }

  lemma ApplyCombination(m: Linear, x: real, p: Complex, y: real, q: Complex)
    ensures Apply(m, Add(Scale(x, p), Scale(y, q))) == Add(Scale(x, Apply(m, p)), Scale(y, Apply(m, q)))
  {
    ApplyAdd(m, Scale(x, p), Scale(y, q));
    ApplyScale(m, x, p);
    ApplyScale(m, y, q);
  }

  /**
   * Substitution commutes with every linear map of the plane: inflating a
   * rotated or reflected tile gives the rotated or reflected children.
   */
  lemma {:induction false} InflateCommutes(t: Triangle, m: Linear)
    ensures InflateTile(Transform(t, m)) == TransformAll(InflateTile(t), m)
  {
    match t
    case Fatt(a, b, c) =>
      ApplyCombination(m, Psi2, a, Psi, c);
      ApplyCombination(m, Psi2, a, Psi, b);
    case Thin(a, b, c) =>
      ApplyCombination(m, Psi, a, Psi2, b);
  }

  /** Complex multiplication is associative. */
  lemma MulAssoc(v: Complex, u: Complex, w: Complex)
    ensures Mul(Mul(v, u), w) == Mul(v, Mul(u, w))
  {
    var vu, uw := Mul(v, u), Mul(u, w);
    assert vu.re * w.re - vu.im * w.im == v.re * uw.re - v.im * uw.im;
    assert vu.re * w.im + vu.im * w.re == v.re * uw.im + v.im * uw.re;
  }

  /** flip_x and flip_y undo themselves, and doing both is a half turn. */
  lemma FlipLaws(t: Triangle)
    ensures Conjugate(Conjugate(t)) == t
    ensures FlipYTile(FlipYTile(t)) == t
    ensures FlipYTile(Conjugate(t)) == RotateTile(t, Complex(-1.0, 0.0))
  {
    VertexMapsAreLinear(t, Complex(-1.0, 0.0));
  }

  /** Two rotations make one rotation by the product. */
  lemma RotateCompose(t: Triangle, u: Complex, w: Complex)
    ensures RotateTile(RotateTile(t, u), w) == RotateTile(t, Mul(u, w))
  {
    MulAssoc(t.A, u, w);
    MulAssoc(t.B, u, w);
    MulAssoc(t.C, u, w);
  }

  // ---------------------------------------------------------------------
  // A round of substitution over a list of tiles

  /** The children of every tile, in the order of their parents. */
  function InflateAll(s: seq<Triangle>): seq<Triangle>
  {
    if |s| == 0 then [] else InflateAll(s[..|s| - 1]) + InflateTile(s[|s| - 1])
  }

  /** `inflate(times)` on a list: times rounds of InflateAll. */
  function InflateTimes(s: seq<Triangle>, times: nat): seq<Triangle>
  {
    if times == 0 then s else InflateAll(InflateTimes(s, times - 1))
  }

  function FatCount(s: seq<Triangle>): nat
  {
    if |s| == 0 then 0 else FatCount(s[..|s| - 1]) + (if s[|s| - 1].Fatt? then 1 else 0)
  }

  function ThinCount(s: seq<Triangle>): nat
  {
    if |s| == 0 then 0 else ThinCount(s[..|s| - 1]) + (if s[|s| - 1].Thin? then 1 else 0)
  }

  lemma {:induction false} CountsAppend(s: seq<Triangle>, t: seq<Triangle>)
    ensures FatCount(s + t) == FatCount(s) + FatCount(t)
    ensures ThinCount(s + t) == ThinCount(s) + ThinCount(t)
    ensures FatCount(s) + ThinCount(s) == |s|
    decreases |t|
  {
    if |t| == 0 {
      assert s + t == s;
      CountsTotal(s);
    } else {
      assert (s + t)[..|s + t| - 1] == s + t[..|t| - 1];
      CountsAppend(s, t[..|t| - 1]);
    }
  }

  lemma {:induction false} CountsTotal(s: seq<Triangle>)
    ensures FatCount(s) + ThinCount(s) == |s|
  {
    if |s| > 0 {
      CountsTotal(s[..|s| - 1]);
    }
  }

  /** Children are listed parent by parent: InflateAll distributes over concatenation. */
  lemma {:induction false} InflateAllAppend(s: seq<Triangle>, t: seq<Triangle>)
    ensures InflateAll(s + t) == InflateAll(s) + InflateAll(t)
    decreases |t|
  {
    if |t| == 0 {
      assert s + t == s;
    } else {
      assert (s + t)[..|s + t| - 1] == s + t[..|t| - 1];
      InflateAllAppend(s, t[..|t| - 1]);
    }
  }

  /**
   * One round: every Fatt yields two Fatts and a Thin, every Thin a Fatt and a
   * Thin, so Fat' = 2 Fat + Thin, Thin' = Fat + Thin and the length is 3 Fat + 2 Thin.
   */
  lemma {:induction false} InflateAllCounts(s: seq<Triangle>)
    ensures FatCount(InflateAll(s)) == 2 * FatCount(s) + ThinCount(s)
    ensures ThinCount(InflateAll(s)) == FatCount(s) + ThinCount(s)
    ensures |InflateAll(s)| == 3 * FatCount(s) + 2 * ThinCount(s)
    ensures 2 * |s| <= |InflateAll(s)| <= 3 * |s|
  {
    CountsTotal(s);
    if |s| > 0 {
      var init, last := s[..|s| - 1], s[|s| - 1];
      InflateAllCounts(init);
      CountsAppend(InflateAll(init), InflateTile(last));
      TileCounts(last);
      CountsTotal(init);
    }
  }

  /** The children of one tile: two Fatts and a Thin for a Fatt, a Thin and a Fatt for a Thin. */
  lemma TileCounts(t: Triangle)
    ensures FatCount(InflateTile(t)) == if t.Fatt? then 2 else 1
    ensures ThinCount(InflateTile(t)) == 1
    ensures |InflateTile(t)| == if t.Fatt? then 3 else 2
  {
    var kids := InflateTile(t);
    if t.Fatt? {
      assert kids == [kids[0]] + [kids[1]] + [kids[2]];
      CountsAppend([kids[0]] + [kids[1]], [kids[2]]);
      CountsAppend([kids[0]], [kids[1]]);
      SingleCounts(kids[0]);
      SingleCounts(kids[1]);
      SingleCounts(kids[2]);
    } else {
      assert kids == [kids[0]] + [kids[1]];
      CountsAppend([kids[0]], [kids[1]]);
      SingleCounts(kids[0]);
      SingleCounts(kids[1]);
    }
  }

  lemma SingleCounts(t: Triangle)
    ensures FatCount([t]) == (if t.Fatt? then 1 else 0)
    ensures ThinCount([t]) == (if t.Thin? then 1 else 0)
  {
    assert [t][..0] == [];
  }

  /** A round of substitution commutes with rotating or reflecting the whole list. */
  lemma {:induction false} InflateAllCommutes(s: seq<Triangle>, m: Linear)
    ensures InflateAll(TransformAll(s, m)) == TransformAll(InflateAll(s), m)
  {
    if |s| > 0 {
      var init := s[..|s| - 1];
      assert TransformAll(s, m)[..|s| - 1] == TransformAll(init, m);
      InflateAllCommutes(init, m);
      InflateCommutes(s[|s| - 1], m);
      assert TransformAll(InflateAll(s), m) == TransformAll(InflateAll(init), m) + TransformAll(InflateTile(s[|s| - 1]), m);
    }
  }

  // ---------------------------------------------------------------------
  // Sorting by centre and the mirror-image scan

  /** The sort key (centre.real, centre.imag), compared lexicographically. */
  predicate CentreLe(t: Triangle, u: Triangle)
  {
    var x, y := Centre(t), Centre(u);
    x.re < y.re || (x.re == y.re && x.im <= y.im)
  }

  predicate SortedByCentre(s: seq<Triangle>)
  {
    forall i, j :: 0 <= i < j < |s| ==> CentreLe(s[i], s[j])
  }

  /** Insert x behind every element whose key is not greater. */
  function InsertByCentre(s: seq<Triangle>, x: Triangle): (r: seq<Triangle>)
    ensures multiset(r) == multiset(s) + multiset{x}
    ensures |r| == |s| + 1
  {
    if |s| == 0 then [x]
    else if CentreLe(s[|s| - 1], x) then s + [x]
    else
      var init := s[..|s| - 1];
      assert s == init + [s[|s| - 1]];
      InsertByCentre(init, x) + [s[|s| - 1]]
  }

  lemma {:induction false} InsertSorted(s: seq<Triangle>, x: Triangle)
    requires SortedByCentre(s)
    ensures SortedByCentre(InsertByCentre(s, x))
  {
    if |s| > 0 && !CentreLe(s[|s| - 1], x) {
      var init, last := s[..|s| - 1], s[|s| - 1];
      var r' := InsertByCentre(init, x);
      InsertSorted(init, x);
      InsertMembers(init, x);
      forall y | y in r'
        ensures CentreLe(y, last)
      {
        if y != x {
          var j :| 0 <= j < |init| && init[j] == y;
          assert s[j] == y;
        }
      }
      var r := r' + [last];
      forall i, j | 0 <= i < j < |r|
        ensures CentreLe(r[i], r[j])
      {
        if j == |r| - 1 {
          assert r[i] in r';
        }
      }
    }
  }

  /** Inserting x adds x and nothing else. */
  lemma {:induction false} InsertMembers(s: seq<Triangle>, x: Triangle)
    ensures forall y :: y in InsertByCentre(s, x) ==> y == x || y in s
  {
    if |s| > 0 && !CentreLe(s[|s| - 1], x) {
      var init := s[..|s| - 1];
      InsertMembers(init, x);
      assert forall y :: y in init ==> y in s;
    }
  }

  /** `sorted(elements, key=centre)`: a stable sort by centre (see SortStable). */
  function SortByCentre(s: seq<Triangle>): (r: seq<Triangle>)
    ensures SortedByCentre(r)
    ensures multiset(r) == multiset(s)
    ensures |r| == |s|
  {
    if |s| == 0 then []
    else
      assert s == s[..|s| - 1] + [s[|s| - 1]];
      InsertSorted(SortByCentre(s[..|s| - 1]), s[|s| - 1]);
      InsertByCentre(SortByCentre(s[..|s| - 1]), s[|s| - 1])
  }

  /** The elements of s whose centre is c, in the order of s. */
  function WithCentre(s: seq<Triangle>, c: Complex): seq<Triangle>
  {
    if |s| == 0 then []
    else WithCentre(s[..|s| - 1], c) + (if Centre(s[|s| - 1]) == c then [s[|s| - 1]] else [])
  }

  lemma {:induction false} WithCentreAppend(a: seq<Triangle>, b: seq<Triangle>, c: Complex)
    ensures WithCentre(a + b, c) == WithCentre(a, c) + WithCentre(b, c)
  {
    if |b| == 0 {
      assert a + b == a;
    } else {
      var init := b[..|b| - 1];
      assert (a + b)[..|a + b| - 1] == a + init;
      assert (a + b)[|a + b| - 1] == b[|b| - 1];
      WithCentreAppend(a, init, c);
    }
  }

  lemma WithCentreSingle(t: Triangle, c: Complex)
    ensures WithCentre([t], c) == if Centre(t) == c then [t] else []
  {
    assert [t][..0] == [];
  }

  /** Triangles with equal centres are in order both ways. */
  lemma CentreLeReflexive(t: Triangle, u: Triangle)
    ensures Centre(t) == Centre(u) ==> CentreLe(t, u)
  {
  }

  lemma SwapEmptyTail(a: seq<Triangle>, b: seq<Triangle>, e: seq<Triangle>)
    requires b == [] || e == []
    ensures (a + b) + e == (a + e) + b
  {
    if b == [] {
      assert a + b == a;
    } else {
      assert a + e == a;
    }
  }

  /** Moving an element with another centre behind the ones with centre c. */
  lemma WithCentreBefore(r': seq<Triangle>, init: seq<Triangle>, x: Triangle, last: Triangle, c: Complex)
    requires WithCentre(r', c) == WithCentre(init, c) + WithCentre([x], c)
    requires Centre(last) != Centre(x)
    ensures WithCentre(r' + [last], c) == WithCentre(init + [last], c) + WithCentre([x], c)
  {
    WithCentreAppend(r', [last], c);
    WithCentreAppend(init, [last], c);
    WithCentreSingle(x, c);
    WithCentreSingle(last, c);
    SwapEmptyTail(WithCentre(init, c), WithCentre([x], c), WithCentre([last], c));
  }

  /** Insertion puts x behind every element with the same centre. */
  lemma {:induction false} InsertWithCentre(s: seq<Triangle>, x: Triangle, c: Complex)
    ensures WithCentre(InsertByCentre(s, x), c) == WithCentre(s, c) + WithCentre([x], c)
  {
    if |s| == 0 {
    } else if CentreLe(s[|s| - 1], x) {
      WithCentreAppend(s, [x], c);
    } else {
      var init, last := s[..|s| - 1], s[|s| - 1];
      assert s == init + [last];
      var r' := InsertByCentre(init, x);
      assert InsertByCentre(s, x) == r' + [last];
      InsertWithCentre(init, x, c);
      CentreLeReflexive(last, x);
      WithCentreBefore(r', init, x, last, c);
    }
  }

  /**
   * `sorted` is stable: the triangles with any one centre keep the order
   * they had in the input, so of two mirror images the earlier one comes first.
   */
  lemma {:induction false} SortStable(s: seq<Triangle>, c: Complex)
    ensures WithCentre(SortByCentre(s), c) == WithCentre(s, c)
  {
    if |s| > 0 {
      SortStable(s[..|s| - 1], c);
      InsertWithCentre(SortByCentre(s[..|s| - 1]), s[|s| - 1], c);
    }
  }

  /** `abs(u.centre() - t.centre()) <= TOL`, compared on squares. */
  predicate Near(t: Triangle, u: Triangle)
  {
    SqAbs(Sub(Centre(t), Centre(u))) <= Tol * Tol
  }

  /**
   * The scan of remove_mirror_images: keep the first element, then element
   * i + 1 exactly when its centre is not near that of element i.
   */
  function Dedup(s: seq<Triangle>): (r: seq<Triangle>)
    requires |s| >= 1
    ensures 1 <= |r| <= |s|
    ensures r[0] == s[0]
  {
    if |s| == 1 then [s[0]]
    else
      var init := s[..|s| - 1];
      assert s == init + [s[|s| - 1]];
      Dedup(init) + if Near(s[|s| - 1], s[|s| - 2]) then [] else [s[|s| - 1]]
  }

  /** The scan only drops elements: what it keeps is a sub-multiset of its input. */
  lemma {:induction false} DedupSubMultiset(s: seq<Triangle>)
    requires |s| >= 1
    ensures multiset(Dedup(s)) <= multiset(s)
  {
    if |s| > 1 {
      var init := s[..|s| - 1];
      DedupSubMultiset(init);
      assert s == init + [s[|s| - 1]];
    }
  }

  /** One more step of the scan: the prefix of length i + 2 adds element i + 1 unless it is near element i. */
  lemma DedupStep(s: seq<Triangle>, i: nat)
    requires i + 1 < |s|
    ensures Dedup(s[..i + 2]) == Dedup(s[..i + 1]) + if Near(s[i + 1], s[i]) then [] else [s[i + 1]]
  {
    var w := s[..i + 2];
    assert w[..i + 1] == s[..i + 1];
    assert w[i + 1] == s[i + 1] && w[i] == s[i];
  }

  /** The loop of remove_mirror_images over the sorted list. */
  method ScanDedup(s: seq<Triangle>) returns (kept: seq<Triangle>)
    requires |s| >= 1
    ensures kept == Dedup(s)
  {
    kept := [s[0]];
    var i := 0;
    while i < |s| - 1
      invariant 0 <= i <= |s| - 1
      invariant kept == Dedup(s[..i + 1])
    {
      DedupStep(s, i);
      kept := kept + if Near(s[i + 1], s[i]) then [] else [s[i + 1]];
      i := i + 1;
    }
    assert s[..|s|] == s;
  }

  /** The number of neighbouring pairs whose centres are far apart. */
  function FarPairs(s: seq<Triangle>): nat
  {
    if |s| <= 1 then 0
    else FarPairs(s[..|s| - 1]) + if Near(s[|s| - 1], s[|s| - 2]) then 0 else 1
  }

  /**
   * The keep/drop rule: the first element and then one element per far pair
   * survive (DedupCount); nothing is dropped when no two neighbours are near
   * (DedupAllFar), and everything but the first goes when every element is
   * near its predecessor (DedupAllNear).
   */
  lemma {:induction false} DedupCount(s: seq<Triangle>)
    requires |s| >= 1
    ensures |Dedup(s)| == 1 + FarPairs(s)
  {
    if |s| > 1 {
      DedupCount(s[..|s| - 1]);
    }
  }

  lemma DedupAllFar(s: seq<Triangle>)
    requires |s| >= 1
    requires forall i :: 0 <= i < |s| - 1 ==> !Near(s[i + 1], s[i])
    ensures Dedup(s) == s
  {
    DedupPrefixFar(s, |s|);
    assert s[..|s|] == s;
  }

  /** Every prefix of a list whose neighbours are all far apart is kept whole. */
  lemma {:induction false} DedupPrefixFar(s: seq<Triangle>, k: nat)
    requires 1 <= k <= |s|
    requires forall i :: 0 <= i < |s| - 1 ==> !Near(s[i + 1], s[i])
    ensures Dedup(s[..k]) == s[..k]
  {
    if k == 1 {
      assert s[..1] == [s[0]];
    } else {
      DedupPrefixFar(s, k - 1);
      DedupStep(s, k - 2);
      assert s[..k] == s[..k - 1] + [s[k - 1]];
    }
  }

  lemma {:induction false} DedupAllNear(s: seq<Triangle>)
    requires |s| >= 1
    requires forall i :: 0 <= i < |s| - 1 ==> Near(s[i + 1], s[i])
    ensures Dedup(s) == [s[0]]
  {
    if |s| > 1 {
      var init := s[..|s| - 1];
      forall i | 0 <= i < |init| - 1
        ensures Near(init[i + 1], init[i])
      {
        assert init[i + 1] == s[i + 1];
      }
      DedupAllNear(init);
      assert Near(s[|s| - 1], s[|s| - 2]);
    }
  }

  /** The scan of a sorted list starts at the smallest centre. */
  lemma FirstKeptIsSmallest(s: seq<Triangle>)
    requires |s| >= 1
    ensures forall t :: t in s ==> CentreLe(Dedup(SortByCentre(s))[0], t)
  {
    var sorted := SortByCentre(s);
    forall t | t in s
      ensures CentreLe(sorted[0], t)
    {
      assert t in multiset(sorted);
      var j :| 0 <= j < |sorted| && sorted[j] == t;
      if j > 0 {
        assert CentreLe(sorted[0], sorted[j]);
      }
    }
  }

  function Conjugates(s: seq<Triangle>): (r: seq<Triangle>)
    ensures |r| == |s|
  {
    seq(|s|, i requires 0 <= i < |s| => Conjugate(s[i]))
  }

  /** A list extended by its mirror image is mirror-symmetric: conjugating it swaps its halves. */
  lemma ConjugatesSymmetric(s: seq<Triangle>)
    ensures Conjugates(s + Conjugates(s)) == Conjugates(s) + s
    ensures multiset(Conjugates(s + Conjugates(s))) == multiset(s + Conjugates(s))
  {
    var e := s + Conjugates(s);
    forall i | 0 <= i < |e|
      ensures Conjugates(e)[i] == (Conjugates(s) + s)[i]
    {
      if i >= |s| {
        ConjugateInvolution(s[i - |s|]);
      }
    }
    assert Conjugates(e) == Conjugates(s) + s;
  }

  // ---------------------------------------------------------------------
  // The tiling ensemble

  /** `PenroseP3`: a list of tiles changed in place by its methods. */
  class PenroseP3 {
    var elements: seq<Triangle>

    constructor(initialTiles: seq<Triangle>)
      ensures elements == initialTiles
    {
      elements := initialTiles;
    }

    /** `inflate(times)`: times rounds of substitution; times <= 0 changes nothing. */
    method Inflate(times: int)
      modifies this
      ensures elements == InflateTimes(old(elements), if times > 0 then times else 0)
    {
      var round := 0;
      while round < times
        invariant 0 <= round && (round <= times || round == 0)
        invariant elements == InflateTimes(old(elements), round)
      {
        var newElements: seq<Triangle> := [];
        var i := 0;
        while i < |elements|
          invariant 0 <= i <= |elements|
          invariant newElements == InflateAll(elements[..i])
        {
          assert elements[..i + 1][..i] == elements[..i];
          newElements := newElements + InflateTile(elements[i]);
          i := i + 1;
        }
        assert elements[..|elements|] == elements;
        elements := newElements;
        round := round + 1;
      }
    }

    /** `add_conjugate_elements()`: append the conjugate of every tile, in order. */
    method AddConjugateElements()
      modifies this
      ensures elements == old(elements) + Conjugates(old(elements))
    {
      var mirrored: seq<Triangle> := [];
      var i := 0;
      while i < |elements|
        invariant 0 <= i <= |elements|
        invariant mirrored == Conjugates(elements[..i])
      {
        mirrored := mirrored + [Conjugate(elements[i])];
        i := i + 1;
      }
      assert elements[..|elements|] == elements;
      elements := elements + mirrored;
    }

    /** `rotate(theta)` with rot = cos(theta) + i sin(theta) given: every vertex times rot. */
    method Rotate(rot: Complex)
      modifies this
      ensures |elements| == |old(elements)|
      ensures forall i :: 0 <= i < |elements| ==> elements[i] == RotateTile(old(elements)[i], rot)
    {
      var i := 0;
      while i < |elements|
        invariant 0 <= i <= |elements| == |old(elements)|
        invariant forall k :: 0 <= k < i ==> elements[k] == RotateTile(old(elements)[k], rot)
        invariant forall k :: i <= k < |elements| ==> elements[k] == old(elements)[k]
      {
        elements := elements[i := RotateTile(elements[i], rot)];
        i := i + 1;
      }
    }

    /** `flip_y()`: negate the real part of every vertex. */
    method FlipY()
      modifies this
      ensures |elements| == |old(elements)|
      ensures forall i :: 0 <= i < |elements| ==> elements[i] == FlipYTile(old(elements)[i])
    {
      var i := 0;
      while i < |elements|
        invariant 0 <= i <= |elements| == |old(elements)|
        invariant forall k :: 0 <= k < i ==> elements[k] == FlipYTile(old(elements)[k])
        invariant forall k :: i <= k < |elements| ==> elements[k] == old(elements)[k]
      {
        elements := elements[i := FlipYTile(elements[i])];
        i := i + 1;
      }
    }

    /** `flip_x()`: conjugate every vertex. */
    method FlipX()
      modifies this
      ensures elements == Conjugates(old(elements))
    {
      var i := 0;
      while i < |elements|
        invariant 0 <= i <= |elements| == |old(elements)|
        invariant forall k :: 0 <= k < i ==> elements[k] == Conjugate(old(elements)[k])
        invariant forall k :: i <= k < |elements| ==> elements[k] == old(elements)[k]
      {
        elements := elements[i := Conjugate(elements[i])];
        i := i + 1;
      }
    }

    /**
     * `remove_mirror_images()`: sort by centre, then keep each tile whose
     * centre is more than TOL from its predecessor's. On an empty list
     * `selements[0]` raises; the model reports that as ok == false and
     * leaves the list unchanged.
     */
    method RemoveMirrorImages() returns (ok: bool)
      modifies this
      ensures ok <==> |old(elements)| > 0
      ensures !ok ==> elements == old(elements)
      ensures ok ==> elements == Dedup(SortByCentre(old(elements)))
    {
      if |elements| == 0 {
        return false;
      }
      var selements := SortByCentre(elements);
      var kept := ScanDedup(selements);
      elements := kept;
      ok := true;
    }
  }
}
