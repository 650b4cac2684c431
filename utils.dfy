/**
 * The small numeric helpers of utils.py, over a model of Python's `complex`.
 * A complex number is a pair of reals; floating-point rounding is not modelled.
 */
module Utils {

  /** Python's math.pi, as the shortest decimal literal that rounds to that double. */
  const Pi: real := 3.141592653589793

  datatype Complex = Complex(re: real, im: real)

  const One: Complex := Complex(1.0, 0.0)
  const I: Complex := Complex(0.0, 1.0)

  function Add(u: Complex, v: Complex): Complex { Complex(u.re + v.re, u.im + v.im) }
  function Sub(u: Complex, v: Complex): Complex { Complex(u.re - v.re, u.im - v.im) }
  function Mul(u: Complex, v: Complex): Complex
  {
    Complex(u.re * v.re - u.im * v.im, u.re * v.im + u.im * v.re)
  }
  /** A real times a complex number, `k * v` in Python. */
  function Scale(k: real, v: Complex): Complex { Complex(k * v.re, k * v.im) }
  /** `v.conjugate()` */
  function Conj(v: Complex): Complex { Complex(v.re, -v.im) }
  /** `abs(v) ** 2`: the square of the modulus, which avoids the square root. */
  function SqAbs(v: Complex): real { v.re * v.re + v.im * v.im }

  /** `deg(rad)`: radians to degrees. */
  function Deg(rad: real): real { rad * 180.0 / Pi }

  /** `reim(v)`: the real and imaginary parts as a pair. */
  function ReIm(v: Complex): (p: (real, real))
    ensures Complex(p.0, p.1) == v
  {
    (v.re, v.im)
  }

  /** `cross(u, v)`: the z component of the cross product of u and v seen as plane vectors. */
  function Cross(u: Complex, v: Complex): real { u.re * v.im - u.im * v.re }

  lemma DegZeroAndLinear(a: real, x: real, y: real)
    ensures Deg(0.0) == 0.0
    ensures Deg(a * x + y) == a * Deg(x) + Deg(y)
  {
  }

  lemma CrossAntisymmetric(u: Complex, v: Complex)
    ensures Cross(u, v) == -Cross(v, u)
    ensures Cross(u, u) == 0.0
  {
  }

  /** Counter-clockwise is positive: the unit 1 turned a quarter turn left is i. */
  lemma CrossOrientation()
    ensures Cross(One, I) == 1.0
    ensures Cross(I, One) == -1.0
  {
  }

  lemma CrossBilinear(a: real, u: Complex, w: Complex, v: Complex)
    ensures Cross(Add(Scale(a, u), w), v) == a * Cross(u, v) + Cross(w, v)
    ensures Cross(v, Add(Scale(a, u), w)) == a * Cross(v, u) + Cross(v, w)
  {
  }

  /** Multiplying by a complex number `rot` scales every cross product by |rot|^2. */
  lemma CrossUnderRotation(rot: Complex, u: Complex, v: Complex)
    ensures Cross(Mul(rot, u), Mul(rot, v)) == SqAbs(rot) * Cross(u, v)
  {
  }

  /** Conjugation reverses orientation. */
  lemma CrossUnderConjugation(u: Complex, v: Complex)
    ensures Cross(Conj(u), Conj(v)) == -Cross(u, v)
  {
  }
}
