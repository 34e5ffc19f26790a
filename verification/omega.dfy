/**
 The generator omega of the ring of integers of Q(sqrt(d)), chosen by `d % 4`.

 An element of Q(sqrt(d)) is written `a + b * sqrt(d)` with rational `a`, `b`;
 `sqrt(d)` stays symbolic, so no floating point enters. The plotter draws
 omega at `(omega_real, omega_imag) = (a, b * sqrt(|d|))`; the factor
 `sqrt(|d|)` is supplied to the geometry as a parameter.

 As with the square-free check, Python's `d % 4` is non-negative, like
 Dafny's, so `-3 % 4 == 1` in both and `d = -3` takes the half branch.
 */
module Omega {

  /** `a + b * sqrt(d)`; `d` is passed to the operations that need it. */
  datatype QuadElem = QuadElem(a: real, b: real)

  function Add(e: QuadElem, f: QuadElem): QuadElem
  {
    QuadElem(e.a + f.a, e.b + f.b)
  }

  function Scale(k: real, e: QuadElem): QuadElem
  {
    QuadElem(k * e.a, k * e.b)
  }

  /** Multiplication in Q(sqrt(d)), using `sqrt(d) * sqrt(d) == d`. */
  function Mul(e: QuadElem, f: QuadElem, d: int): QuadElem
  {
    QuadElem(e.a * f.a + (d as real) * e.b * f.b, e.a * f.b + e.b * f.a)
  }

  /** `e` plus its conjugate `a - b * sqrt(d)`. */
  function Trace(e: QuadElem): real
  {
    2.0 * e.a
  }

  /** `e` times its conjugate. */
  function Norm(e: QuadElem, d: int): real
  {
    e.a * e.a - (d as real) * e.b * e.b
  }

  predicate IsInt(r: real)
  {
    r.Floor as real == r
  }

  /**
   `e` is a root of the monic polynomial `X^2 - Trace(e) X + Norm(e)`; it is an
   algebraic integer when both coefficients are integers.
   */
  predicate IsAlgebraicInteger(e: QuadElem, d: int)
  {
    IsInt(Trace(e)) && IsInt(Norm(e, d))
  }

  /** Every element is a root of its characteristic polynomial. */
  lemma CharacteristicPolynomial(e: QuadElem, d: int)
    ensures Mul(e, e, d) == Add(Scale(Trace(e), e), QuadElem(-Norm(e, d), 0.0))
  {
    var dr := d as real;
    assert 2.0 * e.a * e.a - (e.a * e.a - dr * e.b * e.b) == e.a * e.a + dr * e.b * e.b;
    assert 2.0 * e.a * e.b == e.a * e.b + e.b * e.a;
  }

  /** Which of the two LaTeX labels the script prints for omega. */
  datatype Label = HalfOnePlusRoot | Root

  /** The chosen generator together with its label. */
  datatype Generator = Generator(omega: QuadElem, tex: Label)

  /** `(1 + sqrt(d)) / 2`. */
  const HalfElem: QuadElem := QuadElem(0.5, 0.5)

  /** `sqrt(d)`. */
  const RootElem: QuadElem := QuadElem(0.0, 1.0)

  /**
   The script's choice: `(1 + sqrt(d)) / 2` when `d % 4 == 1`, otherwise
   `sqrt(d)`. So `omega_real` is 1/2 or 0, and `omega_imag` is half of
   `sqrt(|d|)` or all of it.
   */
  function SelectGenerator(d: int): (g: Generator)
    ensures d % 4 == 1 ==> g.omega.a == 0.5 && g.omega.b == 0.5 && g.tex == HalfOnePlusRoot
    ensures d % 4 != 1 ==> g.omega.a == 0.0 && g.omega.b == 1.0 && g.tex == Root
    ensures IsAlgebraicInteger(g.omega, d)
    ensures g.omega.b > 0.0
  {
    if d % 4 == 1 then
      HalfIntegralIff(d);
      Generator(HalfElem, HalfOnePlusRoot)
    else
      RootIntegral(d);
      Generator(RootElem, Root)
  }

  /** `n / 4` is an integer exactly when 4 divides `n`. */
  lemma QuarterIsInt(n: int)
    ensures IsInt(n as real / 4.0) <==> n % 4 == 0
  {
    var q, r := n / 4, n % 4;
    assert n == 4 * q + r && 0 <= r < 4;
    var x := n as real / 4.0;
    assert x == q as real + r as real / 4.0;
    assert q as real <= x < q as real + 1.0;
    assert x.Floor == q;
  }

  /**
   `(1 + sqrt(d)) / 2` is an algebraic integer exactly when `d % 4 == 1`: its
   norm is `(1 - d) / 4`. This is why the script switches on `d % 4`.
   */
  lemma HalfIntegralIff(d: int)
    ensures IsAlgebraicInteger(HalfElem, d) <==> d % 4 == 1
  {
    assert Trace(HalfElem) == 1.0;
    assert Norm(HalfElem, d) == (1 - d) as real / 4.0;
    QuarterIsInt(1 - d);
    OneMinusMod4(d);
  }

  lemma OneMinusMod4(d: int)
    ensures (1 - d) % 4 == 0 <==> d % 4 == 1
  {
    var q, r := d / 4, d % 4;
    assert d == 4 * q + r;
    assert 1 - d == 4 * (-q) + (1 - r);
    if r == 0 {
      assert 1 - d == 4 * (-q) + 1;
    } else {
      assert 1 - d == 4 * (-q - 1) + (5 - r);
    }
  }

  /** `sqrt(d)` is always an algebraic integer: trace 0, norm `-d`. */
  lemma RootIntegral(d: int)
    ensures IsAlgebraicInteger(RootElem, d)
  {
    assert Trace(RootElem) == 0.0;
    assert Norm(RootElem, d) == (-d) as real;
  }

  /** The lattice element `x + y * omega` at index `(x, y)`. */
  function LatticeElem(omega: QuadElem, x: int, y: int): QuadElem
  {
    Add(QuadElem(x as real, 0.0), Scale(y as real, omega))
  }

  /**
   Trace and norm of `x + y * omega` in terms of those of omega:
   `Tr = 2x + y Tr(omega)` and `N = x^2 + x y Tr(omega) + y^2 N(omega)`.
   */
  lemma LatticeElemTraceNorm(omega: QuadElem, d: int, x: int, y: int)
    ensures Trace(LatticeElem(omega, x, y)) == 2.0 * (x as real) + (y as real) * Trace(omega)
    ensures Norm(LatticeElem(omega, x, y), d)
         == (x as real) * (x as real) + (x as real) * (y as real) * Trace(omega)
            + (y as real) * (y as real) * Norm(omega, d)
  {
    var xr, yr, dr := x as real, y as real, d as real;
    var a, b := omega.a, omega.b;
    calc {
      Norm(LatticeElem(omega, x, y), d);
      (xr + yr * a) * (xr + yr * a) - dr * (yr * b) * (yr * b);
      xr * xr + 2.0 * xr * yr * a + yr * yr * (a * a - dr * b * b);
    }
  }

  /**
   Every point the plotter draws is an algebraic integer of Q(sqrt(d)): the
   lattice spanned by 1 and the chosen omega lies in the ring of integers.
   */
  lemma LatticeElemsIntegral(d: int, x: int, y: int)
    ensures IsAlgebraicInteger(LatticeElem(SelectGenerator(d).omega, x, y), d)
  {
    var omega := SelectGenerator(d).omega;
    LatticeElemTraceNorm(omega, d, x, y);
    var t := Trace(omega).Floor;
    var m := Norm(omega, d).Floor;
    var xr, yr := x as real, y as real;
    assert Trace(LatticeElem(omega, x, y)) == (2 * x + y * t) as real;
    assert Norm(LatticeElem(omega, x, y), d) == (x * x + x * y * t + y * y * m) as real;
  }

  /**
   When `d % 4 == 1` the other candidate `sqrt(d) = 2 omega - 1` lies in the
   chosen lattice too, so the script picks the larger of the two orders.
   */
  lemma RootInHalfLattice(d: int)
    requires d % 4 == 1
    ensures LatticeElem(SelectGenerator(d).omega, -1, 2) == RootElem
  {
  }
}
