/**
 The square-free test that guards the plotter.

 The script rejects `d` when some `p` in `range(2, int(sqrt(|d|)) + 1)` has
 `d % p**2 == 0`. Python's `%` with a positive divisor is never negative, which
 is exactly Dafny's Euclidean `%` on `int`, so `d % (p * p) == 0` carries over
 unchanged, negative `d` included. The floating-point `int(np.sqrt(...))` is
 modelled by the exact integer square root `Isqrt`.
 */
module SquareFree {

  /** Integer square root: the largest `r` with `r * r <= n`. */
  function Isqrt(n: nat): (r: nat)
    ensures r * r <= n < (r + 1) * (r + 1)
    decreases n
  {
    if n == 0 then 0
    else
      var s := Isqrt(n / 4);
      IsqrtStep(n, s);
      if (2 * s + 1) * (2 * s + 1) <= n then 2 * s + 1 else 2 * s
  }

  /**
   The step of `Isqrt`: if `s` is the root of `n / 4`, then the root of `n`
   is `2 * s` or `2 * s + 1`.
   */
  lemma IsqrtStep(n: nat, s: nat)
    requires s * s <= n / 4 < (s + 1) * (s + 1)
    ensures (2 * s) * (2 * s) <= n < (2 * s + 2) * (2 * s + 2)
  {
    var q := n / 4;
    assert n == 4 * q + n % 4;
    assert (2 * s) * (2 * s) == 4 * (s * s);
    assert (2 * s + 2) * (2 * s + 2) == 4 * ((s + 1) * (s + 1));
    assert q + 1 <= (s + 1) * (s + 1);
  }

  /** `p * p` divides `d`, for a candidate factor `p >= 2` as the script tries them. */
  predicate SquareDivides(d: int, p: int)
  {
    p >= 2 && d % (p * p) == 0
  }

  /** `d` has no square factor other than 1 (the mathematical notion). */
  ghost predicate IsSquareFree(d: int)
  {
    forall p :: !SquareDivides(d, p)
  }

  /**
   The generator `any(d % p**2 == 0 for p in range(lo, hi + 1))`, tried in
   increasing order of `p`.
   */
  function AnySquareDivides(d: int, lo: int, hi: int): (found: bool)
    requires lo >= 2
    ensures found <==> exists p :: lo <= p <= hi && SquareDivides(d, p)
    decreases hi - lo
  {
    if lo > hi then false
    else if d % (lo * lo) == 0 then
      assert SquareDivides(d, lo);
      true
    else
      var rest := AnySquareDivides(d, lo + 1, hi);
      assert forall p :: lo <= p <= hi && SquareDivides(d, p) ==> p == lo || lo + 1 <= p <= hi;
      rest
  }

  function Abs(d: int): nat
  {
    if d < 0 then -d else d
  }

  /** The bounded search of the script: `true` when it raises `ValueError`. */
  predicate Rejects(d: int)
    ensures Rejects(d) <==> exists p :: 2 <= p && p * p <= Abs(d) && SquareDivides(d, p)
  {
    SearchBoundIsSquareBound(d);
    AnySquareDivides(d, 2, Isqrt(Abs(d)))
  }

  /** For a candidate factor, `p <= Isqrt(|d|)` says the same as `p * p <= |d|`. */
  lemma SearchBoundIsSquareBound(d: int)
    ensures forall p :: SquareDivides(d, p) ==> (p <= Isqrt(Abs(d)) <==> p * p <= Abs(d))
  {
    var r := Isqrt(Abs(d));
    forall p | SquareDivides(d, p)
      ensures p <= r <==> p * p <= Abs(d)
    {
      if p <= r {
        SquareMonotone(p, r);
      } else {
        SquareMonotone(r + 1, p);
      }
    }
  }

  /** A square factor of a nonzero `d` is at most `|d|`. */
  lemma SquareFactorBelowAbs(d: int, p: int)
    requires d != 0 && SquareDivides(d, p)
    ensures p * p <= Abs(d)
  {
    var m := p * p;
    assert m > 0;
    var k := d / m;
    assert d == k * m;
    assert k != 0;
    if k > 0 {
      assert k * m >= m;
    } else {
      assert -d == (-k) * m;
      assert (-k) * m >= m;
    }
  }

  /** Squares are monotone on naturals. */
  lemma SquareMonotone(a: nat, b: nat)
    requires a <= b
    ensures a * a <= b * b
  {
    assert a * a <= a * b;
    assert a * b <= b * b;
  }

  /**
   Completeness of the bounded search: every square factor `p * p` of a
   nonzero `d` has `p <= Isqrt(|d|)`, so stopping there misses nothing.
   */
  lemma SquareFactorWithinSearch(d: int, p: int)
    requires d != 0 && SquareDivides(d, p)
    ensures 2 <= p <= Isqrt(Abs(d))
  {
    SquareFactorBelowAbs(d, p);
    var r := Isqrt(Abs(d));
    if p > r {
      SquareMonotone(r + 1, p);
      assert false;
    }
  }

  /**
   For nonzero `d` the check raises exactly when `d` is not square-free.
   */
  lemma RejectsIffNotSquareFree(d: int)
    requires d != 0
    ensures Rejects(d) <==> !IsSquareFree(d)
  {
    var hi := Isqrt(Abs(d));
    if !IsSquareFree(d) {
      var p :| SquareDivides(d, p);
      SquareFactorWithinSearch(d, p);
      assert 2 <= p <= hi && SquareDivides(d, p);
    }
  }

  /**
   The quirk at the degenerate end: `d` in {-1, 0, 1} gives an empty search
   range and passes, even though 0 is divisible by every square.
   */
  lemma DegenerateValuesPass(d: int)
    requires -1 <= d <= 1
    ensures !Rejects(d)
    ensures d == 0 ==> !IsSquareFree(d)
    ensures d != 0 ==> IsSquareFree(d)
  {
    assert Isqrt(Abs(d)) <= 1 by {
      var r := Isqrt(Abs(d));
      if r >= 2 {
        SquareMonotone(2, r);
      }
    }
    if d == 0 {
      assert SquareDivides(0, 2);
    } else {
      RejectsIffNotSquareFree(d);
    }
  }

  /**
   A nonzero `d` that passes the check is not divisible by 4: `p = 2` would
   have rejected it. Hence the `else` branch of the generator choice only
   ever sees `d % 4` equal to 2 or 3.
   */
  lemma AcceptedNotMultipleOfFour(d: int)
    requires d != 0 && !Rejects(d)
    ensures d % 4 != 0
    ensures d % 4 != 1 ==> d % 4 == 2 || d % 4 == 3
  {
    RejectsIffNotSquareFree(d);
    assert !SquareDivides(d, 2);
  }
}
