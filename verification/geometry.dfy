/**
 Where the plotter puts things in the plane.

 The index pair `(x, y)` is drawn at `(x + omega_real * y, omega_imag * y)`,
 where `omega_real` is the rational part `a` of omega and `omega_imag` is
 `b * sqrt(|d|)`. The two numbers form a `Frame`, built from omega and the
 value `root` of `sqrt(|d|)`.
 */
module Geometry {
  import opened Omega
  import opened Lattice

  datatype Point = Point(x: real, y: real)

  function Minus(u: Point, v: Point): Point
  {
    Point(u.x - v.x, u.y - v.y)
  }

  function Plus(u: Point, v: Point): Point
  {
    Point(u.x + v.x, u.y + v.y)
  }

  /** The pair `(omega_real, omega_imag)`: where omega is drawn. */
  datatype Frame = Frame(re: real, im: real)

  /**
   `omega_real` and `omega_imag` for a generator: `(1/2, root/2)` for
   `(1 + sqrt(d))/2` and `(0, root)` for `sqrt(d)`, where `root` is the
   value of `sqrt(|d|)`.
   */
  function FrameOf(omega: QuadElem, root: real): (f: Frame)
    ensures omega == HalfElem ==> f == Frame(0.5, root / 2.0)
    ensures omega == RootElem ==> f == Frame(0.0, root)
  {
    Frame(omega.a, omega.b * root)
  }

  /** Omega is drawn above the horizontal axis when both factors of its height are positive. */
  lemma FrameHeightPositive(omega: QuadElem, root: real)
    requires omega.b > 0.0 && root > 0.0
    ensures FrameOf(omega, root).im > 0.0
  {
  }

  /**
   The plotted coordinates of the lattice point with index `p`: index
   `(1, 0)` goes to `1`, index `(0, 1)` to omega, and the row `y == 0` to the
   integers on the horizontal axis.
   */
  function Image(f: Frame, p: Index): (pt: Point)
    ensures p == Index(1, 0) ==> pt == Point(1.0, 0.0)
    ensures p == Index(0, 1) ==> pt == Point(f.re, f.im)
    ensures p.y == 0 ==> pt == Point(p.x as real, 0.0)
  {
    Point(p.x as real + f.re * (p.y as real), f.im * (p.y as real))
  }

  /**
   The index-to-plane map is additive: the plotted lattice is the set of
   integer combinations of the images of 1 and omega.
   */
  lemma ImageAdditive(f: Frame, p: Index, q: Index)
    ensures Image(f, Index(p.x + q.x, p.y + q.y))
         == Plus(Image(f, p), Image(f, q))
  {
    var py, qy := p.y as real, q.y as real;
    assert f.re * (py + qy) == f.re * py + f.re * qy;
    assert f.im * (py + qy) == f.im * py + f.im * qy;
  }

  /** Distinct indices are drawn at distinct places when omega has nonzero height. */
  lemma ImageInjective(f: Frame, p: Index, q: Index)
    requires f.im != 0.0
    ensures Image(f, p) == Image(f, q) <==> p == q
  {
    if Image(f, p) == Image(f, q) {
      var h := f.im;
      assert h * (p.y as real) == h * (q.y as real);
      assert h * ((p.y - q.y) as real) == 0.0;
      assert p.y == q.y;
    }
  }

  /**
   With height 0 the map forgets the second coordinate: two indices meet
   exactly when their `x` difference is made up by `omega_real` times their
   `y` difference.
   */
  lemma ImageCollapses(f: Frame, p: Index, q: Index)
    requires f.im == 0.0
    ensures Image(f, p) == Image(f, q) <==> (p.x - q.x) as real == f.re * ((q.y - p.y) as real)
  {
    var py, qy := p.y as real, q.y as real;
    assert f.re * (qy - py) == f.re * qy - f.re * py;
  }

  /**
   Every drawn edge is a translate of one of the two generators: an omega
   edge spans the image of omega, a 1 edge spans the image of 1.
   */
  lemma EdgeVectors(f: Frame, p: Index)
    ensures Minus(Image(f, Step(p, AlongOmega)), Image(f, p)) == Point(f.re, f.im)
    ensures Minus(Image(f, Step(p, AlongOne)), Image(f, p)) == Point(1.0, 0.0)
  {
    var py := p.y as real;
    assert f.re * (py + 1.0) - f.re * py == f.re;
    assert f.im * (py + 1.0) - f.im * py == f.im;
  }

  /**
   The fundamental parallelogram `0, 1, 1 + omega, omega`, in the script's
   order: the images of the indices `(0,0), (1,0), (1,1), (0,1)`.
   */
  function FundamentalCell(f: Frame): (cell: seq<Point>)
    ensures cell == [ Image(f, Index(0, 0)), Image(f, Index(1, 0)),
                      Image(f, Index(1, 1)), Image(f, Index(0, 1)) ]
  {
    assert Image(f, Index(1, 1)) == Point(1.0 + f.re, f.im);
    [ Point(0.0, 0.0),
      Point(1.0, 0.0),
      Point(1.0 + f.re, f.im),
      Point(f.re, f.im) ]
  }

  function Cross(u: Point, v: Point): real
  {
    u.x * v.y - u.y * v.x
  }

  /** Shoelace formula: the signed area of the quadrilateral `v`. */
  function SignedArea(v: seq<Point>): real
    requires |v| == 4
  {
    (Cross(v[0], v[1]) + Cross(v[1], v[2]) + Cross(v[2], v[3]) + Cross(v[3], v[0])) / 2.0
  }

  /** The shaded cell is a parallelogram: opposite sides are equal vectors. */
  lemma CellIsParallelogram(f: Frame)
    ensures var v := FundamentalCell(f);
      && Minus(v[1], v[0]) == Minus(v[2], v[3])
      && Minus(v[3], v[0]) == Minus(v[2], v[1])
  {
    var a := f.re;
    assert (1.0 + a) - a == 1.0 - 0.0;
    assert a - 0.0 == (1.0 + a) - 1.0;
  }

  /**
   Listed in the script's order the corners run counter-clockwise when omega
   points upwards, and the cell's area is `omega_imag`.
   */
  lemma CellArea(f: Frame)
    ensures SignedArea(FundamentalCell(f)) == f.im
  {
    var a, h := f.re, f.im;
    var p0, p1, p2, p3 := Point(0.0, 0.0), Point(1.0, 0.0), Point(1.0 + a, h), Point(a, h);
    assert FundamentalCell(f) == [p0, p1, p2, p3];
    var c0, c1, c2, c3 := Cross(p0, p1), Cross(p1, p2), Cross(p2, p3), Cross(p3, p0);
    assert c0 == 0.0 && c3 == 0.0;
    assert c1 == h;
    assert (1.0 + a) * h == h + a * h;
    assert c2 == h;
  }

  // ---------------------------------------------------------------------
  // Labels

  /**
   Anchors of the three labels `0`, `1 + omega` and `omega` as the script
   writes them: `0` and `omega` on their points, while `1 + omega` takes its
   `x` from the point 1 and its `y` from omega.
   */
  function LabelAnchorsAsWritten(f: Frame): (anchors: seq<Point>)
    ensures |anchors| == 3
    ensures anchors[0] == Image(f, Index(0, 0)) && anchors[2] == Image(f, Index(0, 1))
    ensures anchors[1] == Point(Image(f, Index(1, 0)).x, Image(f, Index(0, 1)).y)
  {
    [Point(0.0, 0.0), Point(1.0, f.im), Point(f.re, f.im)]
  }

  /**
   As written, the `1 + omega` label sits on the point `1 + omega` exactly
   when `omega_real == 0`; for `d % 4 == 1` it is half a unit to the left.
   */
  lemma LabelAsWrittenMisplaced(f: Frame)
    ensures LabelAnchorsAsWritten(f)[1] == Image(f, Index(1, 1)) <==> f.re == 0.0
    ensures LabelAnchorsAsWritten(f)[0] == Image(f, Index(0, 0))
    ensures LabelAnchorsAsWritten(f)[2] == Image(f, Index(0, 1))
  {
  }

  /** For `d = -3`, the script's own example, the label misses its point. */
  lemma LabelMisplacedForMinusThree(root: real)
    ensures var f := FrameOf(SelectGenerator(-3).omega, root);
      LabelAnchorsAsWritten(f)[1] != Image(f, Index(1, 1))
  {
    assert -3 % 4 == 1;
    LabelAsWrittenMisplaced(FrameOf(SelectGenerator(-3).omega, root));
  }

  /** Label anchors placed on the points they name: `0`, `1 + omega`, `omega`. */
  function LabelAnchors(f: Frame): (anchors: seq<Point>)
    ensures |anchors| == 3
    ensures anchors[0] == FundamentalCell(f)[0]
    ensures anchors[1] == FundamentalCell(f)[2]
    ensures anchors[2] == FundamentalCell(f)[3]
  {
    [Point(0.0, 0.0), Point(1.0 + f.re, f.im), Point(f.re, f.im)]
  }

  /** The corrected anchors agree with the script's wherever the script was right. */
  lemma LabelAnchorsAgree(f: Frame)
    ensures LabelAnchors(f)[0] == LabelAnchorsAsWritten(f)[0]
    ensures LabelAnchors(f)[2] == LabelAnchorsAsWritten(f)[2]
    ensures LabelAnchors(f) == LabelAnchorsAsWritten(f) <==> f.re == 0.0
  {
    if LabelAnchors(f) == LabelAnchorsAsWritten(f) {
      assert LabelAnchors(f)[1] == LabelAnchorsAsWritten(f)[1];
    }
  }
}
