/**
 `plot_quadratic_field_lattice(d, connect_dots)` with the rendering reduced to
 data: the square-free check, the choice of omega, the lattice draws, the
 shaded fundamental cell and the label anchors. The labels are placed by the
 corrected `LabelAnchors`; the contract says where they differ from the
 script's.

 The index bounds `X` and `Y` (the script's `x_range` and `y_range`, computed
 in floating point from the axis limits) and `root`, the value of
 `np.sqrt(abs(d))`, are inputs. Of `root` the model uses only what a square
 root of `|d|` guarantees about its sign: it is non-negative and it is zero
 exactly when `d` is.
 */
module Plotter {
  import opened SquareFree
  import opened Omega
  import opened Lattice
  import opened Geometry

  /** Everything one call puts on the figure. */
  datatype Plot = Plot(
    generator: Generator,
    frame: Frame,
    draws: seq<Draw>,
    cell: seq<Point>,
    labels: seq<Point>)

  /**
   How a call ends: `ValueError` for a `d` the check rejects; a failure while
   sizing the lattice when omega has height 0 (for `d == 0` the bound
   `y_range` is `ceil(7.5 / 0.0)`, infinite, and `int` of it raises
   `OverflowError`); otherwise the plot.
   */
  datatype Outcome = NotSquareFree | RangeOverflow | Drawn(plot: Plot)

  method PlotQuadraticFieldLattice(d: int, connect: string, X: nat, Y: nat, root: real) returns (r: Outcome)
    requires 0.0 <= root && (root == 0.0 <==> d == 0)
    ensures r.NotSquareFree? <==> Rejects(d)
    ensures r.RangeOverflow? <==> d == 0
    ensures r.Drawn? <==> d != 0 && IsSquareFree(d)
    ensures r.Drawn? ==> r.plot.generator == SelectGenerator(d)
    ensures r.Drawn? ==> IsAlgebraicInteger(r.plot.generator.omega, d)
    ensures r.Drawn? ==> (r.plot.frame.re == 0.5 <==> d % 4 == 1)
    ensures r.Drawn? ==> r.plot.frame == (if d % 4 == 1 then Frame(0.5, root / 2.0) else Frame(0.0, root))
    ensures r.Drawn? ==> r.plot.frame.im > 0.0
    ensures r.Drawn? ==> r.plot.draws == Drawing(X, Y, ConnectOf(connect))
    ensures r.Drawn? ==> Distinct(r.plot.draws)
    ensures r.Drawn? ==> forall p :: p in Dots(r.plot.draws) <==> InBox(p, X, Y)
    ensures r.Drawn? ==> |Dots(r.plot.draws)| == (2 * X + 1) * (2 * Y + 1)
    ensures r.Drawn? ==> CountAlong(r.plot.draws, AlongOmega) == if Connects(ConnectOf(connect)) then (2 * X + 1) * (2 * Y) else 0
    ensures r.Drawn? ==> CountAlong(r.plot.draws, AlongOne) == if Connects(ConnectOf(connect)) then (2 * X) * (2 * Y + 1) else 0
    ensures r.Drawn? ==> forall p, q, st :: Segment(p, q, st) in r.plot.draws <==> IsGridEdge(p, q, st, X, Y, ConnectOf(connect))
    ensures r.Drawn? ==> r.plot.cell == [ Image(r.plot.frame, Index(0, 0)), Image(r.plot.frame, Index(1, 0)),
                                          Image(r.plot.frame, Index(1, 1)), Image(r.plot.frame, Index(0, 1)) ]
    ensures r.Drawn? ==> r.plot.labels == [ Image(r.plot.frame, Index(0, 0)), Image(r.plot.frame, Index(1, 1)),
                                            Image(r.plot.frame, Index(0, 1)) ]
    ensures r.Drawn? ==> (r.plot.labels == LabelAnchorsAsWritten(r.plot.frame) <==> d % 4 != 1)
  {
    if d != 0 {
      RejectsIffNotSquareFree(d);
    } else {
      DegenerateValuesPass(d);
    }
    if AnySquareDivides(d, 2, Isqrt(Abs(d))) {
      return NotSquareFree;
    }
    if d == 0 {
      return RangeOverflow;
    }
    var g := SelectGenerator(d);
    var f := FrameOf(g.omega, root);
    FrameHeightPositive(g.omega, root);
    var draws := PlotLattice(X, Y, connect);
    DrawingOnce(X, Y, ConnectOf(connect));
    DrawingCounts(X, Y, ConnectOf(connect));
    var cell := FundamentalCell(f);
    var labels := LabelAnchors(f);
    LabelAnchorsAgree(f);
    r := Drawn(Plot(g, f, draws, cell, labels));
  }
}
