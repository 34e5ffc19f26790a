# Lattice of the ring of integers of Q(√d)

A Dafny model of `plot_quadratic_field_lattice(d, connect_dots)`, the script
that draws the ring of integers of the quadratic number field Q(√d) as a
plane lattice. The drawing calls are replaced by data: the model computes what
the script would put on the figure and proves properties of it.

- `squarefree.dfy` (module `SquareFree`): the square-free test on `d`. It
  rejects `d` when `p*p` divides `d` for some `p` in `2 .. isqrt(abs(d))`. The
  float `int(np.sqrt(abs(d)))` is modelled by an exact integer square root.
  Python's `%` with a positive divisor agrees with Dafny's `%` on `int`, so
  the divisibility test carries over for negative `d` as well.
- `omega.dfy` (module `Omega`): the generator ω, chosen by `d % 4`. An element
  of Q(√d) is written `a + b√d` with rational `a` and `b`, and √d stays
  symbolic. Integrality is stated through trace and norm: an element is an
  algebraic integer when `X² − Tr·X + N` has integer coefficients.
- `lattice.dfy` (module `Lattice`): the two nested loops. They emit a stream
  of `Draw` records (point markers and line segments) over index pairs
  `(x, y)` in `[-X, X] × [-Y, Y]`. The string `connect_dots` is read once into
  a `Connect` value: no lines, or lines in one style.
- `geometry.dfy` (module `Geometry`): where index pairs land in the plane,
  `(x + omega_real·y, omega_imag·y)`. Also the shaded fundamental
  parallelogram `0, 1, 1+ω, ω` and the anchors of the three labels.
- `plotter.dfy` (module `Plotter`): the whole call. It raises the
  `ValueError` for a rejected `d`, fails while sizing the lattice for `d = 0`,
  and otherwise returns the plot as data.

The index bounds `X`, `Y` (the script's `x_range`, `y_range`) are inputs. So
is `root`, the value of `np.sqrt(abs(d))`.

## Model

| member | source | states |
|---|---|---|
| `SquareFree.Isqrt` | Order_of_quadratic_numberfields_plotter.py:13 | the search bound is the largest `r` with `r² ≤ abs(d)` |
| `SquareFree.AnySquareDivides` | Order_of_quadratic_numberfields_plotter.py:13 | the `any(...)` over `p` in `lo..hi` is true iff some `p` in that range has `p²` dividing `d` |
| `SquareFree.Rejects` | Order_of_quadratic_numberfields_plotter.py:13-14 | the check fails iff some `p ≥ 2` with `p² ≤ abs(d)` has `p²` dividing `d` |
| `SquareFree.SquareFactorWithinSearch` | Order_of_quadratic_numberfields_plotter.py:13 | every square factor `p²` (p ≥ 2) of a nonzero `d` has `p ≤ isqrt(abs(d))`, so the bounded search misses none |
| `SquareFree.RejectsIffNotSquareFree` | Order_of_quadratic_numberfields_plotter.py:13-14 | for `d ≠ 0` the check raises exactly when `d` is not square-free |
| `SquareFree.DegenerateValuesPass` | Order_of_quadratic_numberfields_plotter.py:13 | `d ∈ {-1, 0, 1}` passes because the range is empty; ±1 are square-free but 0 is not |
| `SquareFree.AcceptedNotMultipleOfFour` | Order_of_quadratic_numberfields_plotter.py:13-24 | an accepted nonzero `d` has `d % 4 ≠ 0`, so the `else` branch of the ω choice sees only `d % 4 ∈ {2, 3}` |
| `Omega.SelectGenerator` | Order_of_quadratic_numberfields_plotter.py:17-24 | ω is `(1+√d)/2` with the half label when `d % 4 == 1` (negative `d` included), otherwise `√d`; either way ω is an algebraic integer with positive √d-coefficient |
| `Omega.HalfIntegralIff` | Order_of_quadratic_numberfields_plotter.py:17-20 | `(1+√d)/2` is an algebraic integer iff `d % 4 == 1`, which is the condition the script branches on |
| `Omega.RootIntegral` | Order_of_quadratic_numberfields_plotter.py:21-24 | `√d` is an algebraic integer for every `d` |
| `Omega.RootInHalfLattice` | Order_of_quadratic_numberfields_plotter.py:17-24 | when `d % 4 == 1`, `√d = 2ω − 1` lies in the chosen lattice, so the script picks the larger of the two candidate orders |
| `Omega.LatticeElemsIntegral` | Order_of_quadratic_numberfields_plotter.py:47-51 | every plotted point `x + yω` with integer `x, y` is an algebraic integer of Q(√d) |
| `Lattice.ConnectOf` | Order_of_quadratic_numberfields_plotter.py:55-66 | edges are off exactly for `'none'`, dashed exactly for `'dashed'`, and solid for every other string |
| `Lattice.Cell` | Order_of_quadratic_numberfields_plotter.py:49-66 | one pass of the inner body draws the point first; every draw starts at that point; the rest are segments, present only when connecting, in the requested style |
| `Lattice.Column` | Order_of_quadratic_numberfields_plotter.py:48-66 | the inner loop from `y` draws nothing exactly when `y > Y`; its points and edges are given by `ColumnDots` and `ColumnSegments` |
| `Lattice.ColumnDots` | Order_of_quadratic_numberfields_plotter.py:48-52 | the column from `y` marks the points `(x, y), (x, y+1), …, (x, Y)`, in that order and nothing else |
| `Lattice.ColumnSegments` | Order_of_quadratic_numberfields_plotter.py:55-66 | the column from `y` draws exactly these segments when connecting, in the requested style: from each of its points `p`, one step up if `p.y < Y` and one step right if `x < X`; none otherwise |
| `Lattice.Columns` | Order_of_quadratic_numberfields_plotter.py:47-66 | the outer loop from `x` draws nothing exactly when `x > X` (for `Y ≥ 0`) |
| `Lattice.Drawing` | Order_of_quadratic_numberfields_plotter.py:47-66 | the whole stream is non-empty and starts with the point `(-X, -Y)`, the first one the loops visit |
| `Lattice.PlotLattice` | Order_of_quadratic_numberfields_plotter.py:47-66 | the nested loops mark exactly the points of the box, `(2X+1)(2Y+1)` of them, and draw exactly the unit steps that stay in the box |
| `Lattice.PlotColumns` | Order_of_quadratic_numberfields_plotter.py:47-66 | the outer loop, one column per pass, emits `Drawing` in loop order |
| `Lattice.PlotColumn` | Order_of_quadratic_numberfields_plotter.py:48-66 | the inner loop over `y ∈ [-Y, Y]` emits the draws of one column in loop order |
| `Lattice.CellSegments` | Order_of_quadratic_numberfields_plotter.py:55-66 | one pass draws the segment from `p` to `q` in style `st` exactly when connecting, `st` is the requested style, and `q` is `p + ω` with `p.y < Y` or `p + 1` with `p.x < X` |
| `Lattice.LoopBody` | Order_of_quadratic_numberfields_plotter.py:49-66 | the loop body, with the script's own string tests on `connect_dots`, draws what `Cell` says for the mode `ConnectOf` reads |
| `Lattice.DrawingDots` | Order_of_quadratic_numberfields_plotter.py:47-52 | a point is marked iff it lies in `[-X, X] × [-Y, Y]` |
| `Lattice.BoxCardinality` | Order_of_quadratic_numberfields_plotter.py:47-52 | the set of marked points is the box, and the box has `(2X+1)(2Y+1)` elements |
| `Lattice.DrawingOnce` | Order_of_quadratic_numberfields_plotter.py:47-66 | no draw is issued twice; in particular every point is marked once |
| `Lattice.DrawingCounts` | Order_of_quadratic_numberfields_plotter.py:47-66 | `(2X+1)(2Y+1)` points, `(2X+1)·2Y` ω-direction edges and `2X·(2Y+1)` 1-direction edges; with `'none'` no edge at all |
| `Lattice.DrawingSegments` | Order_of_quadratic_numberfields_plotter.py:55-66 | a segment is drawn iff connecting is on and it is a unit step (up or right) with both ends in the box; it is dashed iff the mode is dashed lines |
| `Geometry.Image` | Order_of_quadratic_numberfields_plotter.py:50-51 | index `(1,0)` is drawn at `(1, 0)`, index `(0,1)` at `(omega_real, omega_imag)`, and the row `y = 0` on the integers of the horizontal axis |
| `Geometry.ImageAdditive` | Order_of_quadratic_numberfields_plotter.py:50-51 | the index-to-plane map is additive, so with `Image` it is the linear map sending 1 and ω to those two points |
| `Geometry.ImageInjective` | Order_of_quadratic_numberfields_plotter.py:50-51 | distinct indices land on distinct points whenever `omega_imag ≠ 0` |
| `Geometry.ImageCollapses` | Order_of_quadratic_numberfields_plotter.py:50-51 | with `omega_imag == 0` two indices meet iff their `x` difference equals `omega_real` times their `y` difference |
| `Geometry.FrameOf` | Order_of_quadratic_numberfields_plotter.py:17-24 | `omega_real, omega_imag` are `(1/2, √|d|/2)` for `(1 + √d)/2` and `(0, √|d|)` for `√d` |
| `Geometry.EdgeVectors` | Order_of_quadratic_numberfields_plotter.py:55-66 | every ω-direction edge spans `(omega_real, omega_imag)` and every 1-direction edge spans `(1, 0)` |
| `Geometry.FundamentalCell` | Order_of_quadratic_numberfields_plotter.py:69-74 | the shaded quadrilateral's corners are the images of the indices `(0,0), (1,0), (1,1), (0,1)`, i.e. `0, 1, 1+ω, ω` |
| `Geometry.CellIsParallelogram` | Order_of_quadratic_numberfields_plotter.py:69-74 | it has equal opposite sides: `v1 − v0 = v2 − v3` and `v3 − v0 = v2 − v1` |
| `Geometry.CellArea` | Order_of_quadratic_numberfields_plotter.py:69-77 | its signed area is `omega_imag`, so the corners run counter-clockwise and the cell is non-degenerate when `d ≠ 0` |
| `Geometry.LabelAnchorsAsWritten` | Order_of_quadratic_numberfields_plotter.py:80-82 | the script's anchors: `0` and `ω` on their points, while `1 + ω` takes its `x` from the point 1 and its `y` from ω |
| `Geometry.LabelAsWrittenMisplaced` | Order_of_quadratic_numberfields_plotter.py:80-82 | the labels `0` and `ω` sit on their points; the `1 + ω` label, anchored at `(1, omega_imag)`, does so iff `omega_real == 0` |
| `Geometry.LabelMisplacedForMinusThree` | Order_of_quadratic_numberfields_plotter.py:81 | for `d = -3` the `1 + ω` label is not on the point `1 + ω` |
| `Geometry.LabelAnchors` | Order_of_quadratic_numberfields_plotter.py:80-82 | corrected anchors: each label sits on the corner of the fundamental cell it names |
| `Geometry.LabelAnchorsAgree` | Order_of_quadratic_numberfields_plotter.py:80-82 | the corrected anchors differ from the script's only in the `1 + ω` label, and only when `omega_real ≠ 0` |
| `Plotter.PlotQuadraticFieldLattice` | Order_of_quadratic_numberfields_plotter.py:4-94 | raises iff the bounded search finds a square factor; fails while sizing the lattice iff `d = 0`; so it draws iff `d` is nonzero and square-free. A plot uses the `d % 4` generator and its frame `(1/2, √|d|/2)` or `(0, √|d|)`, has positive height, draws exactly the stream of the nested loops (`Drawing`), each draw once; it marks exactly the box's points and draws exactly the in-box unit steps, `(2X+1)·2Y` along ω and `2X·(2Y+1)` along 1 when connecting, and shades the cell `0, 1, 1+ω, ω`. Its labels sit on their points; they equal the script's anchors iff `d % 4 ≠ 1` |

## Left out

- Rendering: figure setup, axes, `plt.plot`, `fill`, `text` styling, limits, titles, grid and `show` (lines 27-40 and 77-94). The model keeps what is drawn and where, not how it is rendered.
- Floating point: `x_range` and `y_range` come from the axis limits through `1.5×`, `ceil` and a division by `omega_imag` (lines 43-44). They are the inputs `X` and `Y`. For `d = 0` the divisor is 0, the quotient is infinite, and `int` of it raises `OverflowError`. The model returns the outcome `RangeOverflow` there. It does not model numpy's warning or the exception's text.
- SquareFree.Isqrt: an exact integer square root. `int(np.sqrt(abs(d)))` goes through a double, so it can be off by one for `abs(d)` above 2^52.
- Plotter.PlotQuadraticFieldLattice: has no outcome for `abs(d)` at or above 2^64. NumPy cannot hold such an integer in a machine integer and falls back to an array of Python objects, whose `sqrt` raises `TypeError` at line 13, before the square-free search runs (lines 19 and 23 would do the same). The model treats `d` as an unbounded integer, so for such `d` it returns `NotSquareFree` or `Drawn` where the script raises.
- Geometry.Image: plotted coordinates are exact reals. The script computes every coordinate of lines 50-51, 56-57, 63-64 and 72-73 in double precision, rounding each product and sum. Facts such as `EdgeVectors`' `omega_imag*(y+1) - omega_imag*y == omega_imag`, `CellIsParallelogram` and `CellArea` hold for the exact values and only up to rounding for the drawn ones.
- Plotter.PlotQuadraticFieldLattice: the labels are placed by the corrected `Geometry.LabelAnchors`, not by line 81 as written. For `d % 4 == 1` the `1 + ω` label therefore sits on its point, where the script puts it half a unit to the left (see "## Findings"). The contract states exactly when the two placements agree.
- Plotter.PlotQuadraticFieldLattice: `root` stands for `np.sqrt(abs(d))`. The model assumes only that it is non-negative and zero exactly when `d` is. It does not state `root² = abs(d)`, because nothing proved here needs that fact.
- LaTeX label strings (lines 20, 24, 81, 89): only which of the two forms of ω is printed (`Omega.Label`) is modelled.
- Omega.LatticeElemsIntegral: the converse is not proved: for square-free `d`, every algebraic integer of Q(√d) lies in the lattice. The script does not rely on it.
- Lattice.Column: its contract states only when a column is empty. What a column draws is stated by `ColumnDots` and `ColumnSegments`.
- Lattice.Columns: its contract states only when the outer loop draws nothing. What it draws is stated by the `Drawing…` lemmas, through `Drawing`.
- Lattice.Drawing: its contract states only the first draw. What it contains is stated by `DrawingDots`, `DrawingSegments`, `DrawingCounts` and `DrawingOnce`.
- The example call at module level (lines 97-98).
- The default `connect_dots='solid'` (line 4): Dafny has no default arguments, so callers pass the string. `Lattice.ConnectOf` reads `'solid'` as solid lines, as the script does.
- Circle overlays (`plot_circles`, `circle_color`, `circle_alpha`, `radius`) belong to another variant of the script; that variant is not part of this model. The function modelled here takes only `d` and `connect_dots`.

## Findings

| source | as written | input that shows it | evidently intended | confidence | as-written member | corrected member |
|---|---|---|---|---|---|---|
| Order_of_quadratic_numberfields_plotter.py:81 | the `1 + ω` label is anchored at `(1, omega_imag)` | `d = -3`: the label is anchored at `(1, √3/2)` while the point `1 + ω` is at `(3/2, √3/2)` | anchor at `(1 + omega_real, omega_imag)`, the third corner of the shaded cell, as the other two labels are anchored at their points | medium; not executed | `Geometry.LabelAsWrittenMisplaced` | `Geometry.LabelAnchors` |
