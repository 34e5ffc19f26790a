/**
 The lattice enumeration of the plotter, with the drawing calls reduced to a
 stream of `Draw` records in the order the script issues them.

 For every `x` in `-X .. X` and, inside, every `y` in `-Y .. Y` the script
 plots the point `(x, y)`, then the edge towards `(x, y + 1)` (the omega
 direction) when `connect_dots != 'none'` and `y < Y`, then the edge towards
 `(x + 1, y)` (the 1 direction) when `connect_dots != 'none'` and `x < X`.
 Both edges are dashed when `connect_dots == 'dashed'` and solid otherwise.
 Points are index pairs here; their Cartesian image is in module Geometry.
 */
module Lattice {

  /** The index pair `(x, y)` of the lattice point `x + y * omega`. */
  datatype Index = Index(x: int, y: int)

  datatype LineStyle = Solid | Dashed

  /** One plotting call: a point marker or a line segment between two points. */
  datatype Draw = Dot(at: Index) | Segment(from: Index, to: Index, style: LineStyle)

  datatype Direction = AlongOmega | AlongOne

  /** The neighbour of `p` one step along `dir`. */
  function Step(p: Index, dir: Direction): Index
  {
    match dir
    case AlongOmega => Index(p.x, p.y + 1)
    case AlongOne => Index(p.x + 1, p.y)
  }

  /** What `connect_dots` asks for: no edges, or edges in one line style. */
  datatype Connect = NoLines | Lines(style: LineStyle)

  /**
   The script's reading of `connect_dots`: edges are drawn unless it is the
   string `none`, and they are dashed when it is `dashed` and solid for any
   other string.
   */
  function ConnectOf(connect: string): (mode: Connect)
    ensures mode == NoLines <==> connect == "none"
    ensures mode == Lines(Dashed) <==> connect == "dashed"
    ensures mode == Lines(Solid) <==> connect != "none" && connect != "dashed"
  {
    if connect == "none" then NoLines
    else if connect == "dashed" then Lines(Dashed)
    else Lines(Solid)
  }

  predicate Connects(mode: Connect)
  {
    mode.Lines?
  }

  function LineStyleOf(mode: Connect): LineStyle
  {
    if mode.Lines? then mode.style else Solid
  }

  /** `p` lies in the index box `[-X, X] x [-Y, Y]`. */
  predicate InBox(p: Index, X: int, Y: int)
  {
    -X <= p.x <= X && -Y <= p.y <= Y
  }

  /** The draws of one iteration of the inner loop body, at index `p`. */
  function Cell(p: Index, X: int, Y: int, mode: Connect): (cell: seq<Draw>)
    ensures |cell| >= 1 && cell[0] == Dot(p)
    ensures forall dr :: dr in cell ==> Origin(dr) == p
    ensures forall dr :: dr in cell[1..] ==> dr.Segment? && Connects(mode) && dr.style == LineStyleOf(mode)
  {
    [Dot(p)]
    + (if Connects(mode) && p.y < Y then [Segment(p, Step(p, AlongOmega), LineStyleOf(mode))] else [])
    + (if Connects(mode) && p.x < X then [Segment(p, Step(p, AlongOne), LineStyleOf(mode))] else [])
  }

  /** The inner loop from `y` up to `Y`, for a fixed `x`. */
  function Column(x: int, y: int, X: int, Y: int, mode: Connect): (col: seq<Draw>)
    ensures |col| == 0 <==> y > Y
    decreases Y + 1 - y
  {
    if y > Y then [] else Cell(Index(x, y), X, Y, mode) + Column(x, y + 1, X, Y, mode)
  }

  /** The outer loop from `x` up to `X`. */
  function Columns(x: int, X: int, Y: int, mode: Connect): (cols: seq<Draw>)
    ensures 0 <= Y ==> (|cols| == 0 <==> x > X)
    decreases X + 1 - x
  {
    if x > X then [] else Column(x, -Y, X, Y, mode) + Columns(x + 1, X, Y, mode)
  }

  /** Everything the two nested loops draw for index bounds `X` and `Y`. */
  function Drawing(X: nat, Y: nat, mode: Connect): (draws: seq<Draw>)
    ensures |draws| > 0 && draws[0] == Dot(Index(-(X as int), -(Y as int)))
  {
    Columns(-(X as int), X, Y, mode)
  }

  /**
   The nested loops of the script, emitting draws one call at a time. The
   stream is the one `Drawing` describes; the lemmas below say what is in it.
   */
  method PlotLattice(X: nat, Y: nat, connect: string) returns (draws: seq<Draw>)
    ensures draws == Drawing(X, Y, ConnectOf(connect))
    ensures forall p :: p in Dots(draws) <==> InBox(p, X, Y)
    ensures |Dots(draws)| == (2 * X + 1) * (2 * Y + 1)
    ensures forall p, q, st :: Segment(p, q, st) in draws <==> IsGridEdge(p, q, st, X, Y, ConnectOf(connect))
  {
    draws := PlotColumns(X, Y, connect);
    DrawingDots(X, Y, ConnectOf(connect));
    DrawingCounts(X, Y, ConnectOf(connect));
    DrawingSegments(X, Y, ConnectOf(connect));
  }

  /** The outer loop, over `x` in `-X .. X`, one column per pass. */
  method PlotColumns(X: nat, Y: nat, connect: string) returns (draws: seq<Draw>)
    ensures draws == Drawing(X, Y, ConnectOf(connect))
  {
    draws := [];
    var x: int := -(X as int);
    while x <= X
      invariant -(X as int) <= x <= X + 1
      invariant draws + Columns(x, X, Y, ConnectOf(connect)) == Drawing(X, Y, ConnectOf(connect))
      decreases X + 1 - x
    {
      var col := PlotColumn(x, X, Y, connect);
      assert Columns(x, X, Y, ConnectOf(connect)) == col + Columns(x + 1, X, Y, ConnectOf(connect));
      ConcatAssoc(draws, col, Columns(x + 1, X, Y, ConnectOf(connect)));
      draws := draws + col;
      x := x + 1;
    }
  }

  /** The inner loop, over `y` in `-Y .. Y` for one `x`. */
  method PlotColumn(x: int, X: int, Y: nat, connect: string) returns (col: seq<Draw>)
    ensures col == Column(x, -(Y as int), X, Y, ConnectOf(connect))
  {
    col := [];
    var y: int := -(Y as int);
    while y <= Y
      invariant -(Y as int) <= y <= Y + 1
      invariant col + Column(x, y, X, Y, ConnectOf(connect)) == Column(x, -(Y as int), X, Y, ConnectOf(connect))
      decreases Y + 1 - y
    {
      var cell := LoopBody(Index(x, y), X, Y, connect);
      assert Column(x, y, X, Y, ConnectOf(connect)) == cell + Column(x, y + 1, X, Y, ConnectOf(connect));
      ConcatAssoc(col, cell, Column(x, y + 1, X, Y, ConnectOf(connect)));
      col := col + cell;
      y := y + 1;
    }
  }

  lemma ConcatAssoc<T>(a: seq<T>, b: seq<T>, c: seq<T>)
    ensures (a + b) + c == a + (b + c)
  {
  }

  /** One pass of the inner loop body: the point, then up to two edges. */
  method LoopBody(p: Index, X: int, Y: int, connect: string) returns (cell: seq<Draw>)
    ensures cell == Cell(p, X, Y, ConnectOf(connect))
  {
    cell := [Dot(p)];
    if connect != "none" && p.y < Y {
      cell := cell + [Segment(p, Index(p.x, p.y + 1), if connect == "dashed" then Dashed else Solid)];
    }
    if connect != "none" && p.x < X {
      cell := cell + [Segment(p, Index(p.x + 1, p.y), if connect == "dashed" then Dashed else Solid)];
    }
  }

  // ---------------------------------------------------------------------
  // Projections of a draw stream

  /** The points marked, in drawing order. */
  function Dots(s: seq<Draw>): seq<Index>
  {
    if s == [] then [] else (if s[0].Dot? then [s[0].at] else []) + Dots(s[1..])
  }

  predicate IsEdgeAlong(dr: Draw, dir: Direction)
  {
    dr.Segment? && dr.to == Step(dr.from, dir)
  }

  /** How many segments of `s` go one step along `dir`. */
  function CountAlong(s: seq<Draw>, dir: Direction): nat
  {
    if s == [] then 0 else (if IsEdgeAlong(s[0], dir) then 1 else 0) + CountAlong(s[1..], dir)
  }

  lemma {:induction false} DotsAppend(s: seq<Draw>, t: seq<Draw>)
    ensures Dots(s + t) == Dots(s) + Dots(t)
  {
    if s == [] {
      assert s + t == t;
    } else {
      assert (s + t)[0] == s[0];
      assert (s + t)[1..] == s[1..] + t;
      DotsAppend(s[1..], t);
    }
  }

  lemma {:induction false} CountAppend(s: seq<Draw>, t: seq<Draw>, dir: Direction)
    ensures CountAlong(s + t, dir) == CountAlong(s, dir) + CountAlong(t, dir)
  {
    if s == [] {
      assert s + t == t;
    } else {
      assert (s + t)[0] == s[0];
      assert (s + t)[1..] == s[1..] + t;
      CountAppend(s[1..], t, dir);
    }
  }

  /** Every marked point comes from a `Dot` of the stream, and conversely. */
  lemma {:induction false} DotsMembers(s: seq<Draw>)
    ensures forall p :: p in Dots(s) <==> Dot(p) in s
  {
    if s != [] {
      DotsMembers(s[1..]);
      assert s == [s[0]] + s[1..];
    }
  }

  // ---------------------------------------------------------------------
  // Counting

  /**
   The edges of one pass: the omega edge exactly when connecting and
   `y < Y`, the 1 edge exactly when connecting and `x < X`, both in the
   requested style.
   */
  lemma CellSegments(p: Index, X: int, Y: int, mode: Connect)
    ensures forall q, st :: Segment(p, q, st) in Cell(p, X, Y, mode) <==>
      && Connects(mode) && st == LineStyleOf(mode)
      && ((q == Step(p, AlongOmega) && p.y < Y) || (q == Step(p, AlongOne) && p.x < X))
  {
  }

  lemma CellCounts(p: Index, X: int, Y: int, mode: Connect)
    ensures Dots(Cell(p, X, Y, mode)) == [p]
    ensures CountAlong(Cell(p, X, Y, mode), AlongOmega) == if Connects(mode) && p.y < Y then 1 else 0
    ensures CountAlong(Cell(p, X, Y, mode), AlongOne) == if Connects(mode) && p.x < X then 1 else 0
  {
    var st := LineStyleOf(mode);
    var a: seq<Draw> := if Connects(mode) && p.y < Y then [Segment(p, Step(p, AlongOmega), st)] else [];
    var b: seq<Draw> := if Connects(mode) && p.x < X then [Segment(p, Step(p, AlongOne), st)] else [];
    assert Cell(p, X, Y, mode) == [Dot(p)] + (a + b);
    DotsAppend([Dot(p)], a + b);
    DotsAppend(a, b);
    CountAppend([Dot(p)], a + b, AlongOmega);
    CountAppend(a, b, AlongOmega);
    CountAppend([Dot(p)], a + b, AlongOne);
    CountAppend(a, b, AlongOne);
  }

  lemma {:induction false} ColumnCounts(x: int, y: int, X: int, Y: int, mode: Connect)
    requires y <= Y + 1
    ensures CountAlong(Column(x, y, X, Y, mode), AlongOmega) == if Connects(mode) && y <= Y then Y - y else 0
    ensures CountAlong(Column(x, y, X, Y, mode), AlongOne) == if Connects(mode) && x < X then Y + 1 - y else 0
    decreases Y + 1 - y
  {
    if y <= Y {
      var c := Cell(Index(x, y), X, Y, mode);
      var rest := Column(x, y + 1, X, Y, mode);
      CellCounts(Index(x, y), X, Y, mode);
      ColumnCounts(x, y + 1, X, Y, mode);
      CountAppend(c, rest, AlongOmega);
      CountAppend(c, rest, AlongOne);
    }
  }

  lemma {:induction false} ColumnsDotCount(x: int, X: int, Y: int, mode: Connect)
    requires -X <= x <= X + 1 && 0 <= Y
    ensures |Dots(Columns(x, X, Y, mode))| == Times(X + 1 - x, 2 * Y + 1)
    decreases X + 1 - x
  {
    if x <= X {
      var col := Column(x, -Y, X, Y, mode);
      var rest := Columns(x + 1, X, Y, mode);
      assert Columns(x, X, Y, mode) == col + rest;
      ColumnDots(x, -Y, X, Y, mode);
      ColumnsDotCount(x + 1, X, Y, mode);
      DotsAppend(col, rest);
    }
  }

  lemma {:induction false} ColumnsOmegaCount(x: int, X: int, Y: int, mode: Connect)
    requires -X <= x <= X + 1 && 0 <= Y
    ensures CountAlong(Columns(x, X, Y, mode), AlongOmega) == if Connects(mode) then Times(X + 1 - x, 2 * Y) else 0
    decreases X + 1 - x
  {
    if x <= X {
      var col := Column(x, -Y, X, Y, mode);
      var rest := Columns(x + 1, X, Y, mode);
      assert Columns(x, X, Y, mode) == col + rest;
      ColumnCounts(x, -Y, X, Y, mode);
      ColumnsOmegaCount(x + 1, X, Y, mode);
      CountAppend(col, rest, AlongOmega);
    }
  }

  lemma {:induction false} ColumnsOneCount(x: int, X: int, Y: int, mode: Connect)
    requires -X <= x <= X + 1 && 0 <= Y
    ensures CountAlong(Columns(x, X, Y, mode), AlongOne) == if Connects(mode) && x <= X then Times(X - x, 2 * Y + 1) else 0
    decreases X + 1 - x
  {
    if x <= X {
      var col := Column(x, -Y, X, Y, mode);
      var rest := Columns(x + 1, X, Y, mode);
      assert Columns(x, X, Y, mode) == col + rest;
      ColumnCounts(x, -Y, X, Y, mode);
      ColumnsOneCount(x + 1, X, Y, mode);
      CountAppend(col, rest, AlongOne);
    }
  }

  /** `n * m` by repeated addition, so that the counting proofs stay linear. */
  function Times(n: int, m: int): int
    decreases n
  {
    if n <= 0 then 0 else m + Times(n - 1, m)
  }

  lemma {:induction false} TimesIsProduct(n: nat, m: int)
    ensures Times(n, m) == n * m
  {
    if n > 0 {
      TimesIsProduct(n - 1, m);
      assert n * m == m + (n - 1) * m;
    }
  }

  /**
   The script marks `(2X+1)(2Y+1)` points and, when it connects them, draws
   `(2X+1) * 2Y` omega-direction edges and `2X * (2Y+1)` 1-direction edges;
   with `connect_dots == 'none'` it draws no edge at all.
   */
  lemma DrawingCounts(X: nat, Y: nat, mode: Connect)
    ensures |Dots(Drawing(X, Y, mode))| == (2 * X + 1) * (2 * Y + 1)
    ensures CountAlong(Drawing(X, Y, mode), AlongOmega) == if Connects(mode) then (2 * X + 1) * (2 * Y) else 0
    ensures CountAlong(Drawing(X, Y, mode), AlongOne) == if Connects(mode) then (2 * X) * (2 * Y + 1) else 0
    ensures !Connects(mode) ==> forall dr :: dr in Drawing(X, Y, mode) ==> dr.Dot?
  {
    var draws, lo := Drawing(X, Y, mode), -(X as int);
    assert draws == Columns(lo, X, Y, mode);
    var n, m := 2 * X + 1, 2 * Y + 1;
    assert X + 1 - lo == n && X - lo == n - 1 && 2 * Y == m - 1;
    ColumnsDotCount(lo, X, Y, mode);
    TimesIsProduct(n, m);
    assert |Dots(draws)| == n * m;
    ColumnsOmegaCount(lo, X, Y, mode);
    TimesIsProduct(n, m - 1);
    assert CountAlong(draws, AlongOmega) == if Connects(mode) then n * (m - 1) else 0;
    ColumnsOneCount(lo, X, Y, mode);
    TimesIsProduct(n - 1, m);
    assert CountAlong(draws, AlongOne) == if Connects(mode) then (n - 1) * m else 0;
    if !Connects(mode) {
      NoSegmentsWithoutConnect(-(X as int), X, Y, mode);
    }
  }

  lemma {:induction false} NoSegmentsWithoutConnect(x: int, X: int, Y: int, mode: Connect)
    requires !Connects(mode)
    ensures forall dr :: dr in Columns(x, X, Y, mode) ==> dr.Dot?
    decreases X + 1 - x
  {
    if x <= X {
      ColumnSegments(x, -Y, X, Y, mode);
      NoSegmentsWithoutConnect(x + 1, X, Y, mode);
    }
  }

  // ---------------------------------------------------------------------
  // Which points and which edges are drawn

  lemma {:induction false} ColumnDots(x: int, y: int, X: int, Y: int, mode: Connect)
    requires y <= Y + 1
    ensures |Dots(Column(x, y, X, Y, mode))| == Y + 1 - y
    ensures forall k :: 0 <= k < Y + 1 - y ==> Dots(Column(x, y, X, Y, mode))[k] == Index(x, y + k)
    decreases Y + 1 - y
  {
    if y <= Y {
      var c := Cell(Index(x, y), X, Y, mode);
      var rest := Column(x, y + 1, X, Y, mode);
      CellCounts(Index(x, y), X, Y, mode);
      ColumnDots(x, y + 1, X, Y, mode);
      DotsAppend(c, rest);
      assert Dots(Column(x, y, X, Y, mode)) == [Index(x, y)] + Dots(rest);
      forall k | 0 <= k < Y + 1 - y
        ensures Dots(Column(x, y, X, Y, mode))[k] == Index(x, y + k)
      {
        if k > 0 {
          assert Dots(Column(x, y, X, Y, mode))[k] == Dots(rest)[k - 1];
        }
      }
    }
  }

  lemma {:induction false} ColumnsDotsMembers(x: int, X: int, Y: int, mode: Connect)
    requires 0 <= Y
    ensures forall p :: p in Dots(Columns(x, X, Y, mode)) <==> x <= p.x <= X && -Y <= p.y <= Y
    decreases X + 1 - x
  {
    if x <= X {
      var col := Column(x, -Y, X, Y, mode);
      var rest := Columns(x + 1, X, Y, mode);
      ColumnDots(x, -Y, X, Y, mode);
      ColumnsDotsMembers(x + 1, X, Y, mode);
      DotsAppend(col, rest);
      forall p: Index | x <= p.x <= X && -Y <= p.y <= Y
        ensures p in Dots(Columns(x, X, Y, mode))
      {
        if p.x == x {
          assert Dots(col)[p.y + Y] == p;
        }
      }
    }
  }

  /** A segment of `Column(x, y, ..)`: from a point of this column, one step up or right. */
  lemma {:induction false} ColumnSegments(x: int, y: int, X: int, Y: int, mode: Connect)
    ensures forall p, q, st :: Segment(p, q, st) in Column(x, y, X, Y, mode) <==>
      && Connects(mode) && st == LineStyleOf(mode)
      && p.x == x && y <= p.y <= Y
      && ((q == Step(p, AlongOmega) && p.y < Y) || (q == Step(p, AlongOne) && x < X))
    decreases Y + 1 - y
  {
    if y <= Y {
      ColumnSegments(x, y + 1, X, Y, mode);
    }
  }

  lemma {:induction false} ColumnsSegments(x: int, X: int, Y: int, mode: Connect)
    ensures forall p, q, st :: Segment(p, q, st) in Columns(x, X, Y, mode) <==>
      && Connects(mode) && st == LineStyleOf(mode)
      && x <= p.x <= X && -Y <= p.y <= Y
      && ((q == Step(p, AlongOmega) && p.y < Y) || (q == Step(p, AlongOne) && p.x < X))
    decreases X + 1 - x
  {
    if x <= X {
      ColumnSegments(x, -Y, X, Y, mode);
      ColumnsSegments(x + 1, X, Y, mode);
    }
  }

  /** `p -> q` is a unit step of the grid with both ends in the box, in the requested style. */
  predicate IsGridEdge(p: Index, q: Index, st: LineStyle, X: nat, Y: nat, mode: Connect)
  {
    && Connects(mode) && st == LineStyleOf(mode)
    && InBox(p, X, Y) && InBox(q, X, Y)
    && (q == Step(p, AlongOmega) || q == Step(p, AlongOne))
  }

  /**
   The drawn points are exactly the index box `[-X, X] x [-Y, Y]`.
   */
  lemma DrawingDots(X: nat, Y: nat, mode: Connect)
    ensures forall p :: p in Dots(Drawing(X, Y, mode)) <==> InBox(p, X, Y)
  {
    ColumnsDotsMembers(-(X as int), X, Y, mode);
  }

  /**
   The drawn edges are exactly the unit steps of the grid that stay inside the
   box: no edge leaves the grid, none is missing, and every one is dashed iff
   `connect_dots == 'dashed'`.
   */
  lemma DrawingSegments(X: nat, Y: nat, mode: Connect)
    ensures forall p, q, st :: Segment(p, q, st) in Drawing(X, Y, mode) <==> IsGridEdge(p, q, st, X, Y, mode)
    ensures forall p, q, st :: Segment(p, q, st) in Drawing(X, Y, mode) ==> (st == Dashed <==> mode == Lines(Dashed))
  {
    ColumnsSegments(-(X as int), X, Y, mode);
  }

  // ---------------------------------------------------------------------
  // Every draw is issued once

  /** Lexicographic order on index pairs, `x` first: the loops' visiting order. */
  predicate Before(p: Index, q: Index)
  {
    p.x < q.x || (p.x == q.x && p.y < q.y)
  }

  /** The index a draw starts at. */
  function Origin(dr: Draw): Index
  {
    match dr
    case Dot(p) => p
    case Segment(p, _, _) => p
  }

  /** Position of a draw inside one loop iteration: point, omega edge, 1 edge. */
  function Rank(dr: Draw): int
  {
    if dr.Dot? then 0 else if dr.to == Step(dr.from, AlongOmega) then 1 else 2
  }

  predicate DrawBefore(a: Draw, b: Draw)
  {
    Before(Origin(a), Origin(b)) || (Origin(a) == Origin(b) && Rank(a) < Rank(b))
  }

  predicate DrawsSorted(s: seq<Draw>)
  {
    forall i, j :: 0 <= i < j < |s| ==> DrawBefore(s[i], s[j])
  }

  predicate IndicesSorted(s: seq<Index>)
  {
    forall i, j :: 0 <= i < j < |s| ==> Before(s[i], s[j])
  }

  predicate Distinct<T(==)>(s: seq<T>)
  {
    forall i, j :: 0 <= i < j < |s| ==> s[i] != s[j]
  }

  lemma SortedConcat(a: seq<Draw>, b: seq<Draw>)
    requires DrawsSorted(a) && DrawsSorted(b)
    requires forall u, v :: u in a && v in b ==> DrawBefore(u, v)
    ensures DrawsSorted(a + b)
  {
    forall i, j | 0 <= i < j < |a + b|
      ensures DrawBefore((a + b)[i], (a + b)[j])
    {
      if j < |a| {
      } else if i >= |a| {
        assert (a + b)[i] == b[i - |a|] && (a + b)[j] == b[j - |a|];
      } else {
        assert (a + b)[i] in a && (a + b)[j] in b;
      }
    }
  }

  lemma CellSorted(p: Index, X: int, Y: int, mode: Connect)
    ensures DrawsSorted(Cell(p, X, Y, mode))
  {
  }

  lemma {:induction false} ColumnSorted(x: int, y: int, X: int, Y: int, mode: Connect)
    ensures DrawsSorted(Column(x, y, X, Y, mode))
    ensures forall dr :: dr in Column(x, y, X, Y, mode) ==> Origin(dr).x == x && Origin(dr).y >= y
    decreases Y + 1 - y
  {
    if y <= Y {
      CellSorted(Index(x, y), X, Y, mode);
      ColumnSorted(x, y + 1, X, Y, mode);
      SortedConcat(Cell(Index(x, y), X, Y, mode), Column(x, y + 1, X, Y, mode));
    }
  }

  lemma {:induction false} ColumnsSorted(x: int, X: int, Y: int, mode: Connect)
    ensures DrawsSorted(Columns(x, X, Y, mode))
    ensures forall dr :: dr in Columns(x, X, Y, mode) ==> Origin(dr).x >= x
    decreases X + 1 - x
  {
    if x <= X {
      ColumnSorted(x, -Y, X, Y, mode);
      ColumnsSorted(x + 1, X, Y, mode);
      SortedConcat(Column(x, -Y, X, Y, mode), Columns(x + 1, X, Y, mode));
    }
  }

  /** Keeping only the dots of a sorted stream leaves the points sorted. */
  lemma {:induction false} DotsSorted(s: seq<Draw>)
    requires DrawsSorted(s)
    ensures IndicesSorted(Dots(s))
  {
    if s != [] {
      assert DrawsSorted(s[1..]);
      DotsSorted(s[1..]);
      DotsMembers(s[1..]);
      if s[0].Dot? {
        var ds := Dots(s);
        assert ds == [s[0].at] + Dots(s[1..]);
        forall j | 0 < j < |ds|
          ensures Before(ds[0], ds[j])
        {
          assert ds[j] in Dots(s[1..]);
          var k :| 0 <= k < |s[1..]| && s[1..][k] == Dot(ds[j]);
          assert DrawBefore(s[0], s[k + 1]);
        }
      }
    }
  }

  lemma SortedDistinct(s: seq<Draw>)
    requires DrawsSorted(s)
    ensures Distinct(s)
  {
  }

  /**
   Each point, each omega edge and each 1 edge is drawn exactly once: the
   stream is strictly ordered by (start point, position in the loop body),
   so no draw repeats, and in particular no point is marked twice.
   */
  lemma DrawingOnce(X: nat, Y: nat, mode: Connect)
    ensures Distinct(Drawing(X, Y, mode))
    ensures Distinct(Dots(Drawing(X, Y, mode)))
  {
    ColumnsSorted(-(X as int), X, Y, mode);
    SortedDistinct(Drawing(X, Y, mode));
    DotsSorted(Drawing(X, Y, mode));
  }

  // ---------------------------------------------------------------------
  // The box as a set

  /** The index box as a set. */
  function Box(X: nat, Y: nat): set<Index>
  {
    set x: int, y: int | -(X as int) <= x <= X && -(Y as int) <= y <= Y :: Index(x, y)
  }

  lemma {:induction false} DistinctCard<T>(s: seq<T>)
    requires Distinct(s)
    ensures |set e | e in s| == |s|
  {
    if s != [] {
      var tail := s[1..];
      assert Distinct(tail);
      DistinctCard(tail);
      assert (set e | e in s) == {s[0]} + (set e | e in tail);
      assert s[0] !in tail;
    }
  }

  /**
   The box holds `(2X+1)(2Y+1)` index pairs, and the points drawn are exactly
   the box.
   */
  lemma BoxCardinality(X: nat, Y: nat, mode: Connect)
    ensures (set p | p in Dots(Drawing(X, Y, mode))) == Box(X, Y)
    ensures |Box(X, Y)| == (2 * X + 1) * (2 * Y + 1)
  {
    var ds := Dots(Drawing(X, Y, mode));
    DrawingDots(X, Y, mode);
    DrawingOnce(X, Y, mode);
    DrawingCounts(X, Y, mode);
    forall p | p in Box(X, Y) ensures p in ds {
      assert InBox(p, X, Y);
    }
    DistinctCard(ds);
  }
}
