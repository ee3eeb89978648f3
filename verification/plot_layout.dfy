/** The plot-point layout of a quadrilateral element.

    For output, a quad of polynomial order `order` is drawn on a square grid
    of (order + 3) x (order + 3) points: its four mesh nodes at the corners,
    its 4 (order + 1) flux points along the edges and its (order + 1)^2
    solution points inside. Cell (r, c) of the grid (row r from the bottom,
    column c from the left) is entry r * (order + 3) + c of the output.
    setPpts, getPrimitivesPlot and getGridVelPlot all write this layout; the
    method Scatter below is their common sequence of writes. */
module PlotLayout {
  import opened Matrices

  /** Where the value shown at one plot point comes from. */
  datatype Source = Node(k: nat) | FluxPoint(f: nat) | SolutionPoint(s: nat)

  /** The flat index of cell (r, c) of an n x n grid. */
  function Cell(n: nat, r: nat, c: nat): (k: nat)
    requires r < n && c < n
    ensures k < Area(n, n)
  {
    RowMajorBound(r, c, n, n);
    Area(r, n) + c
  }

  /** The points a quad of this order has: nodes 0 .. 3, flux points
      0 .. 4 (order + 1) - 1 and solution points 0 .. (order + 1)^2 - 1. */
  predicate IsSource(order: nat, src: Source)
  {
    match src
    case Node(k) => k < 4
    case FluxPoint(f) => f < 4 * (order + 1)
    case SolutionPoint(s) => s < Area(order + 1, order + 1)
  }

  /** The point shown at cell (r, c). Corners: node 0 bottom left, node 1
      bottom right, node 2 top right, node 3 top left. Edges: flux points
      0 .. order along the bottom left to right, the next order + 1 up the
      right edge, the next order + 1 along the top right to left and the last
      order + 1 down the left edge. Inside: solution point j + i (order + 1)
      at cell (i + 1, j + 1). */
  function PlotSource(order: nat, r: nat, c: nat): (src: Source)
    requires r < order + 3 && c < order + 3
    ensures IsSource(order, src)
  {
    var last, p := order + 2, order + 1;
    if r == 0 && c == 0 then Node(0)
    else if r == 0 && c == last then Node(1)
    else if r == last && c == last then Node(2)
    else if r == last && c == 0 then Node(3)
    else if r == 0 then FluxPoint(c - 1)
    else if c == 0 then FluxPoint(4 * p - r)
    else if c == last then FluxPoint(p + r - 1)
    else if r == last then FluxPoint(3 * p - c)
    else
      RowMajorBound(r - 1, c - 1, p, p);
      SolutionPoint(Area(r - 1, p) + (c - 1))
  }

  /** The cell that shows a given point: the inverse of PlotSource. */
  function PlotCell(order: nat, src: Source): (rc: (nat, nat))
    requires IsSource(order, src)
    ensures rc.0 < order + 3 && rc.1 < order + 3
  {
    var last, p := order + 2, order + 1;
    match src
    case Node(k) =>
      if k == 0 then (0, 0) else if k == 1 then (0, last) else if k == 2 then (last, last) else (last, 0)
    case FluxPoint(f) =>
      if f < p then (0, f + 1)
      else if f < 2 * p then (f - p + 1, last)
      else if f < 3 * p then (last, 3 * p - f)
      else (4 * p - f, 0)
    case SolutionPoint(s) =>
      Split(s, p, p);
      (s / p + 1, s % p + 1)
  }

  /** Every cell shows a point, and that point is shown at that cell only. */
  lemma PlotCellOfSource(order: nat, r: nat, c: nat)
    requires r < order + 3 && c < order + 3
    ensures PlotCell(order, PlotSource(order, r, c)) == (r, c)
  {
    var last, p := order + 2, order + 1;
    if (r == 0 || r == last) && (c == 0 || c == last) {
    } else if r == 0 {
      assert PlotSource(order, r, c) == FluxPoint(c - 1);
    } else if c == 0 {
      assert PlotSource(order, r, c) == FluxPoint(4 * p - r);
    } else if c == last {
      assert PlotSource(order, r, c) == FluxPoint(p + r - 1);
    } else if r == last {
      assert PlotSource(order, r, c) == FluxPoint(3 * p - c);
    } else {
      DivMod(r - 1, c - 1, p);
      assert PlotSource(order, r, c) == SolutionPoint(Area(r - 1, p) + (c - 1));
    }
  }

  /** Every point of the element is shown, at the cell PlotCell names: with
      PlotCellOfSource, the layout is a bijection between the grid cells and
      the nodes, flux points and solution points. */
  lemma PlotSourceOfCell(order: nat, src: Source)
    requires IsSource(order, src)
    ensures PlotSource(order, PlotCell(order, src).0, PlotCell(order, src).1) == src
  {
    if src.SolutionPoint? {
      Split(src.s, order + 1, order + 1);
    }
  }

  /** The grid has exactly one cell per point: (order + 3)^2 equals the four
      nodes plus 4 (order + 1) flux points plus (order + 1)^2 solution points,
      the row count nSpts + nFpts + nNodes of the plot matrices. */
  lemma GridCount(order: nat)
    ensures Area(order + 3, order + 3) == Area(order + 1, order + 1) + 4 * (order + 1) + 4
  {
    var p := order + 1;
    assert (p + 2) * (p + 2) == p * p + 4 * p + 4;
  }

  // ---------------------------------------------------------------------
  // The layout as a value

  /** The inputs hold every point the layout reads. */
  predicate Fits<T>(order: nat, nodes: seq<T>, fpts: seq<T>, spts: seq<T>)
  {
    |nodes| >= 4 && |fpts| == 4 * (order + 1) && |spts| >= Area(order + 1, order + 1)
  }

  /** The value shown at cell (r, c). */
  function PlotAt<T>(order: nat, nodes: seq<T>, fpts: seq<T>, spts: seq<T>, r: nat, c: nat): T
    requires Fits(order, nodes, fpts, spts) && r < order + 3 && c < order + 3
  {
    match PlotSource(order, r, c)
    case Node(k) => nodes[k]
    case FluxPoint(f) => fpts[f]
    case SolutionPoint(s) => spts[s]
  }

  /** The whole grid, cell by cell (LayoutAt gives each cell). */
  function Layout<T>(order: nat, nodes: seq<T>, fpts: seq<T>, spts: seq<T>): (out: seq<T>)
    requires Fits(order, nodes, fpts, spts)
    ensures |out| == Area(order + 3, order + 3)
  {
    var n := order + 3;
    seq(Area(n, n), k requires 0 <= k < Area(n, n) =>
      Split(k, n, n); PlotAt(order, nodes, fpts, spts, k / n, k % n))
  }

  /** Cell (r, c) of the layout shows PlotAt(r, c). */
  lemma LayoutAt<T>(order: nat, nodes: seq<T>, fpts: seq<T>, spts: seq<T>, r: nat, c: nat)
    requires Fits(order, nodes, fpts, spts) && r < order + 3 && c < order + 3
    ensures Layout(order, nodes, fpts, spts)[Cell(order + 3, r, c)] == PlotAt(order, nodes, fpts, spts, r, c)
  {
    DivMod(r, c, order + 3);
  }

  /** Every point of the element appears in the layout, at its cell. */
  lemma LayoutShows<T>(order: nat, nodes: seq<T>, fpts: seq<T>, spts: seq<T>, src: Source)
    requires Fits(order, nodes, fpts, spts) && IsSource(order, src)
    ensures src.Node? ==> Layout(order, nodes, fpts, spts)[Cell(order + 3, PlotCell(order, src).0, PlotCell(order, src).1)] == nodes[src.k]
    ensures src.FluxPoint? ==> Layout(order, nodes, fpts, spts)[Cell(order + 3, PlotCell(order, src).0, PlotCell(order, src).1)] == fpts[src.f]
    ensures src.SolutionPoint? ==> Layout(order, nodes, fpts, spts)[Cell(order + 3, PlotCell(order, src).0, PlotCell(order, src).1)] == spts[src.s]
  {
    var rc := PlotCell(order, src);
    PlotSourceOfCell(order, src);
    LayoutAt(order, nodes, fpts, spts, rc.0, rc.1);
  }

  /** Two lists of one grid's size that agree on every cell are equal. */
  lemma GridExt<T>(a: seq<T>, b: seq<T>, n: nat)
    requires |a| == |b| == Area(n, n)
    requires forall r, c :: 0 <= r < n && 0 <= c < n ==> a[Cell(n, r, c)] == b[Cell(n, r, c)]
    ensures a == b
  {
    forall k | 0 <= k < |a|
      ensures a[k] == b[k]
    {
      Split(k, n, n);
      assert k == Cell(n, k / n, k % n);
    }
  }

  // ---------------------------------------------------------------------
  // The writes, in the order the element routines make them

  /** Cell (r, c) replaced by v; every other cell unchanged. */
  function Put<T>(out: seq<T>, n: nat, r: nat, c: nat, v: T): (o: seq<T>)
    requires r < n && c < n && |out| == Area(n, n)
    ensures |o| == |out|
    ensures forall r', c' :: 0 <= r' < n && 0 <= c' < n ==>
      o[Cell(n, r', c')] == if r' == r && c' == c then v else out[Cell(n, r', c')]
  {
    var o := out[Cell(n, r, c) := v];
    assert forall r', c' :: 0 <= r' < n && 0 <= c' < n ==>
        o[Cell(n, r', c')] == if r' == r && c' == c then v else out[Cell(n, r', c')] by {
      forall r': nat, c': nat | r' < n && c' < n
        ensures o[Cell(n, r', c')] == if r' == r && c' == c then v else out[Cell(n, r', c')]
      {
        if Cell(n, r', c') == Cell(n, r, c) {
          PositionInjective(r', c', r, c, n);
        }
      }
    }
    o
  }

  /** The cells written once the corners, the first e edge positions of every
      side, the first i interior rows and the first j cells of row i are done. */
  predicate Done(order: nat, r: nat, c: nat, e: nat, i: nat, j: nat)
  {
    var last := order + 2;
    ((r == 0 || r == last) && (c == 0 || c == last))
    || ((r == 0 || r == last) && 1 <= c <= e)
    || ((c == 0 || c == last) && 1 <= r <= e)
    || (1 <= r < last && 1 <= c < last && (r - 1 < i || (r - 1 == i && c - 1 < j)))
  }

  /** out agrees with the target grid L on the cells Done names and with
      before on the rest. */
  ghost predicate Shows<T>(out: seq<T>, before: seq<T>, L: seq<T>, order: nat, e: nat, i: nat, j: nat)
  {
    |out| == |before| == |L| == Area(order + 3, order + 3) &&
    forall r, c :: 0 <= r < order + 3 && 0 <= c < order + 3 ==>
      out[Cell(order + 3, r, c)] ==
        if Done(order, r, c, e, i, j) then L[Cell(order + 3, r, c)] else before[Cell(order + 3, r, c)]
  }

  /** The writes of setPpts, getPrimitivesPlot and getGridVelPlot: the four
      corners, then the flux points side by side, then the solution points
      row by row. Each cell is written once, so what the output held before
      does not matter. */
  method Scatter<T>(out0: seq<T>, order: nat, nodes: seq<T>, fpts: seq<T>, spts: seq<T>) returns (out: seq<T>)
    requires |out0| == Area(order + 3, order + 3)
    requires Fits(order, nodes, fpts, spts)
    ensures out == Layout(order, nodes, fpts, spts)
  {
    ghost var L := Layout(order, nodes, fpts, spts);
    out := ScatterCorners(out0, order, nodes, fpts, spts, L);
    out := ScatterEdges(out, out0, order, nodes, fpts, spts, L);
    out := ScatterInterior(out, out0, order, nodes, fpts, spts, L);
  }

  /** The corner cells take the mesh nodes. */
  method ScatterCorners<T>(out0: seq<T>, order: nat, nodes: seq<T>, fpts: seq<T>, spts: seq<T>, ghost L: seq<T>)
    returns (out: seq<T>)
    requires |out0| == Area(order + 3, order + 3)
    requires Fits(order, nodes, fpts, spts) && L == Layout(order, nodes, fpts, spts)
    ensures Shows(out, out0, L, order, 0, 0, 0)
  {
    var n, last := order + 3, order + 2;
    LayoutAt(order, nodes, fpts, spts, 0, 0);
    LayoutAt(order, nodes, fpts, spts, 0, last);
    LayoutAt(order, nodes, fpts, spts, last, 0);
    LayoutAt(order, nodes, fpts, spts, last, last);
    out := Put(out0, n, 0, 0, nodes[0]);
    out := Put(out, n, 0, last, nodes[1]);
    out := Put(out, n, last, 0, nodes[3]);
    out := Put(out, n, last, last, nodes[2]);
  }

  /** The edge cells take the flux points, one position of every side per
      iteration. */
  method ScatterEdges<T>(out1: seq<T>, out0: seq<T>, order: nat, nodes: seq<T>, fpts: seq<T>, spts: seq<T>, ghost L: seq<T>)
    returns (out: seq<T>)
    requires Fits(order, nodes, fpts, spts) && L == Layout(order, nodes, fpts, spts)
    requires Shows(out1, out0, L, order, 0, 0, 0)
    ensures Shows(out, out0, L, order, order + 1, 0, 0)
  {
    out := out1;
    var i := 0;
    while i < order + 1
      invariant 0 <= i <= order + 1
      invariant Shows(out, out0, L, order, i, 0, 0)
    {
      LayoutAt(order, nodes, fpts, spts, 0, i + 1);
      LayoutAt(order, nodes, fpts, spts, i + 1, 0);
      LayoutAt(order, nodes, fpts, spts, i + 1, order + 2);
      LayoutAt(order, nodes, fpts, spts, order + 2, i + 1);
      out := ScatterEdge(out, out0, order, fpts, L, i);
      i := i + 1;
    }
  }

  /** Iteration i of the edges: the i-th cell of the bottom, left, right and
      top sides. */
  method ScatterEdge<T>(out1: seq<T>, out0: seq<T>, order: nat, fpts: seq<T>, ghost L: seq<T>, i: nat)
    returns (out: seq<T>)
    requires |fpts| == 4 * (order + 1) && i < order + 1
    requires Shows(out1, out0, L, order, i, 0, 0)
    requires L[Cell(order + 3, 0, i + 1)] == fpts[i]
    requires L[Cell(order + 3, i + 1, 0)] == fpts[|fpts| - i - 1]
    requires L[Cell(order + 3, i + 1, order + 2)] == fpts[order + 1 + i]
    requires L[Cell(order + 3, order + 2, i + 1)] == fpts[3 * (order + 1) - i - 1]
    ensures Shows(out, out0, L, order, i + 1, 0, 0)
  {
    var n, last, p := order + 3, order + 2, order + 1;
    var o1 := Put(out1, n, 0, i + 1, fpts[i]);
    var o2 := Put(o1, n, i + 1, 0, fpts[|fpts| - i - 1]);
    var o3 := Put(o2, n, i + 1, last, fpts[p + i]);
    out := Put(o3, n, last, i + 1, fpts[3 * p - i - 1]);
    forall r: nat, c: nat | r < n && c < n
      ensures out[Cell(n, r, c)] == if Done(order, r, c, i + 1, 0, 0) then L[Cell(n, r, c)] else out0[Cell(n, r, c)]
    {
      var k := Cell(n, r, c);
      if r == last && c == i + 1 {
      } else if r == 0 && c == i + 1 {
        assert out[k] == o3[k] == o2[k] == o1[k];
      } else if c == last && r == i + 1 {
        assert out[k] == o3[k];
      } else if c == 0 && r == i + 1 {
        assert out[k] == o3[k] == o2[k];
      } else {
        assert out[k] == o3[k] == o2[k] == o1[k] == out1[k];
        assert Done(order, r, c, i + 1, 0, 0) == Done(order, r, c, i, 0, 0);
      }
    }
  }

  /** The interior cells take the solution points, row by row; after them
      every cell holds its layout value. */
  method ScatterInterior<T>(out1: seq<T>, out0: seq<T>, order: nat, nodes: seq<T>, fpts: seq<T>, spts: seq<T>,
                            ghost L: seq<T>)
    returns (out: seq<T>)
    requires Fits(order, nodes, fpts, spts) && L == Layout(order, nodes, fpts, spts)
    requires Shows(out1, out0, L, order, order + 1, 0, 0)
    ensures out == L
  {
    out := out1;
    var i := 0;
    while i < order + 1
      invariant 0 <= i <= order + 1
      invariant Shows(out, out0, L, order, order + 1, i, 0)
    {
      out := ScatterRow(out, out0, order, nodes, fpts, spts, L, i);
      i := i + 1;
    }
    var n := order + 3;
    forall r: nat, c: nat | r < n && c < n
      ensures out[Cell(n, r, c)] == L[Cell(n, r, c)]
    {
      assert Done(order, r, c, order + 1, order + 1, 0);
    }
    GridExt(out, L, n);
  }

  /** Interior row i: cell (i + 1, j + 1) takes solution point j + i (order + 1). */
  method ScatterRow<T>(out1: seq<T>, out0: seq<T>, order: nat, nodes: seq<T>, fpts: seq<T>, spts: seq<T>,
                       ghost L: seq<T>, i: nat)
    returns (out: seq<T>)
    requires Fits(order, nodes, fpts, spts) && L == Layout(order, nodes, fpts, spts) && i < order + 1
    requires Shows(out1, out0, L, order, order + 1, i, 0)
    ensures Shows(out, out0, L, order, order + 1, i + 1, 0)
  {
    var n, p := order + 3, order + 1;
    out := out1;
    var j := 0;
    while j < p
      invariant 0 <= j <= p
      invariant Shows(out, out0, L, order, p, i, j)
    {
      RowMajorBound(i, j, p, p);
      LayoutAt(order, nodes, fpts, spts, i + 1, j + 1);
      out := ScatterCell(out, out0, order, spts, L, i, j);
      j := j + 1;
    }
    forall r: nat, c: nat | r < n && c < n
      ensures out[Cell(n, r, c)] == if Done(order, r, c, p, i + 1, 0) then L[Cell(n, r, c)] else out0[Cell(n, r, c)]
    {
      assert Done(order, r, c, p, i, p) == Done(order, r, c, p, i + 1, 0);
    }
  }

  /** Cell (i + 1, j + 1) takes solution point j + i (order + 1). */
  method ScatterCell<T>(out1: seq<T>, out0: seq<T>, order: nat, spts: seq<T>, ghost L: seq<T>, i: nat, j: nat)
    returns (out: seq<T>)
    requires i < order + 1 && j < order + 1 && |spts| >= Area(order + 1, order + 1)
    requires Shows(out1, out0, L, order, order + 1, i, j)
    requires Area(i, order + 1) + j < |spts| && L[Cell(order + 3, i + 1, j + 1)] == spts[Area(i, order + 1) + j]
    ensures Shows(out, out0, L, order, order + 1, i, j + 1)
  {
    var n, p := order + 3, order + 1;
    out := Put(out1, n, i + 1, j + 1, spts[Area(i, p) + j]);
    forall r: nat, c: nat | r < n && c < n
      ensures out[Cell(n, r, c)] == if Done(order, r, c, p, i, j + 1) then L[Cell(n, r, c)] else out0[Cell(n, r, c)]
    {
      if r != i + 1 || c != j + 1 {
        assert Done(order, r, c, p, i, j + 1) == Done(order, r, c, p, i, j);
      }
    }
  }
}
