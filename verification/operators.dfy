/** The Flux Reconstruction operators of one element type: extrapolation from
    solution points to flux points and to the corners, the gradient at the
    solution points, and the VCJH correction; and the products that apply
    them to a solution or a flux.

    The one-dimensional Lagrange polynomials, the Dubiner basis on triangles,
    the VCJH correction functions and their eta parameter are computed by
    routines outside this model; they enter as the fields of a Basis value. */
module Operators {
  import opened Common
  import opened Global
  import opened Matrices

  /** The basis routines the operators are built from, left abstract:
      lagrange(pts, x, m) and dLagrange(pts, x, m) are the m-th 1-D Lagrange
      polynomial through pts and its derivative at x; dubiner, drDubiner and
      dsDubiner(p, m, order) are the m-th Dubiner mode and its r and s
      derivatives at p; dVCJH(x, side, order, eta) is the derivative of the
      1-D correction function anchored at the left (0) or right (1) end; and
      eta(scheme, order) is the scheme's VCJH parameter. */
  datatype Basis = Basis(
    lagrange: (seq<real>, real, nat) -> real,
    dLagrange: (seq<real>, real, nat) -> real,
    dubiner: (Point, nat, nat) -> real,
    drDubiner: (Point, nat, nat) -> real,
    dsDubiner: (Point, nat, nat) -> real,
    dVCJH: (real, nat, nat, real) -> real,
    eta: (int, nat) -> real)

  // ---------------------------------------------------------------------
  // Tensor-product numbering of quad solution points

  /** The points per grid row as the set-up routines compute it: nSpts / (order + 1). */
  function PerRow(nSpts: nat, order: nat): nat
  {
    nSpts / (order + 1)
  }

  /** The x index of solution point s: s mod (nSpts / (order + 1)). */
  function XId(s: nat, nSpts: nat, order: nat): nat
  {
    if PerRow(nSpts, order) == 0 then 0 else s % PerRow(nSpts, order)
  }

  /** The y index of solution point s: s div (order + 1). */
  function YId(s: nat, order: nat): nat
  {
    s / (order + 1)
  }

  /** The solution point in column x of grid row y. */
  function TensorPoint(x: nat, y: nat, order: nat): nat
  {
    Area(y, order + 1) + x
  }

  /** On the (order + 1)^2 grid of a quad, point s sits in column s mod
      (order + 1) and row s div (order + 1), both at most order, and is
      recovered from them. */
  lemma TensorIndex(s: nat, order: nat)
    requires s < Area(order + 1, order + 1)
    ensures XId(s, Area(order + 1, order + 1), order) == s % (order + 1) <= order
    ensures YId(s, order) <= order
    ensures TensorPoint(XId(s, Area(order + 1, order + 1), order), YId(s, order), order) == s
  {
    var n := order + 1;
    DivMod(n, 0, n);
    assert PerRow(Area(n, n), order) == n;
    Split(s, n, n);
  }

  /** The column and row indices of the point in column x of row y are x and y:
      the numbering is a bijection between 0 .. (order+1)^2 - 1 and the grid. */
  lemma TensorPointIndex(x: nat, y: nat, order: nat)
    requires x <= order && y <= order
    ensures TensorPoint(x, y, order) < Area(order + 1, order + 1)
    ensures XId(TensorPoint(x, y, order), Area(order + 1, order + 1), order) == x
    ensures YId(TensorPoint(x, y, order), order) == y
  {
    var n := order + 1;
    DivMod(n, 0, n);
    assert PerRow(Area(n, n), order) == n;
    DivMod(y, x, n);
    RowMajorBound(y, x, n, n);
  }

  // ---------------------------------------------------------------------
  // Flux points on the faces of a quad

  /** The face a quad flux point lies on: fpt div (order + 1). */
  function Face(fpt: nat, order: nat): nat
  {
    fpt / (order + 1)
  }

  /** The index of a flux point along its face, fpt - (order + 1) * face. */
  function Local(fpt: nat, order: nat): nat
  {
    fpt % (order + 1)
  }

  /** Face and local index split a flux point number, and are recovered from
      the number they build. */
  lemma FaceSplit(face: nat, j: nat, order: nat)
    requires j <= order
    ensures Face(Area(face, order + 1) + j, order) == face
    ensures Local(Area(face, order + 1) + j, order) == j
  {
    DivMod(face, j, order + 1);
  }

  /** The sign of each face's correction term: faces 0 (bottom) and 3 (left)
      point against their coordinate. */
  function FaceSign(face: nat): real
  {
    if face == 0 || face == 3 then -1.0 else 1.0
  }

  /** The reference coordinate a face's points run along: x on the bottom and
      top faces, y on the right and left ones. */
  function FaceAxis(face: nat): nat
  {
    if face == 0 || face == 2 then 0 else 1
  }

  /** The end of the 1-D correction function a face uses: the right end for
      faces 1 and 2, the left end for faces 0 and 3. */
  function FaceEnd(face: nat): nat
  {
    if face == 1 || face == 2 then 1 else 0
  }

  /** Faces 2 (top) and 3 (left) number their points against the coordinate. */
  function FaceReversed(face: nat): bool
  {
    face == 2 || face == 3
  }

  /** The VCJH parameter: 0 for the DG scheme, otherwise the scheme's eta. */
  function Eta(b: Basis, vcjh: int, order: nat): real
  {
    if vcjh == DG then 0.0 else b.eta(vcjh, order)
  }

  /** divVCJH_quad: the divergence of the correction function of flux point
      fpt at the reference location loc. Each face uses the Lagrange polynomial
      along its own axis (reversed on faces 2 and 3) times the correction
      derivative across it, negated on faces 0 and 3; a flux point past the
      fourth face gets 0. */
  function DivVCJHQuad(b: Basis, fpt: nat, loc: seq<real>, pts1D: seq<real>, vcjh: int, order: nat): (r: real)
    requires |loc| >= 2
    ensures Face(fpt, order) >= 4 ==> r == 0.0
    ensures Face(fpt, order) < 4 ==>
      var face, j := Face(fpt, order), Local(fpt, order);
      r == FaceSign(face) * (b.lagrange(pts1D, loc[FaceAxis(face)], if FaceReversed(face) then order - j else j)
                             * b.dVCJH(loc[1 - FaceAxis(face)], FaceEnd(face), order, Eta(b, vcjh, order)))
  {
    var eta := Eta(b, vcjh, order);
    var i := Face(fpt, order);
    var j := Local(fpt, order);
    if i == 0 then -b.lagrange(pts1D, loc[0], j) * b.dVCJH(loc[1], 0, order, eta)
    else if i == 1 then b.lagrange(pts1D, loc[1], j) * b.dVCJH(loc[0], 1, order, eta)
    else if i == 2 then b.lagrange(pts1D, loc[0], order - j) * b.dVCJH(loc[1], 1, order, eta)
    else if i == 3 then -b.lagrange(pts1D, loc[1], order - j) * b.dVCJH(loc[0], 0, order, eta)
    else 0.0
  }

  /** divVCJH_quad reads only the first two coordinates of the location. */
  lemma DivVCJHQuadPlanar(b: Basis, fpt: nat, loc: seq<real>, loc': seq<real>, pts1D: seq<real>, vcjh: int, order: nat)
    requires |loc| >= 2 && |loc'| >= 2 && loc[0] == loc'[0] && loc[1] == loc'[1]
    ensures DivVCJHQuad(b, fpt, loc, pts1D, vcjh, order) == DivVCJHQuad(b, fpt, loc', pts1D, vcjh, order)
  {
  }

  // ---------------------------------------------------------------------
  // The operator matrices

  /** Entry (fpt, spt) of the solution-to-flux-point extrapolation. */
  function SptsFptsEntry(b: Basis, eType: int, order: nat, pts1D: seq<real>, locFpts: seq<Point>, nSpts: nat): (nat, nat) -> real
  {
    (f: nat, s: nat) =>
      if f >= |locFpts| then 0.0
      else if eType == TRI then b.dubiner(locFpts[f], s, order)
      else Scale(b.lagrange(pts1D, locFpts[f].x, XId(s, nSpts, order)), b.lagrange(pts1D, locFpts[f].y, YId(s, order)))
  }

  /** setupExtrapolateSptsFpts: the nFpts x nSpts matrix taking solution-point
      values to flux-point values. A triangle uses the Dubiner modes, a quad
      the tensor product of 1-D Lagrange polynomials; any other element type
      is fatal as soon as there is an entry to compute. */
  function ExtrapolateSptsFpts(b: Basis, eType: int, order: nat, pts1D: seq<real>, nSpts: nat, locFpts: seq<Point>): (r: Result<Mat>)
    ensures r.Error? <==> eType != TRI && eType != QUAD && |locFpts| > 0 && nSpts > 0
    ensures r.Ok? ==> r.value.Valid() && r.value.dim0 == |locFpts| && r.value.dim1 == nSpts
  {
    if eType != TRI && eType != QUAD && |locFpts| > 0 && nSpts > 0 then Error("Element type not yet supported.")
    else Ok(Tabulate(|locFpts|, nSpts, SptsFptsEntry(b, eType, order, pts1D, locFpts, nSpts)))
  }

  /** On a triangle, entry (fpt, spt) is Dubiner mode spt at flux point fpt. */
  lemma SptsFptsTri(b: Basis, order: nat, pts1D: seq<real>, nSpts: nat, locFpts: seq<Point>, f: nat, s: nat)
    requires f < |locFpts| && s < nSpts
    ensures ExtrapolateSptsFpts(b, TRI, order, pts1D, nSpts, locFpts).value.At(f, s) == b.dubiner(locFpts[f], s, order)
  {
  }

  lemma SptsFptsAt(b: Basis, eType: int, order: nat, pts1D: seq<real>, nSpts: nat, locFpts: seq<Point>, f: nat, s: nat)
    requires eType == TRI || eType == QUAD
    requires f < |locFpts| && s < nSpts
    ensures ExtrapolateSptsFpts(b, eType, order, pts1D, nSpts, locFpts).value.At(f, s) ==
      SptsFptsEntry(b, eType, order, pts1D, locFpts, nSpts)(f, s)
  {
  }

  /** On a quad with (order + 1)^2 solution points, entry (fpt, spt) is the
      product of the Lagrange polynomials of the column spt mod (order + 1)
      at x and of the row spt div (order + 1) at y. */
  lemma SptsFptsQuad(b: Basis, order: nat, pts1D: seq<real>, locFpts: seq<Point>, f: nat, s: nat)
    requires f < |locFpts| && s < Area(order + 1, order + 1)
    ensures ExtrapolateSptsFpts(b, QUAD, order, pts1D, Area(order + 1, order + 1), locFpts).value.At(f, s) ==
      b.lagrange(pts1D, locFpts[f].x, s % (order + 1)) * b.lagrange(pts1D, locFpts[f].y, s / (order + 1))
  {
    SptsFptsAt(b, QUAD, order, pts1D, Area(order + 1, order + 1), locFpts, f, s);
    TensorIndex(s, order);
  }

  /** The reference-triangle vertices (-1,-1), (1,-1) and (-1,1). */
  function TriVertex(r: nat): Point
  {
    if r == 0 then Point(-1.0, -1.0, 0.0) else if r == 1 then Point(1.0, -1.0, 0.0) else Point(-1.0, 1.0, 0.0)
  }

  /** Entry (corner, spt) of the solution-to-corner extrapolation: on a quad,
      the tensor-product basis function of spt at the corners (-1,-1), (1,-1),
      (1,1) and (-1,1), row by row. */
  function SptsMptsEntry(b: Basis, eType: int, order: nat, pts1D: seq<real>, nSpts: nat): (nat, nat) -> real
  {
    (r: nat, s: nat) =>
      if eType == TRI then b.dubiner(TriVertex(r), s, order)
      else
        var i, j := XId(s, nSpts, order), YId(s, order);
        if r == 0 then Scale(b.lagrange(pts1D, -1.0, i), b.lagrange(pts1D, -1.0, j))
        else if r == 1 then Scale(b.lagrange(pts1D, 1.0, i), b.lagrange(pts1D, -1.0, j))
        else if r == 2 then Scale(b.lagrange(pts1D, 1.0, i), b.lagrange(pts1D, 1.0, j))
        else Scale(b.lagrange(pts1D, -1.0, i), b.lagrange(pts1D, 1.0, j))
  }

  /** setupExtrapolateSptsMpts: solution-point values to the element corners,
      3 rows for a triangle and 4 for a quad, corner by corner; any other
      element type is fatal. */
  function ExtrapolateSptsMpts(b: Basis, eType: int, order: nat, pts1D: seq<real>, nSpts: nat): (r: Result<Mat>)
    ensures r.Error? <==> eType != TRI && eType != QUAD
    ensures r.Ok? ==> r.value.Valid() && r.value.dim0 == (if eType == TRI then 3 else 4) && r.value.dim1 == nSpts
  {
    if eType == TRI then Ok(Tabulate(3, nSpts, SptsMptsEntry(b, eType, order, pts1D, nSpts)))
    else if eType == QUAD then Ok(Tabulate(4, nSpts, SptsMptsEntry(b, eType, order, pts1D, nSpts)))
    else Error("Element type not yet supported.")
  }

  /** On a triangle the rows are the vertices (-1,-1), (1,-1), (-1,1) in that order. */
  lemma SptsMptsTri(b: Basis, order: nat, pts1D: seq<real>, nSpts: nat, s: nat)
    requires s < nSpts
    ensures var m := ExtrapolateSptsMpts(b, TRI, order, pts1D, nSpts).value;
      && m.At(0, s) == b.dubiner(Point(-1.0, -1.0, 0.0), s, order)
      && m.At(1, s) == b.dubiner(Point(1.0, -1.0, 0.0), s, order)
      && m.At(2, s) == b.dubiner(Point(-1.0, 1.0, 0.0), s, order)
  {
    assert TriVertex(0) == Point(-1.0, -1.0, 0.0);
    assert TriVertex(1) == Point(1.0, -1.0, 0.0);
    assert TriVertex(2) == Point(-1.0, 1.0, 0.0);
  }

  lemma SptsMptsAt(b: Basis, order: nat, pts1D: seq<real>, nSpts: nat, r: nat, s: nat)
    requires r < 4 && s < nSpts
    ensures ExtrapolateSptsMpts(b, QUAD, order, pts1D, nSpts).value.At(r, s) == SptsMptsEntry(b, QUAD, order, pts1D, nSpts)(r, s)
  {
  }

  /** On a quad with (order + 1)^2 solution points the rows are the corners
      (-1,-1), (1,-1), (1,1), (-1,1) in that order. */
  lemma SptsMptsQuad(b: Basis, order: nat, pts1D: seq<real>, s: nat)
    requires s < Area(order + 1, order + 1)
    ensures ExtrapolateSptsMpts(b, QUAD, order, pts1D, Area(order + 1, order + 1)).value.At(0, s) ==
      b.lagrange(pts1D, -1.0, s % (order + 1)) * b.lagrange(pts1D, -1.0, s / (order + 1))
    ensures ExtrapolateSptsMpts(b, QUAD, order, pts1D, Area(order + 1, order + 1)).value.At(1, s) ==
      b.lagrange(pts1D, 1.0, s % (order + 1)) * b.lagrange(pts1D, -1.0, s / (order + 1))
    ensures ExtrapolateSptsMpts(b, QUAD, order, pts1D, Area(order + 1, order + 1)).value.At(2, s) ==
      b.lagrange(pts1D, 1.0, s % (order + 1)) * b.lagrange(pts1D, 1.0, s / (order + 1))
    ensures ExtrapolateSptsMpts(b, QUAD, order, pts1D, Area(order + 1, order + 1)).value.At(3, s) ==
      b.lagrange(pts1D, -1.0, s % (order + 1)) * b.lagrange(pts1D, 1.0, s / (order + 1))
  {
    var n := Area(order + 1, order + 1);
    TensorIndex(s, order);
    var i, j := s % (order + 1), s / (order + 1);
    assert XId(s, n, order) == i && YId(s, order) == j;
    var m := ExtrapolateSptsMpts(b, QUAD, order, pts1D, n).value;
    SptsMptsAt(b, order, pts1D, n, 0, s);
    assert m.At(0, s) == Scale(b.lagrange(pts1D, -1.0, i), b.lagrange(pts1D, -1.0, j));
    SptsMptsAt(b, order, pts1D, n, 1, s);
    assert m.At(1, s) == Scale(b.lagrange(pts1D, 1.0, i), b.lagrange(pts1D, -1.0, j));
    SptsMptsAt(b, order, pts1D, n, 2, s);
    assert m.At(2, s) == Scale(b.lagrange(pts1D, 1.0, i), b.lagrange(pts1D, 1.0, j));
    SptsMptsAt(b, order, pts1D, n, 3, s);
    assert m.At(3, s) == Scale(b.lagrange(pts1D, -1.0, i), b.lagrange(pts1D, 1.0, j));
  }

  /** Entry (spt1, spt2) of the gradient operator in reference direction dim. */
  function GradEntry(b: Basis, eType: int, order: nat, pts1D: seq<real>, locSpts: seq<Point>, dim: nat): (nat, nat) -> real
  {
    (s1: nat, s2: nat) =>
      if eType == TRI then
        if s1 >= |locSpts| then 0.0
        else if dim == 0 then b.drDubiner(locSpts[s1], s2, order)
        else b.dsDubiner(locSpts[s1], s2, order)
      else
        var nSpts := |locSpts|;
        var x1, y1, x2, y2 := XId(s1, nSpts, order), YId(s1, order), XId(s2, nSpts, order), YId(s2, order);
        if x1 >= |pts1D| || y1 >= |pts1D| then 0.0
        else if dim == 0 then Scale(b.dLagrange(pts1D, pts1D[x1], x2), b.lagrange(pts1D, pts1D[y1], y2))
        else Scale(b.dLagrange(pts1D, pts1D[y1], y2), b.lagrange(pts1D, pts1D[x1], x2))
  }

  /** The gradient matrices before they are filled: the list resized to nDims
      (new entries empty), each matrix reshaped to nSpts x nSpts. */
  function GradBase(grad0: seq<Mat>, nDims: nat, nSpts: nat): (g: seq<Mat>)
    ensures |g| == nDims
    ensures forall d :: 0 <= d < nDims ==> g[d].Valid() && g[d].dim0 == nSpts && g[d].dim1 == nSpts
  {
    seq(nDims, d requires 0 <= d < nDims => Resize(grad0, nDims, Mat(0, 0, []))[d].Resized(nSpts, nSpts))
  }

  /** setupGradSpts: nDims matrices, each nSpts x nSpts, the derivative of
      every solution-point basis function at every solution point. A triangle
      fills directions 0 and 1 from the Dubiner derivatives and leaves the
      others as resized; a quad fills every direction; any other element type
      is fatal. */
  function GradSpts(b: Basis, eType: int, order: nat, pts1D: seq<real>, locSpts: seq<Point>, nDims: nat, grad0: seq<Mat>): (r: Result<seq<Mat>>)
    ensures r.Error? <==> eType != TRI && eType != QUAD
    ensures r.Ok? ==> |r.value| == nDims && forall d :: 0 <= d < nDims ==>
      r.value[d].Valid() && r.value[d].dim0 == |locSpts| && r.value[d].dim1 == |locSpts|
    ensures r.Ok? && eType == TRI ==> forall d :: 2 <= d < nDims ==> r.value[d] == GradBase(grad0, nDims, |locSpts|)[d]
  {
    var nSpts := |locSpts|;
    var base := GradBase(grad0, nDims, nSpts);
    if eType == TRI then
      Ok(seq(nDims, d requires 0 <= d < nDims =>
        if d < 2 && nSpts > 0 then Tabulate(nSpts, nSpts, GradEntry(b, eType, order, pts1D, locSpts, d)) else base[d]))
    else if eType == QUAD then
      Ok(seq(nDims, d requires 0 <= d < nDims => Tabulate(nSpts, nSpts, GradEntry(b, eType, order, pts1D, locSpts, d))))
    else Error("Element type not yet supported.")
  }

  /** On a triangle, direction 0 holds the r-derivatives and direction 1 the
      s-derivatives of the Dubiner modes at the solution points. */
  lemma GradTri(b: Basis, order: nat, pts1D: seq<real>, locSpts: seq<Point>, nDims: nat, grad0: seq<Mat>, s1: nat, s2: nat)
    requires nDims >= 2 && s1 < |locSpts| && s2 < |locSpts|
    ensures var g := GradSpts(b, TRI, order, pts1D, locSpts, nDims, grad0).value;
      && g[0].At(s1, s2) == b.drDubiner(locSpts[s1], s2, order)
      && g[1].At(s1, s2) == b.dsDubiner(locSpts[s1], s2, order)
  {
  }

  lemma GradAt(b: Basis, order: nat, pts1D: seq<real>, locSpts: seq<Point>, nDims: nat, grad0: seq<Mat>, d: nat, s1: nat, s2: nat)
    requires d < nDims && s1 < |locSpts| && s2 < |locSpts|
    ensures GradSpts(b, QUAD, order, pts1D, locSpts, nDims, grad0).value[d].At(s1, s2) ==
      GradEntry(b, QUAD, order, pts1D, locSpts, d)(s1, s2)
  {
  }

  /** On a quad with (order + 1)^2 solution points, entry (spt1, spt2) of
      direction 0 is the x-derivative of spt2's column polynomial at spt1's
      x node times spt2's row polynomial at spt1's y node; every other
      direction differentiates along y instead. */
  lemma GradQuad(b: Basis, order: nat, pts1D: seq<real>, locSpts: seq<Point>, nDims: nat, grad0: seq<Mat>, d: nat, s1: nat, s2: nat)
    requires |locSpts| == Area(order + 1, order + 1) && |pts1D| > order
    requires d < nDims && s1 < |locSpts| && s2 < |locSpts|
    ensures var n := order + 1;
      var x1, y1, x2, y2 := s1 % n, s1 / n, s2 % n, s2 / n;
      x1 < |pts1D| && y1 < |pts1D| &&
      GradSpts(b, QUAD, order, pts1D, locSpts, nDims, grad0).value[d].At(s1, s2) ==
        if d == 0 then b.dLagrange(pts1D, pts1D[x1], x2) * b.lagrange(pts1D, pts1D[y1], y2)
        else b.dLagrange(pts1D, pts1D[y1], y2) * b.lagrange(pts1D, pts1D[x1], x2)
  {
    var n := order + 1;
    TensorIndex(s1, order);
    TensorIndex(s2, order);
    var x1, y1, x2, y2 := s1 % n, s1 / n, s2 % n, s2 / n;
    assert XId(s1, |locSpts|, order) == x1 && YId(s1, order) == y1;
    assert XId(s2, |locSpts|, order) == x2 && YId(s2, order) == y2;
    var g := GradSpts(b, QUAD, order, pts1D, locSpts, nDims, grad0).value;
    GradAt(b, order, pts1D, locSpts, nDims, grad0, d, s1, s2);
    if d == 0 {
      assert g[d].At(s1, s2) == Scale(b.dLagrange(pts1D, pts1D[x1], x2), b.lagrange(pts1D, pts1D[y1], y2));
    } else {
      assert g[d].At(s1, s2) == Scale(b.dLagrange(pts1D, pts1D[y1], y2), b.lagrange(pts1D, pts1D[x1], x2));
    }
  }

  /** The point with its x and y swapped: column and row exchange places. */
  function Transposed(s: nat, order: nat): nat
  {
    TensorPoint(s / (order + 1), s % (order + 1), order)
  }

  /** On a quad, direction 1 of the gradient is direction 0 with the roles of
      x and y exchanged. */
  lemma GradSwap(b: Basis, order: nat, pts1D: seq<real>, locSpts: seq<Point>, nDims: nat, grad0: seq<Mat>, s1: nat, s2: nat)
    requires |locSpts| == Area(order + 1, order + 1) && |pts1D| > order && nDims >= 2
    requires s1 < |locSpts| && s2 < |locSpts|
    ensures Transposed(s1, order) < |locSpts| && Transposed(s2, order) < |locSpts|
    ensures var g := GradSpts(b, QUAD, order, pts1D, locSpts, nDims, grad0).value;
      g[1].At(s1, s2) == g[0].At(Transposed(s1, order), Transposed(s2, order))
  {
    var n := order + 1;
    TensorIndex(s1, order);
    TensorIndex(s2, order);
    TensorPointIndex(s1 / n, s1 % n, order);
    TensorPointIndex(s2 / n, s2 % n, order);
    var t1, t2 := Transposed(s1, order), Transposed(s2, order);
    GradQuad(b, order, pts1D, locSpts, nDims, grad0, 1, s1, s2);
    GradQuad(b, order, pts1D, locSpts, nDims, grad0, 0, t1, t2);
  }

  /** The first nDims coordinates of a point, as the correction set-up copies them. */
  function LocOf(p: Point, nDims: nat): (loc: seq<real>)
    requires nDims <= 3
    ensures |loc| == nDims
    ensures forall d :: 0 <= d < nDims ==> p.Get(d) == Some(loc[d])
  {
    seq(nDims, d requires 0 <= d < nDims => if d == 0 then p.x else if d == 1 then p.y else p.z)
  }

  /** Entry (spt, fpt) of the correction operator of a quad. */
  function CorrectionEntry(b: Basis, order: nat, pts1D: seq<real>, locSpts: seq<Point>, nDims: nat, vcjh: int): (nat, nat) -> real
  {
    (s: nat, f: nat) =>
      if s < |locSpts| && 2 <= nDims <= 3 then DivVCJHQuad(b, f, LocOf(locSpts[s], nDims), pts1D, vcjh, order)
      else 0.0
  }

  /** setupCorrection: the nSpts x nFpts matrix lifting flux-point jumps to
      the solution points. It starts from zero and stays zero for every
      element type but the quad, whose entries are divVCJH_quad at each
      solution point. Copying a point's coordinates past the third is fatal;
      a quad with fewer than two coordinates has none to read. */
  function Correction(b: Basis, eType: int, order: nat, pts1D: seq<real>, locSpts: seq<Point>, nFpts: nat, nDims: nat, vcjh: int): (r: Result<Mat>)
    requires eType == QUAD && |locSpts| > 0 && nFpts > 0 && nDims <= 3 ==> 2 <= nDims
    ensures r.Error? <==> eType == QUAD && |locSpts| > 0 && nDims > 3
    ensures r.Ok? ==> r.value.Valid() && r.value.dim0 == |locSpts| && r.value.dim1 == nFpts
    ensures r.Ok? && eType != QUAD ==> r.value == Filled(|locSpts|, nFpts, 0.0)
  {
    if eType == QUAD && |locSpts| > 0 && nDims > 3 then Error("Invalid index for point struct.")
    else if eType == QUAD then Ok(Tabulate(|locSpts|, nFpts, CorrectionEntry(b, order, pts1D, locSpts, nDims, vcjh)))
    else Ok(Filled(|locSpts|, nFpts, 0.0))
  }

  /** On a quad, entry (spt, fpt) is divVCJH_quad of fpt at the solution
      point's x and y, whatever its other coordinates. */
  lemma CorrectionQuad(b: Basis, order: nat, pts1D: seq<real>, locSpts: seq<Point>, nFpts: nat, nDims: nat, vcjh: int, s: nat, f: nat)
    requires 2 <= nDims <= 3 && s < |locSpts| && f < nFpts
    ensures Correction(b, QUAD, order, pts1D, locSpts, nFpts, nDims, vcjh).value.At(s, f) ==
      DivVCJHQuad(b, f, [locSpts[s].x, locSpts[s].y], pts1D, vcjh, order)
  {
    var loc := LocOf(locSpts[s], nDims);
    assert loc[0] == locSpts[s].x && loc[1] == locSpts[s].y;
    CorrectionAt(b, order, pts1D, locSpts, nFpts, nDims, vcjh, s, f);
    DivVCJHQuadPlanar(b, f, loc, [locSpts[s].x, locSpts[s].y], pts1D, vcjh, order);
  }

  lemma CorrectionAt(b: Basis, order: nat, pts1D: seq<real>, locSpts: seq<Point>, nFpts: nat, nDims: nat, vcjh: int, s: nat, f: nat)
    requires 2 <= nDims <= 3 && s < |locSpts| && f < nFpts
    ensures Correction(b, QUAD, order, pts1D, locSpts, nFpts, nDims, vcjh).value.At(s, f) ==
      DivVCJHQuad(b, f, LocOf(locSpts[s], nDims), pts1D, vcjh, order)
  {
  }

  /** Resize every matrix of the list to n x n, keeping its leading entries. */
  method ResizeEach(ms: seq<Mat>, n: nat) returns (r: seq<Mat>)
    ensures |r| == |ms|
    ensures forall d :: 0 <= d < |ms| ==> r[d] == ms[d].Resized(n, n)
  {
    r := ms;
    var d := 0;
    while d < |r|
      invariant 0 <= d <= |r| == |ms|
      invariant forall d' :: 0 <= d' < d ==> r[d'] == ms[d'].Resized(n, n)
      invariant forall d' :: d <= d' < |ms| ==> r[d'] == ms[d']
    {
      r := r[d := r[d].Resized(n, n)];
      d := d + 1;
    }
  }

  /** The direction loop of setupGradSpts: every matrix of the list, already
      nSpts x nSpts, is filled with the gradient entries of its direction. */
  method FillDirections(b: Basis, eType: int, order: nat, pts1D: seq<real>, locSpts: seq<Point>, grad: seq<Mat>) returns (r: seq<Mat>)
    requires forall d :: 0 <= d < |grad| ==> grad[d].Valid() && grad[d].dim0 == |locSpts| && grad[d].dim1 == |locSpts|
    ensures |r| == |grad|
    ensures forall d :: 0 <= d < |grad| ==> r[d] == Tabulate(|locSpts|, |locSpts|, GradEntry(b, eType, order, pts1D, locSpts, d))
  {
    r := grad;
    var dim := 0;
    while dim < |grad|
      invariant 0 <= dim <= |grad| == |r|
      invariant forall d :: 0 <= d < dim ==> r[d] == Tabulate(|locSpts|, |locSpts|, GradEntry(b, eType, order, pts1D, locSpts, d))
      invariant forall d :: dim <= d < |grad| ==> r[d] == grad[d]
    {
      var g := Fill(r[dim], GradEntry(b, eType, order, pts1D, locSpts, dim));
      r := r[dim := g];
      dim := dim + 1;
    }
  }

  // ---------------------------------------------------------------------
  // Applying the operators

  /** Every matrix of the list is well formed. */
  ghost predicate AllValid(ms: seq<Mat>)
  {
    forall d :: 0 <= d < |ms| ==> ms[d].Valid()
  }

  /** applyDivFSpts after its first n directions: from start, each direction
      d adds grad[d] . F[d] in place (timesMatrixPlus). */
  function DivFSum(grad: seq<Mat>, F: seq<Mat>, n: nat, start: Mat): (r: Result<Mat>)
    requires start.Valid() && AllValid(grad) && AllValid(F) && n <= |grad| && n <= |F|
    ensures r.Ok? ==> r.value.Valid()
  {
    if n == 0 then Ok(start)
    else match DivFSum(grad, F, n - 1, start)
      case Error(e) => Error(e)
      case Ok(acc) => TimesPlus(grad[n - 1], F[n - 1], acc)
  }

  /** The sum over the first n directions of entry (i, k) of grad[d] . F[d]. */
  function DotSum(grad: seq<Mat>, F: seq<Mat>, n: nat, i: nat, k: nat): real
    requires AllValid(grad) && AllValid(F) && n <= |grad| && n <= |F|
    requires forall d :: 0 <= d < n ==> grad[d].dim1 == F[d].dim0 && i < grad[d].dim0 && k < F[d].dim1
  {
    if n == 0 then 0.0 else DotSum(grad, F, n - 1, i, k) + Dot(grad[n - 1], F[n - 1], i, k, grad[n - 1].dim1)
  }

  /** The running divergence fails exactly when some direction's operator does
      not fit its flux; once failed it stays failed with the same message. */
  lemma {:induction false} DivFSumError(grad: seq<Mat>, F: seq<Mat>, n: nat, start: Mat)
    requires start.Valid() && AllValid(grad) && AllValid(F) && n <= |grad| && n <= |F|
    ensures DivFSum(grad, F, n, start).Error? <==> exists d :: 0 <= d < n && grad[d].dim1 != F[d].dim0
    ensures DivFSum(grad, F, n, start).Error? ==> DivFSum(grad, F, n, start).reason == "Incompatible matrix sizes in matrix multiplication!"
  {
    if n > 0 {
      DivFSumError(grad, F, n - 1, start);
    }
  }

  /** When every direction's product has start's shape, the divergence is
      start plus the sum over the directions of grad[d] . F[d], entry by entry. */
  lemma {:induction false} DivFSumEntries(grad: seq<Mat>, F: seq<Mat>, n: nat, start: Mat, i: nat, k: nat)
    requires start.Valid() && AllValid(grad) && AllValid(F) && n <= |grad| && n <= |F|
    requires forall d :: 0 <= d < n ==> grad[d].dim1 == F[d].dim0 && grad[d].dim0 == start.dim0 && F[d].dim1 == start.dim1
    requires i < start.dim0 && k < start.dim1
    ensures DivFSum(grad, F, n, start).Ok?
    ensures DivFSum(grad, F, n, start).value.dim0 == start.dim0 && DivFSum(grad, F, n, start).value.dim1 == start.dim1
    ensures DivFSum(grad, F, n, start).value.At(i, k) == start.At(i, k) + DotSum(grad, F, n, i, k)
  {
    if n > 0 {
      DivFSumEntries(grad, F, n - 1, start, i, k);
      var acc := DivFSum(grad, F, n - 1, start).value;
      assert DivFSum(grad, F, n, start) == TimesPlus(grad[n - 1], F[n - 1], acc);
    }
  }

  /** A zero matrix reshaped is the zero matrix of the new shape. */
  lemma ZeroResized(r: nat, c: nat, r': nat, c': nat)
    ensures Filled(r, c, 0.0).Resized(r', c') == Filled(r', c', 0.0)
  {
    var z := Filled(r, c, 0.0).Resized(r', c');
    FilledData(r, c, 0.0);
    FilledData(r', c', 0.0);
    assert z.data == Filled(r', c', 0.0).data;
  }

  /** The shape divF had before applyDivFSpts zeroed it does not matter once a
      direction has been added: the first product reshapes it to the
      operator's shape, still zero. */
  lemma {:induction false} DivFSumZeroShape(grad: seq<Mat>, F: seq<Mat>, n: nat, r: nat, c: nat)
    requires AllValid(grad) && AllValid(F) && 0 < n <= |grad| && n <= |F|
    ensures DivFSum(grad, F, n, Filled(r, c, 0.0)) == DivFSum(grad, F, n, Filled(grad[0].dim0, F[0].dim1, 0.0))
  {
    if n == 1 {
      ZeroResized(r, c, grad[0].dim0, F[0].dim1);
    } else {
      DivFSumZeroShape(grad, F, n - 1, r, c);
    }
  }

  /** One direction's contribution to the normal flux at (fpt, i): the
      extrapolated flux times the normal component, times the face's area
      element when one is given. */
  function NormalTerm(t: real, norm: Mat, dA: Option<seq<real>>, fpt: nat, dim: nat): real
    requires norm.Valid() && fpt < norm.dim0 && dim < norm.dim1
    requires dA.Some? ==> fpt < |dA.value|
  {
    match dA
    case None => Scale(t, norm.At(fpt, dim))
    case Some(a) => Scale(Scale(t, norm.At(fpt, dim)), a[fpt])
  }

  /** The normal flux at flux point fpt, field i, summed over the first n
      directions: the sum of S . F[d] at (fpt, i) times the normal component d. */
  function NormalFlux(S: Mat, F: seq<Mat>, norm: Mat, dA: Option<seq<real>>, n: nat, fpt: nat, i: nat): real
    requires S.Valid() && AllValid(F) && norm.Valid() && n <= |F| && n <= norm.dim1 && fpt < norm.dim0
    requires n > 0 ==> fpt < S.dim0
    requires dA.Some? ==> fpt < |dA.value|
    requires forall d :: 0 <= d < n ==> F[d].dim0 == S.dim1 && i < F[d].dim1
  {
    if n == 0 then 0.0
    else NormalFlux(S, F, norm, dA, n - 1, fpt, i) + NormalTerm(Dot(S, F[n - 1], fpt, i, S.dim1), norm, dA, fpt, n - 1)
  }

  /** The area-weighted normal flux is the unweighted one times the area
      element of the flux point. */
  lemma {:induction false} NormalFluxArea(S: Mat, F: seq<Mat>, norm: Mat, dA: seq<real>, n: nat, fpt: nat, i: nat)
    requires S.Valid() && AllValid(F) && norm.Valid() && n <= |F| && n <= norm.dim1 && fpt < norm.dim0
    requires n > 0 ==> fpt < S.dim0
    requires fpt < |dA|
    requires forall d :: 0 <= d < n ==> F[d].dim0 == S.dim1 && i < F[d].dim1
    ensures NormalFlux(S, F, norm, Some(dA), n, fpt, i) == NormalFlux(S, F, norm, None, n, fpt, i) * dA[fpt]
  {
    if n > 0 {
      NormalFluxArea(S, F, norm, dA, n - 1, fpt, i);
      var x := NormalFlux(S, F, norm, None, n - 1, fpt, i);
      var t := Scale(Dot(S, F[n - 1], fpt, i, S.dim1), norm.At(fpt, n - 1));
      assert (x + t) * dA[fpt] == x * dA[fpt] + t * dA[fpt];
    }
  }

  /** Entry (fpt, i) of Fn after the first n directions of applyExtrapolateFn:
      the normal flux for the first nFpts flux points and nFields fields, and
      the zero initializeToZero left everywhere else. */
  ghost function FnEntry(S: Mat, F: seq<Mat>, norm: Mat, dA: Option<seq<real>>, n: nat, nFields: nat): (nat, nat) -> real
    requires S.Valid() && AllValid(F) && norm.Valid() && n <= |F| && n <= norm.dim1
    requires n > 0 && nFields > 0 ==> norm.dim0 <= S.dim0
    requires dA.Some? ==> norm.dim0 <= |dA.value|
    requires forall d :: 0 <= d < n ==> F[d].dim0 == S.dim1 && nFields <= F[d].dim1
  {
    (fpt: nat, i: nat) =>
      if fpt < norm.dim0 && i < nFields then NormalFlux(S, F, norm, dA, n, fpt, i) else 0.0
  }

  /** One pass of the flux-point and field loops of applyExtrapolateFn:
      Fn[fpt][i] += temp[fpt][i] * norm[fpt][dim] (times dA[fpt]). */
  function NormalStep(acc: Mat, temp: Mat, norm: Mat, dA: Option<seq<real>>, dim: nat, nFields: nat): (nat, nat) -> real
    requires acc.Valid() && temp.Valid() && norm.Valid() && dim < norm.dim1
    requires nFields > 0 ==> norm.dim0 <= acc.dim0 && norm.dim0 <= temp.dim0
    requires nFields <= acc.dim1 && nFields <= temp.dim1
    requires dA.Some? ==> norm.dim0 <= |dA.value|
  {
    (fpt: nat, i: nat) =>
      if fpt < norm.dim0 && i < nFields then acc.At(fpt, i) + NormalTerm(temp.At(fpt, i), norm, dA, fpt, dim)
      else if fpt < acc.dim0 && i < acc.dim1 then acc.At(fpt, i)
      else 0.0
  }

  /** One pass of the flux-point and field loops turns the normal flux over
      the first dim directions into the one over dim + 1 directions. */
  lemma NormalStepSum(S: Mat, F: seq<Mat>, norm: Mat, dA: Option<seq<real>>, dim: nat, nFields: nat, acc: Mat, temp: Mat)
    requires S.Valid() && AllValid(F) && norm.Valid() && dim < |F| && dim < norm.dim1
    requires nFields > 0 ==> norm.dim0 <= S.dim0 && norm.dim0 <= acc.dim0
    requires dA.Some? ==> norm.dim0 <= |dA.value|
    requires forall d :: 0 <= d <= dim ==> F[d].dim0 == S.dim1 && nFields <= F[d].dim1
    requires acc == Tabulate(acc.dim0, acc.dim1, FnEntry(S, F, norm, dA, dim, nFields)) && nFields <= acc.dim1
    requires temp == Product(S, F[dim])
    ensures Tabulate(acc.dim0, acc.dim1, NormalStep(acc, temp, norm, dA, dim, nFields)) ==
      Tabulate(acc.dim0, acc.dim1, FnEntry(S, F, norm, dA, dim + 1, nFields))
  {
    var step, next := NormalStep(acc, temp, norm, dA, dim, nFields), FnEntry(S, F, norm, dA, dim + 1, nFields);
    forall fpt: nat, i: nat | fpt < acc.dim0 && i < acc.dim1
      ensures step(fpt, i) == next(fpt, i)
    {
      if fpt < norm.dim0 && i < nFields {
        assert acc.At(fpt, i) == NormalFlux(S, F, norm, dA, dim, fpt, i);
        assert temp.At(fpt, i) == Dot(S, F[dim], fpt, i, S.dim1);
      }
    }
    TabulateExt(acc.dim0, acc.dim1, step, next);
  }

  /** One direction of applyExtrapolateFn: the flux F[dim] extrapolated to
      the flux points (fatal when it does not fit), then its normal component
      added to every entry of the first nFpts rows and nFields columns of acc
      (fatal when a flux point has no row to read or write). */
  method NormalPass(S: Mat, F: seq<Mat>, norm: Mat, dA: Option<seq<real>>, dim: nat, nFields: nat, acc: Mat) returns (r: Result<Mat>)
    requires S.Valid() && AllValid(F) && norm.Valid() && dim < |F| && dim < norm.dim1
    requires dim > 0 && nFields > 0 ==> norm.dim0 <= S.dim0 && norm.dim0 <= acc.dim0
    requires dA.Some? ==> norm.dim0 <= |dA.value|
    requires forall d :: 0 <= d < dim ==> F[d].dim0 == S.dim1
    requires forall d :: 0 <= d <= dim ==> nFields <= F[d].dim1
    requires acc == Tabulate(acc.dim0, acc.dim1, FnEntry(S, F, norm, dA, dim, nFields)) && nFields <= acc.dim1
    ensures r.Error? <==> F[dim].dim0 != S.dim1 || (norm.dim0 > 0 && nFields > 0 && (norm.dim0 > S.dim0 || norm.dim0 > acc.dim0))
    ensures r.Ok? ==> r.value == Tabulate(acc.dim0, acc.dim1, FnEntry(S, F, norm, dA, dim + 1, nFields))
  {
    var t := Times(S, F[dim]);
    if t.Error? {
      return Error(t.reason);
    }
    var temp := t.value;
    if norm.dim0 > 0 && nFields > 0 && (norm.dim0 > temp.dim0 || norm.dim0 > acc.dim0) {
      return Error("Attempted out-of-bounds access in matrix.");
    }
    NormalStepSum(S, F, norm, dA, dim, nFields, acc, temp);
    var sum := Fill(acc, NormalStep(acc, temp, norm, dA, dim, nFields));
    return Ok(sum);
  }

  /** The fatal conditions of applyExtrapolateFn: some direction's flux does
      not fit the extrapolation, or a flux point has no row in the
      extrapolated flux or in Fn. */
  predicate FnFails(S: Mat, F: seq<Mat>, n: nat, nFpts: nat, nFields: nat, FnRows: nat)
    requires n <= |F|
  {
    n > 0 && ((exists d :: 0 <= d < n && F[d].dim0 != S.dim1) || (nFpts > 0 && nFields > 0 && (nFpts > S.dim0 || nFpts > FnRows)))
  }

  /** The operators of one element type and polynomial order. */
  class Oper {
    var eType: int
    var order: nat
    var nDims: nat
    var nFields: nat
    var oppSptsToFpts: Mat
    var oppSptsToMpts: Mat
    var oppGradSpts: seq<Mat>
    var oppCorrection: Mat

    constructor ()
      ensures oppSptsToFpts == oppSptsToMpts == oppCorrection == Mat(0, 0, [])
      ensures oppGradSpts == []
    {
      eType, order, nDims, nFields := 0, 0, 0, 0;
      oppSptsToFpts, oppSptsToMpts, oppCorrection := Mat(0, 0, []), Mat(0, 0, []), Mat(0, 0, []);
      oppGradSpts := [];
    }

    /** The element type, order and sizes the operators are built for. */
    function Config(): (int, nat, nat, nat)
      reads this
    {
      (eType, order, nDims, nFields)
    }

    /** setupOperators: record the element type, order and sizes, then build
        the four operators in turn; the first fatal set-up ends it. The
        reference points and the basis routines are inputs. */
    method SetupOperators(b: Basis, eType': int, order': nat, nDims': nat, nFields': nat,
                          pts1D: seq<real>, locSpts: seq<Point>, locFpts: seq<Point>, vcjh: int) returns (st: Status)
      requires eType' == QUAD && |locSpts| > 0 ==> order' + 1 <= |locSpts|
      requires eType' == TRI && |locSpts| > 0 ==> nDims' >= 2
      requires eType' == QUAD && |locSpts| > 0 && |locFpts| > 0 && nDims' <= 3 ==> 2 <= nDims'
      requires eType' == QUAD && nDims' > 0 && |locSpts| > 0 ==> |locSpts| <= Area(order' + 1, |pts1D|)
      modifies this
      ensures Config() == (eType', order', nDims', nFields')
      ensures st.Fatal? <==> (eType' != TRI && eType' != QUAD) || (eType' == QUAD && |locSpts| > 0 && nDims' > 3)
      ensures st.Done? ==> oppSptsToFpts == ExtrapolateSptsFpts(b, eType', order', pts1D, |locSpts|, locFpts).value
      ensures st.Done? ==> oppSptsToMpts == ExtrapolateSptsMpts(b, eType', order', pts1D, |locSpts|).value
      ensures st.Done? ==> oppGradSpts == GradSpts(b, eType', order', pts1D, locSpts, nDims', old(oppGradSpts)).value
      ensures st.Done? ==> oppCorrection == Correction(b, eType', order', pts1D, locSpts, |locFpts|, nDims', vcjh).value
    {
      eType, order, nDims, nFields := eType', order', nDims', nFields';
      st := SetupExtrapolateSptsFpts(b, pts1D, locSpts, locFpts);
      if st.Fatal? {
        return;
      }
      st := SetupExtrapolateSptsMpts(b, pts1D, locSpts);
      if st.Fatal? {
        return;
      }
      st := SetupGradSpts(b, pts1D, locSpts);
      if st.Fatal? {
        return;
      }
      st := SetupCorrection(b, pts1D, locSpts, locFpts, vcjh);
    }

    /** setupExtrapolateSptsFpts, filling the matrix entry by entry. */
    method SetupExtrapolateSptsFpts(b: Basis, pts1D: seq<real>, locSpts: seq<Point>, locFpts: seq<Point>) returns (st: Status)
      requires eType == QUAD && |locFpts| > 0 && |locSpts| > 0 ==> order + 1 <= |locSpts|
      modifies this
      ensures Config() == old(Config())
      ensures st.Fatal? <==> ExtrapolateSptsFpts(b, eType, order, pts1D, |locSpts|, locFpts).Error?
      ensures st.Done? ==> oppSptsToFpts == ExtrapolateSptsFpts(b, eType, order, pts1D, |locSpts|, locFpts).value
      ensures st.Fatal? ==> oppSptsToFpts == old(oppSptsToFpts)
      ensures oppSptsToMpts == old(oppSptsToMpts) && oppGradSpts == old(oppGradSpts) && oppCorrection == old(oppCorrection)
    {
      var nSpts, nFpts := |locSpts|, |locFpts|;
      if eType != TRI && eType != QUAD && nFpts > 0 && nSpts > 0 {
        return Fatal("Element type not yet supported.");
      }
      oppSptsToFpts := Fill(oppSptsToFpts.Resized(nFpts, nSpts), SptsFptsEntry(b, eType, order, pts1D, locFpts, nSpts));
      return Done;
    }

    /** setupExtrapolateSptsMpts, filling the matrix entry by entry. */
    method SetupExtrapolateSptsMpts(b: Basis, pts1D: seq<real>, locSpts: seq<Point>) returns (st: Status)
      requires eType == QUAD && |locSpts| > 0 ==> order + 1 <= |locSpts|
      modifies this
      ensures Config() == old(Config())
      ensures st.Fatal? <==> ExtrapolateSptsMpts(b, eType, order, pts1D, |locSpts|).Error?
      ensures st.Done? ==> oppSptsToMpts == ExtrapolateSptsMpts(b, eType, order, pts1D, |locSpts|).value
      ensures st.Fatal? ==> oppSptsToMpts == old(oppSptsToMpts)
      ensures oppSptsToFpts == old(oppSptsToFpts) && oppGradSpts == old(oppGradSpts) && oppCorrection == old(oppCorrection)
    {
      var nSpts := |locSpts|;
      if eType == TRI {
        oppSptsToMpts := Fill(oppSptsToMpts.Resized(3, nSpts), SptsMptsEntry(b, eType, order, pts1D, nSpts));
      } else if eType == QUAD {
        oppSptsToMpts := Fill(oppSptsToMpts.Resized(4, nSpts), SptsMptsEntry(b, eType, order, pts1D, nSpts));
      } else {
        return Fatal("Element type not yet supported.");
      }
      return Done;
    }

    /** setupGradSpts: resize the list and every matrix, then fill direction by direction. */
    method SetupGradSpts(b: Basis, pts1D: seq<real>, locSpts: seq<Point>) returns (st: Status)
      requires eType == TRI && |locSpts| > 0 ==> nDims >= 2
      requires eType == QUAD && nDims > 0 && |locSpts| > 0 ==> order + 1 <= |locSpts| <= Area(order + 1, |pts1D|)
      modifies this
      ensures Config() == old(Config())
      ensures st.Fatal? <==> GradSpts(b, eType, order, pts1D, locSpts, nDims, old(oppGradSpts)).Error?
      ensures st.Done? ==> oppGradSpts == GradSpts(b, eType, order, pts1D, locSpts, nDims, old(oppGradSpts)).value
      ensures st.Fatal? ==> oppGradSpts == old(oppGradSpts)
      ensures oppSptsToFpts == old(oppSptsToFpts) && oppSptsToMpts == old(oppSptsToMpts) && oppCorrection == old(oppCorrection)
    {
      if eType != TRI && eType != QUAD {
        return Fatal("Element type not yet supported.");
      }
      var nSpts := |locSpts|;
      ghost var target := GradSpts(b, eType, order, pts1D, locSpts, nDims, oppGradSpts).value;
      var grad := ResizeEach(Resize(oppGradSpts, nDims, Mat(0, 0, [])), nSpts);
      assert grad == GradBase(oppGradSpts, nDims, nSpts);
      if eType == TRI {
        if nSpts > 0 {
          var g0 := Fill(grad[0], GradEntry(b, eType, order, pts1D, locSpts, 0));
          var g1 := Fill(grad[1], GradEntry(b, eType, order, pts1D, locSpts, 1));
          grad := grad[0 := g0][1 := g1];
        }
        assert grad == target;
      } else {
        grad := FillDirections(b, eType, order, pts1D, locSpts, grad);
        assert grad == target;
      }
      oppGradSpts := grad;
      return Done;
    }

    /** setupCorrection: reshape, zero, and for a quad fill with divVCJH_quad. */
    method SetupCorrection(b: Basis, pts1D: seq<real>, locSpts: seq<Point>, locFpts: seq<Point>, vcjh: int) returns (st: Status)
      requires eType == QUAD && |locSpts| > 0 && |locFpts| > 0 && nDims <= 3 ==> 2 <= nDims
      modifies this
      ensures Config() == old(Config())
      ensures st.Fatal? <==> Correction(b, eType, order, pts1D, locSpts, |locFpts|, nDims, vcjh).Error?
      ensures st.Done? ==> oppCorrection == Correction(b, eType, order, pts1D, locSpts, |locFpts|, nDims, vcjh).value
      ensures st.Fatal? ==> oppCorrection == old(oppCorrection)
      ensures oppSptsToFpts == old(oppSptsToFpts) && oppSptsToMpts == old(oppSptsToMpts) && oppGradSpts == old(oppGradSpts)
    {
      var nSpts, nFpts := |locSpts|, |locFpts|;
      if eType == QUAD && nSpts > 0 && nDims > 3 {
        return Fatal("Invalid index for point struct.");
      }
      var c := oppCorrection.Resized(nSpts, nFpts);
      c := Filled(c.dim0, c.dim1, 0.0);
      if eType == QUAD {
        c := Fill(c, CorrectionEntry(b, order, pts1D, locSpts, nDims, vcjh));
      }
      oppCorrection := c;
      return Done;
    }

    /** applyGradSpts: dU[dim] := gradient operator dim times U for every
        reference direction; an operator that does not fit U is fatal. */
    method ApplyGradSpts(U: Mat, dU: seq<Mat>) returns (r: Result<seq<Mat>>)
      requires U.Valid() && AllValid(oppGradSpts) && nDims <= |oppGradSpts| && nDims <= |dU|
      ensures r.Error? <==> exists d :: 0 <= d < nDims && oppGradSpts[d].dim1 != U.dim0
      ensures r.Ok? ==> |r.value| == |dU|
      ensures r.Ok? ==> forall d :: 0 <= d < nDims ==> r.value[d] == Product(oppGradSpts[d], U)
      ensures r.Ok? ==> forall d :: nDims <= d < |dU| ==> r.value[d] == dU[d]
    {
      var out := dU;
      var dim := 0;
      while dim < nDims
        invariant 0 <= dim <= nDims && |out| == |dU|
        invariant forall d :: 0 <= d < dim ==> oppGradSpts[d].dim1 == U.dim0 && out[d] == Product(oppGradSpts[d], U)
        invariant forall d :: dim <= d < |dU| ==> out[d] == dU[d]
      {
        var p := Times(oppGradSpts[dim], U);
        if p.Error? {
          return Error(p.reason);
        }
        out := out[dim := p.value];
        dim := dim + 1;
      }
      return Ok(out);
    }

    /** applyGradFSpts: dF[dim2][dim1] := gradient operator dim2 times the flux
        in direction dim1, for every flux direction dim1 and every derivative
        direction dim2 listed in dF. */
    method ApplyGradFSpts(F: seq<Mat>, dF: seq<seq<Mat>>) returns (r: Result<seq<seq<Mat>>>)
      requires AllValid(F) && AllValid(oppGradSpts) && nDims <= |F| && |dF| <= |oppGradSpts|
      requires forall d2 :: 0 <= d2 < |dF| ==> nDims <= |dF[d2]|
      ensures r.Error? <==> exists d1, d2 :: 0 <= d1 < nDims && 0 <= d2 < |dF| && oppGradSpts[d2].dim1 != F[d1].dim0
      ensures r.Ok? ==> |r.value| == |dF| && forall d2 :: 0 <= d2 < |dF| ==> |r.value[d2]| == |dF[d2]|
      ensures r.Ok? ==> forall d2, d1 :: 0 <= d2 < |dF| && 0 <= d1 < nDims ==> r.value[d2][d1] == Product(oppGradSpts[d2], F[d1])
      ensures r.Ok? ==> forall d2, d1 :: 0 <= d2 < |dF| && nDims <= d1 < |dF[d2]| ==> r.value[d2][d1] == dF[d2][d1]
    {
      var out := dF;
      var dim1 := 0;
      while dim1 < nDims
        invariant 0 <= dim1 <= nDims && |out| == |dF|
        invariant forall d2 :: 0 <= d2 < |dF| ==> |out[d2]| == |dF[d2]|
        invariant forall d1, d2 :: 0 <= d1 < dim1 && 0 <= d2 < |dF| ==> oppGradSpts[d2].dim1 == F[d1].dim0
        invariant forall d2, d1 :: 0 <= d2 < |dF| && 0 <= d1 < dim1 ==> out[d2][d1] == Product(oppGradSpts[d2], F[d1])
        invariant forall d2, d1 :: 0 <= d2 < |dF| && dim1 <= d1 < |dF[d2]| ==> out[d2][d1] == dF[d2][d1]
      {
        var next := GradFDirection(F[dim1], dim1, out);
        if next.Error? {
          return Error(next.reason);
        }
        out := next.value;
        dim1 := dim1 + 1;
      }
      return Ok(out);
    }

    /** The inner loop of applyGradFSpts for one flux direction dim1. */
    method GradFDirection(F1: Mat, dim1: nat, dF: seq<seq<Mat>>) returns (r: Result<seq<seq<Mat>>>)
      requires F1.Valid() && AllValid(oppGradSpts) && |dF| <= |oppGradSpts|
      requires forall d2 :: 0 <= d2 < |dF| ==> dim1 < |dF[d2]|
      ensures r.Error? <==> exists d2 :: 0 <= d2 < |dF| && oppGradSpts[d2].dim1 != F1.dim0
      ensures r.Ok? ==> |r.value| == |dF| && forall d2 :: 0 <= d2 < |dF| ==> |r.value[d2]| == |dF[d2]|
      ensures r.Ok? ==> forall d2 :: 0 <= d2 < |dF| ==> r.value[d2][dim1] == Product(oppGradSpts[d2], F1)
      ensures r.Ok? ==> forall d2, d1 :: 0 <= d2 < |dF| && 0 <= d1 < |dF[d2]| && d1 != dim1 ==> r.value[d2][d1] == dF[d2][d1]
    {
      var out := dF;
      var dim2 := 0;
      while dim2 < |dF|
        invariant 0 <= dim2 <= |dF| == |out|
        invariant forall d2 :: 0 <= d2 < |dF| ==> |out[d2]| == |dF[d2]|
        invariant forall d2 :: 0 <= d2 < dim2 ==> oppGradSpts[d2].dim1 == F1.dim0
        invariant forall d2 :: 0 <= d2 < dim2 ==> out[d2][dim1] == Product(oppGradSpts[d2], F1)
        invariant forall d2 :: dim2 <= d2 < |dF| ==> out[d2] == dF[d2]
        invariant forall d2, d1 :: 0 <= d2 < |dF| && 0 <= d1 < |dF[d2]| && d1 != dim1 ==> out[d2][d1] == dF[d2][d1]
      {
        var p := Times(oppGradSpts[dim2], F1);
        if p.Error? {
          return Error(p.reason);
        }
        out := out[dim2 := out[dim2][dim1 := p.value]];
        dim2 := dim2 + 1;
      }
      return Ok(out);
    }

    /** applyDivFSpts: divF is zeroed, then every direction's gradient operator
        times its flux is added to it in place. */
    method ApplyDivFSpts(F: seq<Mat>, divF: Mat) returns (r: Result<Mat>)
      requires divF.Valid() && AllValid(F) && AllValid(oppGradSpts) && nDims <= |oppGradSpts| && nDims <= |F|
      ensures r == DivFSum(oppGradSpts, F, nDims, Filled(divF.dim0, divF.dim1, 0.0))
    {
      var zero := Filled(divF.dim0, divF.dim1, 0.0);
      var acc := zero;
      var dim := 0;
      while dim < nDims
        invariant 0 <= dim <= nDims
        invariant DivFSum(oppGradSpts, F, dim, zero) == Ok(acc)
      {
        var next := TimesPlus(oppGradSpts[dim], F[dim], acc);
        if next.Error? {
          DivFSumError(oppGradSpts, F, dim + 1, zero);
          DivFSumError(oppGradSpts, F, nDims, zero);
          return next;
        }
        acc := next.value;
        dim := dim + 1;
      }
      return Ok(acc);
    }

    /** applySptsFpts: the solution extrapolated to the flux points. */
    method ApplySptsFpts(U: Mat) returns (r: Result<Mat>)
      requires oppSptsToFpts.Valid() && U.Valid()
      ensures r.Error? <==> U.dim0 != oppSptsToFpts.dim1
      ensures r.Ok? ==> r.value == Product(oppSptsToFpts, U)
    {
      r := Times(oppSptsToFpts, U);
    }

    /** applySptsMpts: the solution extrapolated to the corners. */
    method ApplySptsMpts(U: Mat) returns (r: Result<Mat>)
      requires oppSptsToMpts.Valid() && U.Valid()
      ensures r.Error? <==> U.dim0 != oppSptsToMpts.dim1
      ensures r.Ok? ==> r.value == Product(oppSptsToMpts, U)
    {
      r := Times(oppSptsToMpts, U);
    }

    /** applyCorrectDivF: the correction operator times the normal-flux jumps,
        added to divF (reshaped first when its shape does not fit). */
    method ApplyCorrectDivF(dFn: Mat, divF: Mat) returns (r: Result<Mat>)
      requires oppCorrection.Valid() && dFn.Valid() && divF.Valid()
      ensures r.Error? <==> dFn.dim0 != oppCorrection.dim1
      ensures r.Ok? ==> r.value.Valid() && r.value.dim0 == oppCorrection.dim0 && r.value.dim1 == dFn.dim1
      ensures r.Ok? ==> forall i, k :: 0 <= i < oppCorrection.dim0 && 0 <= k < dFn.dim1 ==>
        r.value.At(i, k) == divF.Resized(oppCorrection.dim0, dFn.dim1).At(i, k) + Product(oppCorrection, dFn).At(i, k)
    {
      r := TimesPlus(oppCorrection, dFn, divF);
    }

    /** applyExtrapolateFn, with and without the area elements dA: Fn is
        zeroed, then for each direction the flux is extrapolated to the flux
        points and its product with that normal component is added to Fn. */
    method ApplyExtrapolateFn(F: seq<Mat>, norm: Mat, Fn: Mat, dA: Option<seq<real>>) returns (r: Result<Mat>)
      requires oppSptsToFpts.Valid() && AllValid(F) && norm.Valid() && Fn.Valid()
      requires nDims <= |F| && nDims <= norm.dim1 && nFields <= Fn.dim1
      requires forall d :: 0 <= d < nDims ==> nFields <= F[d].dim1
      requires dA.Some? ==> norm.dim0 <= |dA.value|
      ensures r.Error? <==> FnFails(oppSptsToFpts, F, nDims, norm.dim0, nFields, Fn.dim0)
      ensures r.Ok? ==> r.value.Valid() && r.value.dim0 == Fn.dim0 && r.value.dim1 == Fn.dim1
      ensures r.Ok? ==> forall fpt, i :: 0 <= fpt < Fn.dim0 && 0 <= i < Fn.dim1 ==>
        r.value.At(fpt, i) == if fpt < norm.dim0 && i < nFields then NormalFlux(oppSptsToFpts, F, norm, dA, nDims, fpt, i) else 0.0
    {
      var S, nFpts := oppSptsToFpts, norm.dim0;
      var acc := Filled(Fn.dim0, Fn.dim1, 0.0);
      TabulateExt(Fn.dim0, Fn.dim1, (_, _) => 0.0, FnEntry(S, F, norm, dA, 0, nFields));
      var dim := 0;
      while dim < nDims
        invariant 0 <= dim <= nDims
        invariant forall d :: 0 <= d < dim ==> F[d].dim0 == S.dim1
        invariant dim > 0 && nFpts > 0 && nFields > 0 ==> nFpts <= S.dim0 && nFpts <= Fn.dim0
        invariant acc == Tabulate(Fn.dim0, Fn.dim1, FnEntry(S, F, norm, dA, dim, nFields))
      {
        var next := NormalPass(S, F, norm, dA, dim, nFields, acc);
        if next.Error? {
          return next;
        }
        acc := next.value;
        dim := dim + 1;
      }
      return Ok(acc);
    }
  }
}
