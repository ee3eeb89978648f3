/** One quadrilateral cell of the mesh (class ele): how setup sizes its
    storage from the run parameters, the reference normals at its flux
    points, the Jacobian of the map from the reference square, the
    Runge-Kutta stage updates, the plot output on the (order+3)^2 grid and
    the residual norms.

    Shape functions, their derivatives and the reference point locations
    come from routines outside this model; they enter as parameters. */
module Element {
  import opened Common
  import opened Global
  import opened Matrices
  import opened PlotLayout
  import Operators

  /** The run parameters an element reads. */
  datatype Params = Params(order: nat, nDims: nat, equation: int, timeType: int, motion: int, gamma: real, dt: real)

  /** A matrix with the given number of rows and columns. */
  ghost predicate Shaped(m: Mat, rows: nat, cols: nat)
  {
    m.Valid() && m.dim0 == rows && m.dim1 == cols
  }

  /** A matrix of the given shape holding zero in every entry. */
  ghost predicate Zeroed(m: Mat, rows: nat, cols: nat)
  {
    Shaped(m, rows, cols) && forall k :: 0 <= k < |m.data| ==> m.data[k] == 0.0
  }

  /** The per-point matrix vectors after `resize(n)` followed by
      `setup(rows, cols)` on every entry. */
  function ResizedEach(ms: seq<Mat>, n: nat, rows: nat, cols: nat): (r: seq<Mat>)
    ensures |r| == n
    ensures forall k :: 0 <= k < n ==> Shaped(r[k], rows, cols)
    ensures forall k :: 0 <= k < n && k < |ms| ==> r[k] == ms[k].Resized(rows, cols)
  {
    seq(n, k requires 0 <= k < n => if k < |ms| then ms[k].Resized(rows, cols) else Mat(0, 0, []).Resized(rows, cols))
  }

  /** The loop `for (auto& m : ms) m.setup(rows, cols)` after a resize. */
  method SetupEach(ms: seq<Mat>, n: nat, rows: nat, cols: nat) returns (r: seq<Mat>)
    ensures r == ResizedEach(ms, n, rows, cols)
  {
    r := Resize(ms, n, Mat(0, 0, []));
    var k := 0;
    while k < n
      invariant 0 <= k <= n && |r| == n
      invariant forall q :: 0 <= q < k ==> r[q] == ResizedEach(ms, n, rows, cols)[q]
      invariant forall q :: k <= q < n ==> r[q] == if q < |ms| then ms[q] else Mat(0, 0, [])
    {
      r := r[k := r[k].Resized(rows, cols)];
      k := k + 1;
    }
  }

  /** The number of conserved fields: one scalar for advection-diffusion,
      density, momenta and energy for Navier-Stokes; any other equation
      leaves the count as it was. */
  function FieldCount(equation: int, nDims: nat, current: nat): nat
  {
    if equation == ADVECTION_DIFFUSION then 1
    else if equation == NAVIER_STOKES then nDims + 2
    else current
  }

  /** The number of Runge-Kutta stages of a time scheme: forward Euler (0)
      has one, classical RK4 (4) has four; any other scheme is fatal. */
  function StageCount(timeType: int): (r: Option<nat>)
  {
    if timeType == 0 then Some(1) else if timeType == 4 then Some(4) else None
  }

  lemma StageCountSpec(timeType: int)
    ensures StageCount(timeType).Some? <==> timeType == 0 || timeType == 4
    ensures StageCount(timeType).Some? ==> StageCount(timeType).value >= 1
  {
  }

  /* ---------------------------------------------------------------------
     Reference normals (setTransformedNormals_fpts).
     --------------------------------------------------------------------- */

  /** The normal of face `face` of the reference element as the element
      tabulates it, or None for a face the type does not have (the entry
      is then left as it was). sqrt2 stands for the library's sqrt(2). */
  function ReferenceNormal(eType: int, face: nat, sqrt2: real): Option<(real, real)>
  {
    if eType == TRI then
      if face == 0 then Some((0.0, -1.0))
      else if face == 1 then Some((sqrt2, sqrt2))
      else if face == 2 then Some((-1.0, 0.0))
      else None
    else if eType == QUAD then
      if face == 0 then Some((0.0, -1.0))
      else if face == 1 then Some((1.0, 0.0))
      else if face == 2 then Some((0.0, 1.0))
      else if face == 3 then Some((-1.0, 0.0))
      else None
    else None
  }

  /** The quad normals follow the face convention of the operators: face f
      is normal to axis 1 - FaceAxis(f), points in direction FaceSign(f),
      and is a unit vector. */
  lemma QuadNormalConvention(face: nat, sqrt2: real)
    requires face < 4
    ensures ReferenceNormal(QUAD, face, sqrt2).Some?
    ensures var n := ReferenceNormal(QUAD, face, sqrt2).value;
      (if Operators.FaceAxis(face) == 0 then n.1 else n.0) == Operators.FaceSign(face) &&
      (if Operators.FaceAxis(face) == 0 then n.0 else n.1) == 0.0
    ensures var n := ReferenceNormal(QUAD, face, sqrt2).value; n.0 * n.0 + n.1 * n.1 == 1.0
  {
  }

  /** Opposite quad faces have opposite normals. */
  lemma QuadOppositeNormals(face: nat, sqrt2: real)
    requires face < 2
    ensures ReferenceNormal(QUAD, face + 2, sqrt2).Some? && ReferenceNormal(QUAD, face, sqrt2).Some?
    ensures ReferenceNormal(QUAD, face + 2, sqrt2).value.0 == -ReferenceNormal(QUAD, face, sqrt2).value.0
    ensures ReferenceNormal(QUAD, face + 2, sqrt2).value.1 == -ReferenceNormal(QUAD, face, sqrt2).value.1
  {
  }

  /** Entry (f, d) of the normal table after the loop: flux point f takes
      the normal of face f div (order+1) in its first two columns. */
  function NormalEntry(t: Mat, eType: int, order: nat, sqrt2: real): (nat, nat) -> real
    requires t.Valid()
  {
    (f: nat, d: nat) =>
      if f < t.dim0 && d < t.dim1 then
        match ReferenceNormal(eType, f / (order + 1), sqrt2)
        case Some(n) => if d == 0 then n.0 else if d == 1 then n.1 else t.At(f, d)
        case None => t.At(f, d)
      else 0.0
  }

  /** The whole normal table after setTransformedNormals_fpts. */
  function Normals(t: Mat, eType: int, order: nat, sqrt2: real): (r: Mat)
    requires t.Valid()
    ensures Shaped(r, t.dim0, t.dim1)
  {
    Tabulate(t.dim0, t.dim1, NormalEntry(t, eType, order, sqrt2))
  }

  /** Every flux point of a quad gets the normal of the face it lies on. */
  lemma QuadNormalsByFace(t: Mat, order: nat, sqrt2: real, f: nat)
    requires t.Valid() && t.dim1 >= 2 && f < t.dim0 && f < 4 * (order + 1)
    ensures Operators.Face(f, order) < 4
    ensures Normals(t, QUAD, order, sqrt2).At(f, 0) == ReferenceNormal(QUAD, Operators.Face(f, order), sqrt2).value.0
    ensures Normals(t, QUAD, order, sqrt2).At(f, 1) == ReferenceNormal(QUAD, Operators.Face(f, order), sqrt2).value.1
  {
    Split(f, 4, order + 1);
  }

  /** The loop of setTransformedNormals_fpts, one flux point per step. */
  method FillNormals(t: Mat, eType: int, order: nat, sqrt2: real) returns (r: Mat)
    requires t.Valid() && t.dim1 >= 2
    ensures r == Normals(t, eType, order, sqrt2)
  {
    r := t;
    var fpt := 0;
    while fpt < t.dim0
      invariant 0 <= fpt <= t.dim0 && Shaped(r, t.dim0, t.dim1)
      invariant forall f, d :: 0 <= f < t.dim0 && 0 <= d < t.dim1 ==>
        r.At(f, d) == if f < fpt then NormalEntry(t, eType, order, sqrt2)(f, d) else t.At(f, d)
    {
      r := NormalRow(r, t, eType, order, sqrt2, fpt);
      fpt := fpt + 1;
    }
    Ext(r, Normals(t, eType, order, sqrt2));
  }

  /** One step of that loop: the normal of the flux point's face is
      written into row fpt. */
  method NormalRow(r0: Mat, t: Mat, eType: int, order: nat, sqrt2: real, fpt: nat) returns (r: Mat)
    requires t.Valid() && t.dim1 >= 2 && fpt < t.dim0 && Shaped(r0, t.dim0, t.dim1)
    requires forall f, d :: 0 <= f < t.dim0 && 0 <= d < t.dim1 ==>
      r0.At(f, d) == if f < fpt then NormalEntry(t, eType, order, sqrt2)(f, d) else t.At(f, d)
    ensures Shaped(r, t.dim0, t.dim1)
    ensures forall f, d :: 0 <= f < t.dim0 && 0 <= d < t.dim1 ==>
      r.At(f, d) == if f <= fpt then NormalEntry(t, eType, order, sqrt2)(f, d) else t.At(f, d)
  {
    var face := fpt / (order + 1);
    match ReferenceNormal(eType, face, sqrt2)
    case Some(n) =>
      var r1 := r0.Set(fpt, 0, n.0);
      r := r1.Set(fpt, 1, n.1);
    case None =>
      r := r0;
  }

  /* ---------------------------------------------------------------------
     Jacobian of the map from the reference square (calcTransforms).
     --------------------------------------------------------------------- */

  /** Coordinate d of a point, as point::operator[]. */
  function Coord(p: Point, d: nat): real
    requires d < 3
  {
    p.Get(d).value
  }

  /** The shape-derivative matrix at one point covers the first n nodes and
      two reference directions. */
  ghost predicate Covers(dS: Mat, n: nat)
  {
    dS.Valid() && n <= dS.dim0 && 2 <= dS.dim1
  }

  /** The sum over the first n nodes of dS[i][d2] * node_i[d1]: entry
      (d1, d2) of the Jacobian dx_d1 / dr_d2 after n steps of the
      accumulation. */
  function JacobianSum(dS: Mat, nodes: seq<Point>, d1: nat, d2: nat, n: nat): real
    requires Covers(dS, n) && n <= |nodes| && d1 < 2 && d2 < 2
  {
    if n == 0 then 0.0
    else JacobianSum(dS, nodes, d1, d2, n - 1) + Scale(dS.At(n - 1, d2), Coord(nodes[n - 1], d1))
  }

  /** The entries of the Jacobian summed over the first n nodes. */
  function JacobianEntry(dS: Mat, nodes: seq<Point>, n: nat): (nat, nat) -> real
    requires Covers(dS, n) && n <= |nodes|
  {
    (d1: nat, d2: nat) => if d1 < 2 && d2 < 2 then JacobianSum(dS, nodes, d1, d2, n) else 0.0
  }

  /** The 2 x 2 Jacobian [dx/dr, dx/ds; dy/dr, dy/ds] at one point. */
  function Jacobian(dS: Mat, nodes: seq<Point>): (J: Mat)
    requires Covers(dS, |nodes|)
    ensures Shaped(J, 2, 2)
  {
    Tabulate(2, 2, JacobianEntry(dS, nodes, |nodes|))
  }

  /** The determinant J00 J11 - J10 J01. */
  function Det(J: Mat): real
    requires Shaped(J, 2, 2)
  {
    Scale(J.At(0, 0), J.At(1, 1)) - Scale(J.At(1, 0), J.At(0, 1))
  }

  /** The inverse times the determinant, built from cofactors (JGinv). */
  function Adjugate(J: Mat): (A: Mat)
    requires Shaped(J, 2, 2)
    ensures Shaped(A, 2, 2)
    ensures A.At(0, 0) == J.At(1, 1) && A.At(0, 1) == -J.At(0, 1)
    ensures A.At(1, 0) == -J.At(1, 0) && A.At(1, 1) == J.At(0, 0)
  {
    Mat(2, 2, [J.At(1, 1), -J.At(0, 1), -J.At(1, 0), J.At(0, 0)])
  }

  /** The adjugate inverts the Jacobian up to its determinant, on both
      sides: JGinv J = J JGinv = det I. */
  lemma AdjugateProduct(J: Mat)
    requires Shaped(J, 2, 2)
    ensures forall i, k :: 0 <= i < 2 && 0 <= k < 2 ==>
      Product(Adjugate(J), J).At(i, k) == if i == k then Det(J) else 0.0
    ensures forall i, k :: 0 <= i < 2 && 0 <= k < 2 ==>
      Product(J, Adjugate(J)).At(i, k) == if i == k then Det(J) else 0.0
  {
    var A := Adjugate(J);
    forall i: nat, k: nat | i < 2 && k < 2
      ensures Dot(A, J, i, k, 2) == if i == k then Det(J) else 0.0
      ensures Dot(J, A, i, k, 2) == if i == k then Det(J) else 0.0
    {
      DotTwo(A, J, i, k);
      DotTwo(J, A, i, k);
    }
  }

  /** A dot product over two terms, written out. */
  lemma DotTwo(a: Mat, b: Mat, i: nat, k: nat)
    requires Shaped(a, 2, 2) && Shaped(b, 2, 2) && i < 2 && k < 2
    ensures Dot(a, b, i, k, 2) == a.At(i, 0) * b.At(0, k) + a.At(i, 1) * b.At(1, k)
  {
    assert Dot(a, b, i, k, 1) == Dot(a, b, i, k, 0) + Scale(a.At(i, 0), b.At(0, k));
  }

  /** The reference normal t carried to physical space by the adjugate,
      before normalisation. */
  function PhysicalNormal(J: Mat, t0: real, t1: real): (real, real)
    requires Shaped(J, 2, 2)
  {
    (Scale(J.At(1, 1), t0) - Scale(J.At(1, 0), t1), -Scale(J.At(0, 1), t0) + Scale(J.At(0, 0), t1))
  }

  /** The physical normal is orthogonal to the image of every reference
      direction orthogonal to t: (J a) . N == det(J) (a . t). */
  lemma NormalOrthogonal(J: Mat, t0: real, t1: real, a0: real, a1: real)
    requires Shaped(J, 2, 2)
    ensures var N := PhysicalNormal(J, t0, t1);
      (J.At(0, 0) * a0 + J.At(0, 1) * a1) * N.0 + (J.At(1, 0) * a0 + J.At(1, 1) * a1) * N.1
        == Det(J) * (a0 * t0 + a1 * t1)
  {
  }

  /** The message of the checked row access of a matrix. */
  const OutOfBounds := "Attempted out-of-bounds access in matrix."

  /** The message calcTransforms gives for a negative determinant, at
      solution and at flux points alike. */
  const NegativeJacobian := "Negative Jacobian at solution points."

  /** The accumulation loops of calcTransforms at one point: the matrix is
      zeroed, then each node adds its coordinates times its shape
      derivatives. */
  method AccumulateJacobian(J0: Mat, dS: Mat, nodes: seq<Point>) returns (J: Mat)
    requires Shaped(J0, 2, 2) && Covers(dS, |nodes|)
    ensures J == Jacobian(dS, nodes)
  {
    J := Fill(J0, (_, _) => 0.0);
    TabulateExt(2, 2, (_, _) => 0.0, JacobianEntry(dS, nodes, 0));
    var i := 0;
    while i < |nodes|
      invariant 0 <= i <= |nodes|
      invariant J == Tabulate(2, 2, JacobianEntry(dS, nodes, i))
    {
      J := AddNode(J, dS, nodes, i);
      i := i + 1;
    }
  }

  /** One node's contribution: entry (d1, d2) grows by dS[i][d2] node_i[d1]. */
  method AddNode(J0: Mat, dS: Mat, nodes: seq<Point>, i: nat) returns (J: Mat)
    requires i < |nodes| && Covers(dS, |nodes|)
    requires J0 == Tabulate(2, 2, JacobianEntry(dS, nodes, i))
    ensures J == Tabulate(2, 2, JacobianEntry(dS, nodes, i + 1))
  {
    var step := (d1: nat, d2: nat) =>
      if d1 < 2 && d2 < 2 then J0.At(d1, d2) + Scale(dS.At(i, d2), Coord(nodes[i], d1)) else 0.0;
    J := Fill(J0, step);
    TabulateExt(2, 2, step, JacobianEntry(dS, nodes, i + 1));
  }

  /** A point whose transform ends the run: its derivative matrix has fewer
      rows than there are nodes, or its Jacobian has a negative
      determinant. A zero determinant is not rejected. */
  ghost predicate Bad(dS: Mat, nodes: seq<Point>)
    requires dS.Valid() && 2 <= dS.dim1
  {
    dS.dim0 < |nodes| || Det(Jacobian(dS, nodes)) < 0.0
  }

  /** The derivative matrices can be read at every node and in both
      reference directions, or are caught by the checked row access. */
  ghost predicate Readable(dS: seq<Mat>)
  {
    forall s :: 0 <= s < |dS| ==> dS[s].Valid() && 2 <= dS[s].dim1
  }

  /** The Jacobians at a list of points. */
  function Jacobians(dS: seq<Mat>, nodes: seq<Point>): (js: seq<Mat>)
    requires forall s :: 0 <= s < |dS| ==> Covers(dS[s], |nodes|)
    ensures |js| == |dS|
    ensures forall s :: 0 <= s < |dS| ==> js[s] == Jacobian(dS[s], nodes)
  {
    seq(|dS|, s requires 0 <= s < |dS| => Jacobian(dS[s], nodes))
  }

  /** The determinants of a list of 2 x 2 matrices. */
  function Dets(js: seq<Mat>): (ds: seq<real>)
    requires forall s :: 0 <= s < |js| ==> Shaped(js[s], 2, 2)
    ensures |ds| == |js|
    ensures forall s :: 0 <= s < |js| ==> ds[s] == Det(js[s])
  {
    seq(|js|, s requires 0 <= s < |js| => Det(js[s]))
  }

  /** The adjugates of a list of 2 x 2 matrices. */
  function Adjugates(js: seq<Mat>): (as_: seq<Mat>)
    requires forall s :: 0 <= s < |js| ==> Shaped(js[s], 2, 2)
    ensures |as_| == |js|
    ensures forall s :: 0 <= s < |js| ==> as_[s] == Adjugate(js[s])
  {
    seq(|js|, s requires 0 <= s < |js| => Adjugate(js[s]))
  }

  /** The solution-point part of a geometry after calcTransforms: every
      point's derivatives cover the nodes, and the geometry holds the
      Jacobians, their determinants and their adjugates. */
  ghost predicate SolutionTransformsOf(g: Geometry, dS: seq<Mat>, nodes: seq<Point>)
  {
    (forall s :: 0 <= s < |dS| ==> Covers(dS[s], |nodes|)) &&
    g.jacSpts == Jacobians(dS, nodes) && g.detJacSpts == Dets(g.jacSpts) && g.jGinvSpts == Adjugates(g.jacSpts)
  }

  /** The flux-point part of a geometry after calcTransforms: Jacobians and
      their determinants. */
  ghost predicate FluxTransformsOf(g: Geometry, dS: seq<Mat>, nodes: seq<Point>)
  {
    (forall f :: 0 <= f < |dS| ==> Covers(dS[f], |nodes|)) &&
    g.jacFpts == Jacobians(dS, nodes) && g.detJacFpts == Dets(g.jacFpts)
  }

  /** The work at one point: the Jacobian is accumulated and its
      determinant checked; the message says why the point ends the run. */
  method PointTransform(J0: Mat, dS: Mat, nodes: seq<Point>) returns (fault: Option<string>, J: Mat)
    requires Shaped(J0, 2, 2) && dS.Valid() && 2 <= dS.dim1
    ensures Shaped(J, 2, 2)
    ensures fault.Some? <==> Bad(dS, nodes)
    ensures fault.None? ==> J == Jacobian(dS, nodes)
  {
    if dS.dim0 < |nodes| {
      return Some(OutOfBounds), J0;
    }
    J := AccumulateJacobian(J0, dS, nodes);
    fault := if Det(J) < 0.0 then Some(NegativeJacobian) else None;
  }

  /** The first s points have been transformed without fault: each has a
      Jacobian, its determinant, and that determinant is not negative. */
  ghost predicate Transformed(jac: seq<Mat>, det: seq<real>, dS: seq<Mat>, nodes: seq<Point>, s: nat)
  {
    s <= |dS| && |jac| == |det| == |dS| && Readable(dS) &&
    (forall q :: 0 <= q < |dS| ==> Shaped(jac[q], 2, 2)) &&
    (forall q :: 0 <= q < s ==> Covers(dS[q], |nodes|) && jac[q] == Jacobian(dS[q], nodes)) &&
    (forall q :: 0 <= q < s ==> det[q] == Det(jac[q]) && det[q] >= 0.0)
  }

  /** Once every point is transformed, no point was bad and the vectors
      hold the Jacobians and their determinants. */
  lemma TransformedAll(jac: seq<Mat>, det: seq<real>, dS: seq<Mat>, nodes: seq<Point>)
    requires Transformed(jac, det, dS, nodes, |dS|)
    ensures forall q :: 0 <= q < |dS| ==> !Bad(dS[q], nodes)
    ensures jac == Jacobians(dS, nodes) && det == Dets(jac)
  {
    assert jac == Jacobians(dS, nodes);
  }

  /** One iteration of either loop of calcTransforms, at point s. */
  method TransformStep(jac0: seq<Mat>, det0: seq<real>, dS: seq<Mat>, nodes: seq<Point>, s: nat)
    returns (fault: Option<string>, jac: seq<Mat>, det: seq<real>)
    requires s < |dS| && Transformed(jac0, det0, dS, nodes, s)
    ensures fault.Some? <==> Bad(dS[s], nodes)
    ensures fault.None? ==> Transformed(jac, det, dS, nodes, s + 1) && jac[..s] == jac0[..s]
  {
    var J;
    fault, J := PointTransform(jac0[s], dS[s], nodes);
    jac, det := jac0[s := J], det0[s := Det(J)];
  }

  /** The solution-point loop of calcTransforms: Jacobian, determinant and
      adjugate point by point; the first bad point ends the run. */
  method SolutionPointTransforms(jac0: seq<Mat>, det0: seq<real>, adj0: seq<Mat>, dS: seq<Mat>, nodes: seq<Point>)
    returns (st: Status, jac: seq<Mat>, det: seq<real>, adj: seq<Mat>)
    requires |jac0| == |det0| == |adj0| == |dS| && Readable(dS)
    requires forall s :: 0 <= s < |dS| ==> Shaped(jac0[s], 2, 2) && Shaped(adj0[s], 2, 2)
    ensures st.Fatal? <==> exists s :: 0 <= s < |dS| && Bad(dS[s], nodes)
    ensures st.Done? ==> jac == Jacobians(dS, nodes) && det == Dets(jac) && adj == Adjugates(jac)
  {
    jac, det, adj := jac0, det0, adj0;
    var s := 0;
    while s < |dS|
      invariant Transformed(jac, det, dS, nodes, s) && |adj| == |dS|
      invariant forall q :: 0 <= q < s ==> adj[q] == Adjugate(jac[q])
    {
      var fault;
      fault, jac, det := TransformStep(jac, det, dS, nodes, s);
      if fault.Some? {
        return Fatal(fault.value), jac, det, adj;
      }
      adj := adj[s := Adjugate(jac[s])];
      s := s + 1;
    }
    TransformedAll(jac, det, dS, nodes);
    st := Done;
  }

  /** The flux-point loop of calcTransforms: Jacobian and determinant point
      by point; the first bad point ends the run. */
  method FluxPointTransforms(jac0: seq<Mat>, det0: seq<real>, dS: seq<Mat>, nodes: seq<Point>)
    returns (st: Status, jac: seq<Mat>, det: seq<real>)
    requires |jac0| == |det0| == |dS| && Readable(dS)
    requires forall f :: 0 <= f < |dS| ==> Shaped(jac0[f], 2, 2)
    ensures st.Fatal? <==> exists f :: 0 <= f < |dS| && Bad(dS[f], nodes)
    ensures st.Done? ==> jac == Jacobians(dS, nodes) && det == Dets(jac)
  {
    jac, det := jac0, det0;
    var f := 0;
    while f < |dS|
      invariant Transformed(jac, det, dS, nodes, f)
    {
      var fault;
      fault, jac, det := TransformStep(jac, det, dS, nodes, f);
      if fault.Some? {
        return Fatal(fault.value), jac, det;
      }
      f := f + 1;
    }
    TransformedAll(jac, det, dS, nodes);
    st := Done;
  }

  /** The shape setDShape_spts gives every derivative matrix: one row per
      node and one column per dimension. */
  function DShapeShape(nNodes: nat, nDims: nat): (nat, nat)
  {
    (nNodes, nDims)
  }

  /** The shape setDShape_fpts gives every flux-point derivative matrix, as
      written: nDims x nDims. */
  function FluxDShapeShapeAsWritten(nNodes: nat, nDims: nat): (nat, nat)
  {
    (nDims, nDims)
  }

  /** As written, every flux point of a four-node quad is bad: its
      derivative matrix has two rows, and the accumulation reads rows 2 and
      3 through the checked row access. */
  lemma FluxDShapeAsWrittenAborts(dS: Mat, nodes: seq<Point>)
    requires |nodes| == 4 && dS.Valid() && (dS.dim0, dS.dim1) == FluxDShapeShapeAsWritten(4, 2)
    ensures Bad(dS, nodes)
  {
  }

  /** With one row per node, the access is always in range and only a
      negative determinant makes a point bad. */
  lemma DShapeShapeReadable(dS: Mat, nodes: seq<Point>)
    requires dS.Valid() && (dS.dim0, dS.dim1) == DShapeShape(|nodes|, 2)
    ensures Covers(dS, |nodes|)
    ensures Bad(dS, nodes) <==> Det(Jacobian(dS, nodes)) < 0.0
  {
  }

  /* ---------------------------------------------------------------------
     Runge-Kutta stage update (timeStepA, timeStepB).
     --------------------------------------------------------------------- */

  /** The stage increment is defined: the divergence has the solution's
      shape and no determinant is zero. */
  ghost predicate Steppable(base: Mat, divF: Mat, detJac: seq<real>)
  {
    base.Valid() && Shaped(divF, base.dim0, base.dim1) && |detJac| == base.dim0 &&
    forall s :: 0 <= s < |detJac| ==> detJac[s] != 0.0
  }

  /** Entry (s, i) of a stage: base minus rkVal dt divF / detJac. */
  function StageEntry(base: Mat, divF: Mat, detJac: seq<real>, rkVal: real, dt: real): (nat, nat) -> real
    requires Steppable(base, divF, detJac)
  {
    (s: nat, i: nat) =>
      if s < base.dim0 && i < base.dim1
      then base.At(s, i) - Scale(Scale(rkVal, dt), divF.At(s, i)) / detJac[s]
      else 0.0
  }

  /** Every solution entry moved from base against the divergence of the
      flux, scaled by rkVal dt and the inverse Jacobian determinant. */
  function StageUpdate(base: Mat, divF: Mat, detJac: seq<real>, rkVal: real, dt: real): (r: Mat)
    requires Steppable(base, divF, detJac)
    ensures Shaped(r, base.dim0, base.dim1)
  {
    Tabulate(base.dim0, base.dim1, StageEntry(base, divF, detJac, rkVal, dt))
  }

  /** Two successive updates with the same divergence add their
      coefficients: StageUpdate(StageUpdate(U, a), b) == StageUpdate(U, a + b). */
  lemma StagesCompose(base: Mat, divF: Mat, detJac: seq<real>, a: real, b: real, dt: real)
    requires Steppable(base, divF, detJac)
    ensures Steppable(StageUpdate(base, divF, detJac, a, dt), divF, detJac)
    ensures StageUpdate(StageUpdate(base, divF, detJac, a, dt), divF, detJac, b, dt)
         == StageUpdate(base, divF, detJac, a + b, dt)
  {
    var once := StageUpdate(base, divF, detJac, a, dt);
    var twice := StageUpdate(once, divF, detJac, b, dt);
    var sum := StageUpdate(base, divF, detJac, a + b, dt);
    forall s: nat, i: nat | s < base.dim0 && i < base.dim1
      ensures twice.At(s, i) == sum.At(s, i)
    {
      var u, d, j := base.At(s, i), divF.At(s, i), detJac[s];
      assert twice.At(s, i) == (u - Scale(Scale(a, dt), d) / j) - Scale(Scale(b, dt), d) / j;
      assert sum.At(s, i) == u - Scale(Scale(a + b, dt), d) / j;
      SplitIncrement(u, d, j, a, b, dt);
    }
    Ext(twice, sum);
  }

  /** The arithmetic of one entry of StagesCompose. */
  lemma SplitIncrement(u: real, d: real, j: real, a: real, b: real, dt: real)
    requires j != 0.0
    ensures (u - Scale(Scale(a, dt), d) / j) - Scale(Scale(b, dt), d) / j == u - Scale(Scale(a + b, dt), d) / j
  {
    var x, y := Scale(Scale(a, dt), d), Scale(Scale(b, dt), d);
    assert Scale(Scale(a + b, dt), d) == x + y;
    assert x / j + y / j == (x + y) / j;
  }

  /** A zero coefficient leaves the solution unchanged, and a nonzero one
      leaves entry (s, i) unchanged exactly when dt divF[s][i] is zero. */
  lemma StageFixedPoints(base: Mat, divF: Mat, detJac: seq<real>, rkVal: real, dt: real, s: nat, i: nat)
    requires Steppable(base, divF, detJac) && s < base.dim0 && i < base.dim1
    ensures StageUpdate(base, divF, detJac, rkVal, dt).At(s, i) == base.At(s, i)
        <==> rkVal == 0.0 || dt == 0.0 || divF.At(s, i) == 0.0
  {
    var d, j := divF.At(s, i), detJac[s];
    assert StageUpdate(base, divF, detJac, rkVal, dt).At(s, i) == base.At(s, i) - Scale(Scale(rkVal, dt), d) / j;
    assert Scale(Scale(rkVal, dt), d) / j == 0.0 <==> Scale(Scale(rkVal, dt), d) == 0.0;
    assert Scale(Scale(rkVal, dt), d) == (rkVal * dt) * d;
  }

  /* ---------------------------------------------------------------------
     Residual norms (getResidual).
     --------------------------------------------------------------------- */

  /** Field i of the residual over the first n solution points: the sum of
      absolute values (normType 1), of squares (2), the largest absolute
      value (3), and zero for any other type. */
  function Residual(d: Mat, normType: int, i: nat, n: nat): real
    requires d.Valid() && n <= d.dim0 && i < d.dim1
  {
    if n == 0 then 0.0
    else
      var prev, x := Residual(d, normType, i, n - 1), d.At(n - 1, i);
      if normType == 1 then prev + Abs(x)
      else if normType == 2 then prev + Scale(x, x)
      else if normType == 3 then Max(Abs(x), prev)
      else prev
  }

  /** Every residual norm is nonnegative, and any other norm type gives 0. */
  lemma {:induction false} ResidualNonNegative(d: Mat, normType: int, i: nat, n: nat)
    requires d.Valid() && n <= d.dim0 && i < d.dim1
    ensures Residual(d, normType, i, n) >= 0.0
    ensures normType !in {1, 2, 3} ==> Residual(d, normType, i, n) == 0.0
  {
    if n > 0 {
      ResidualNonNegative(d, normType, i, n - 1);
      var x := d.At(n - 1, i);
      assert Scale(x, x) >= 0.0 by {
        if x < 0.0 { assert Scale(x, x) == (-x) * (-x); }
      }
    }
  }

  /** The 1-norm and the maximum norm bound every absolute entry of the
      field, and the 2-norm bounds every square. */
  lemma {:induction false} ResidualBounds(d: Mat, normType: int, i: nat, n: nat)
    requires d.Valid() && n <= d.dim0 && i < d.dim1
    ensures normType == 1 || normType == 3 ==>
      forall s :: 0 <= s < n ==> Abs(d.At(s, i)) <= Residual(d, normType, i, n)
    ensures normType == 2 ==>
      forall s :: 0 <= s < n ==> Scale(d.At(s, i), d.At(s, i)) <= Residual(d, normType, i, n)
  {
    if n > 0 {
      ResidualBounds(d, normType, i, n - 1);
      ResidualNonNegative(d, normType, i, n - 1);
      var x := d.At(n - 1, i);
      assert Scale(x, x) >= 0.0 by {
        if x < 0.0 { assert Scale(x, x) == (-x) * (-x); }
      }
    }
  }

  /** The maximum norm is attained: over at least one point it equals the
      absolute value of one of the entries. */
  lemma {:induction false} ResidualMaxAttained(d: Mat, i: nat, n: nat)
    requires d.Valid() && 0 < n <= d.dim0 && i < d.dim1
    ensures exists s :: 0 <= s < n && Residual(d, 3, i, n) == Abs(d.At(s, i))
  {
    if n == 1 {
      assert Residual(d, 3, i, 0) == 0.0;
      assert Residual(d, 3, i, 1) == Abs(d.At(0, i));
    } else {
      ResidualMaxAttained(d, i, n - 1);
    }
  }

  /** The accumulation over one solution point: every field's entry is
      folded into its norm. */
  method ResidualRow(res0: seq<real>, d: Mat, normType: int, spt: nat) returns (res: seq<real>)
    requires d.Valid() && spt < d.dim0 && |res0| == d.dim1
    requires forall i :: 0 <= i < d.dim1 ==> res0[i] == Residual(d, normType, i, spt)
    ensures |res| == d.dim1
    ensures forall i :: 0 <= i < d.dim1 ==> res[i] == Residual(d, normType, i, spt + 1)
  {
    res := res0;
    var i := 0;
    while i < d.dim1
      invariant 0 <= i <= d.dim1 && |res| == d.dim1
      invariant forall q :: 0 <= q < i ==> res[q] == Residual(d, normType, q, spt + 1)
      invariant forall q :: i <= q < d.dim1 ==> res[q] == Residual(d, normType, q, spt)
    {
      var x := d.At(spt, i);
      if normType == 1 {
        res := res[i := res[i] + Abs(x)];
      } else if normType == 2 {
        res := res[i := res[i] + Scale(x, x)];
      } else if normType == 3 {
        res := res[i := Max(Abs(x), res[i])];
      }
      i := i + 1;
    }
  }

  /** The loops of getResidual over the first nSpts rows of stage 0. */
  method ResidualOf(d: Mat, normType: int, nSpts: nat) returns (res: seq<real>)
    requires d.Valid() && nSpts <= d.dim0
    ensures |res| == d.dim1
    ensures forall i :: 0 <= i < d.dim1 ==> res[i] == Residual(d, normType, i, nSpts)
  {
    res := seq(d.dim1, _ => 0.0);
    var spt := 0;
    while spt < nSpts
      invariant 0 <= spt <= nSpts && |res| == d.dim1
      invariant forall i :: 0 <= i < d.dim1 ==> res[i] == Residual(d, normType, i, spt)
    {
      res := ResidualRow(res, d, normType, spt);
      spt := spt + 1;
    }
  }

  /* ---------------------------------------------------------------------
     Primitive variables (getPrimitives, getPrimitivesPlot).
     --------------------------------------------------------------------- */

  /** The conservative state at a point can be turned into primitive
      variables: density, two momenta and energy, with nonzero density. */
  ghost predicate Conservative(w: seq<real>)
  {
    |w| >= 4 && w[0] != 0.0
  }

  /** The pressure of the ideal gas: (gamma - 1) times the energy less the
      kinetic energy (momentum squared over twice the density). */
  function Pressure(w: seq<real>, gamma: real): real
    requires Conservative(w)
  {
    Scale(gamma - 1.0, w[3] - 0.5 * (Scale(w[1], w[1]) + Scale(w[2], w[2])) / w[0])
  }

  /** getPrimitives at one point: the scalar for advection-diffusion;
      density, the two velocities and the pressure for Navier-Stokes; the
      other entries of the nFields-vector stay zero. */
  function Primitives(u: seq<real>, equation: int, gamma: real, nFields: nat): (v: seq<real>)
    requires equation == ADVECTION_DIFFUSION ==> |u| >= 1 && nFields >= 1
    requires equation == NAVIER_STOKES ==> Conservative(u) && nFields >= 4
    ensures |v| == nFields
  {
    var z := seq(nFields, _ => 0.0);
    if equation == ADVECTION_DIFFUSION then z[0 := u[0]]
    else if equation == NAVIER_STOKES then z[0 := u[0]][1 := u[1] / u[0]][2 := u[2] / u[0]][3 := Pressure(u, gamma)]
    else z
  }

  /** The conservative state of the primitive vector v, the inverse of
      Primitives for a gas with gamma != 1. */
  function FromPrimitives(v: seq<real>, gamma: real): (w: seq<real>)
    requires |v| >= 4 && gamma != 1.0
    ensures |w| == 4
  {
    [v[0], Scale(v[0], v[1]), Scale(v[0], v[2]),
     v[3] / (gamma - 1.0) + 0.5 * Scale(v[0], Scale(v[1], v[1]) + Scale(v[2], v[2]))]
  }

  /** For Navier-Stokes the primitive variables determine the conservative
      ones: FromPrimitives(Primitives(u)) == u. */
  lemma PrimitivesRoundTrip(u: seq<real>, gamma: real)
    requires Conservative(u) && |u| == 4 && gamma != 1.0
    ensures FromPrimitives(Primitives(u, NAVIER_STOKES, gamma, 4), gamma) == u
  {
    var v := Primitives(u, NAVIER_STOKES, gamma, 4);
    var r, m1, m2, e := u[0], u[1], u[2], u[3];
    var S := Scale(m1, m1) + Scale(m2, m2);
    var k := 0.5 * S / r;
    assert v[0] == r && v[1] == m1 / r && v[2] == m2 / r && v[3] == Scale(gamma - 1.0, e - k);
    MulDiv(r, m1);
    MulDiv(r, m2);
    ScaleDiv(gamma - 1.0, e - k);
    Kinetic(r, m1, m2);
    assert 0.5 * (S / r) == k;
    var w := FromPrimitives(v, gamma);
    assert w[3] == e - k + 0.5 * (S / r);
    assert w == [r, m1, m2, e];
  }

  /** r (m / r) == m. */
  lemma MulDiv(r: real, m: real)
    requires r != 0.0
    ensures Scale(r, m / r) == m
  {
  }

  /** (c y) / c == y. */
  lemma ScaleDiv(c: real, y: real)
    requires c != 0.0
    ensures Scale(c, y) / c == y
  {
  }

  /** Density times the squared velocities is the squared momenta over the
      density. */
  lemma Kinetic(r: real, m1: real, m2: real)
    requires r != 0.0
    ensures Scale(r, Scale(m1 / r, m1 / r) + Scale(m2 / r, m2 / r)) == (Scale(m1, m1) + Scale(m2, m2)) / r
  {
    var a, b := m1 / r, m2 / r;
    assert m1 == Scale(r, a) && m2 == Scale(r, b);
    assert Scale(m1, m1) == Scale(r, Scale(r, Scale(a, a)));
    assert Scale(m2, m2) == Scale(r, Scale(r, Scale(b, b)));
    assert Scale(m1, m1) + Scale(m2, m2) == Scale(r, Scale(r, Scale(a, a) + Scale(b, b)));
  }

  /** One row of the plot matrix turned into primitive variables in place,
      in the order getPrimitivesPlot writes the entries: pressure first,
      from the momenta as they were, then the two velocities. */
  function ToPrimitive(w: seq<real>, gamma: real): (v: seq<real>)
    requires Conservative(w)
    ensures |v| == |w|
  {
    var w3 := w[3 := Pressure(w, gamma)];
    var w1 := w3[1 := w3[1] / w3[0]];
    w1[2 := w1[2] / w1[0]]
  }

  /** The in-place conversion of a plot row agrees with getPrimitives on the
      four Navier-Stokes variables and keeps any further field: no entry is
      read after it has been overwritten. */
  lemma ToPrimitiveAgrees(w: seq<real>, gamma: real)
    requires Conservative(w)
    ensures ToPrimitive(w, gamma)[..4] == Primitives(w, NAVIER_STOKES, gamma, |w|)[..4]
    ensures ToPrimitive(w, gamma)[4..] == w[4..]
  {
  }

  /** Every row of a plot matrix holds a conservative state. */
  ghost predicate AllConservative(rows: seq<seq<real>>)
  {
    forall k :: 0 <= k < |rows| ==> Conservative(rows[k])
  }

  /** The Navier-Stokes pass of getPrimitivesPlot over all rows. */
  method ConvertRows(rows: seq<seq<real>>, gamma: real) returns (out: seq<seq<real>>)
    requires AllConservative(rows)
    ensures |out| == |rows|
    ensures forall k :: 0 <= k < |rows| ==> out[k] == ToPrimitive(rows[k], gamma)
  {
    out := rows;
    var k := 0;
    while k < |rows|
      invariant 0 <= k <= |rows| && |out| == |rows|
      invariant forall q :: 0 <= q < k ==> out[q] == ToPrimitive(rows[q], gamma)
      invariant forall q :: k <= q < |rows| ==> out[q] == rows[q]
    {
      out := out[k := ToPrimitive(out[k], gamma)];
      k := k + 1;
    }
  }

  /** A property of every row of the three sources holds of every cell of
      their plot layout. */
  lemma LayoutKeeps<T>(order: nat, nodes: seq<T>, fpts: seq<T>, spts: seq<T>, P: T -> bool)
    requires Fits(order, nodes, fpts, spts)
    requires forall k :: 0 <= k < 4 ==> P(nodes[k])
    requires forall f :: 0 <= f < |fpts| ==> P(fpts[f])
    requires forall s :: 0 <= s < Area(order + 1, order + 1) ==> P(spts[s])
    ensures forall k :: 0 <= k < |Layout(order, nodes, fpts, spts)| ==> P(Layout(order, nodes, fpts, spts)[k])
  {
    var n := order + 3;
    var L := Layout(order, nodes, fpts, spts);
    forall k | 0 <= k < |L|
      ensures P(L[k])
    {
      Split(k, n, n);
      var r, c := k / n, k % n;
      assert k == Cell(n, r, c);
      LayoutAt(order, nodes, fpts, spts, r, c);
    }
  }

  /** The flux points of a quad's plot run around the boundary
      counter-clockwise, face by face in the operators' numbering: along
      the bottom and right faces in their own direction, along the top and
      left faces reversed. */
  lemma PlotFluxPointsFollowFaces(order: nat, f: nat)
    requires f < 4 * (order + 1)
    ensures var face, j, rc := Operators.Face(f, order), Operators.Local(f, order), PlotCell(order, FluxPoint(f));
      face < 4 &&
      (face == 0 ==> rc == (0, j + 1)) &&
      (face == 1 ==> rc == (j + 1, order + 2)) &&
      (face == 2 ==> rc == (order + 2, order + 1 - j)) &&
      (face == 3 ==> rc == (order + 1 - j, 0))
  {
    var p := order + 1;
    Split(f, 4, p);
    var face, j := f / p, f % p;
    DivMod(face, j, p);
    assert f == Area(face, p) + j;
    assert Area(1, p) == p && Area(2, p) == 2 * p && Area(3, p) == 3 * p;
  }

  /** The plot matrix the three writers of the layout fill in: resized to
      one row per grid cell (keeping its leading entries, all of which are
      then overwritten), and row by row the layout of the node, flux-point
      and solution-point rows. */
  method PlotMatrix(M0: Mat, order: nat, nodes: Mat, fpts: Mat, spts: Mat) returns (M: Mat)
    requires nodes.Valid() && fpts.Valid() && spts.Valid()
    requires fpts.dim1 == nodes.dim1 && spts.dim1 == nodes.dim1
    requires Fits(order, nodes.Rows(), fpts.Rows(), spts.Rows())
    ensures Shaped(M, Area(order + 3, order + 3), nodes.dim1)
    ensures M.Rows() == Layout(order, nodes.Rows(), fpts.Rows(), spts.Rows())
  {
    var w := nodes.dim1;
    var rows := Scatter(M0.Resized(Area(order + 3, order + 3), w).Rows(), order, nodes.Rows(), fpts.Rows(), spts.Rows());
    LayoutKeeps(order, nodes.Rows(), fpts.Rows(), spts.Rows(), (r: seq<real>) => |r| == w);
    RowsOfFlatten(rows, w);
    M := Mat(|rows|, w, Flatten(rows));
  }

  /** The Navier-Stokes pass of getPrimitivesPlot on a whole plot matrix:
      every row converted in place to primitive variables. */
  method PrimitiveRows(V: Mat, gamma: real) returns (W: Mat)
    requires V.Valid() && AllConservative(V.Rows())
    ensures Shaped(W, V.dim0, V.dim1)
    ensures forall k :: 0 <= k < V.dim0 ==> W.Rows()[k] == ToPrimitive(V.Rows()[k], gamma)
  {
    var rows := ConvertRows(V.Rows(), gamma);
    assert Uniform(rows, V.dim1);
    RowsOfFlatten(rows, V.dim1);
    W := Mat(V.dim0, V.dim1, Flatten(rows));
  }

  /** For Navier-Stokes with gamma != 1 the primitive vector of a point
      gives back its conservative state, whatever the number of fields. */
  lemma PrimitivesInvert(u: seq<real>, gamma: real, n: nat)
    requires Conservative(u) && n >= 4 && gamma != 1.0
    ensures FromPrimitives(Primitives(u, NAVIER_STOKES, gamma, n), gamma) == u[..4]
  {
    PrimitivesRoundTrip(u[..4], gamma);
    var v, v4 := Primitives(u, NAVIER_STOKES, gamma, n), Primitives(u[..4], NAVIER_STOKES, gamma, 4);
    assert v[..4] == v4;
  }

  /** The plot row of a solution point, converted in place by
      getPrimitivesPlot, holds the same four primitive variables as
      getPrimitives returns for that point, and leaves further fields as
      they were. */
  lemma PlotPrimitivesAgree(order: nat, nodes: seq<seq<real>>, fpts: seq<seq<real>>, spts: seq<seq<real>>,
                            s: nat, gamma: real)
    requires Fits(order, nodes, fpts, spts) && s < Area(order + 1, order + 1) && Conservative(spts[s])
    ensures var rc := PlotCell(order, SolutionPoint(s));
      var w := Layout(order, nodes, fpts, spts)[Cell(order + 3, rc.0, rc.1)];
      Conservative(w) &&
      ToPrimitive(w, gamma)[..4] == Primitives(spts[s], NAVIER_STOKES, gamma, |spts[s]|)[..4] &&
      ToPrimitive(w, gamma)[4..] == spts[s][4..]
  {
    LayoutShows(order, nodes, fpts, spts, SolutionPoint(s));
    ToPrimitiveAgrees(spts[s], gamma);
  }

  /** n copies of one value, as a vector built with a fill value. */
  function Copies<T>(x: T, n: nat): (r: seq<T>)
    ensures |r| == n && forall k :: 0 <= k < n ==> r[k] == x
  {
    seq(n, _ => x)
  }

  /* ---------------------------------------------------------------------
     The storage an element keeps, grouped by what it describes.
     --------------------------------------------------------------------- */

  /** The solution at solution points (spts), flux points (fpts) and mesh
      nodes (mpts), the copy U0 taken at the start of a time step, and the
      divergence of the flux at the solution points for every Runge-Kutta
      stage. */
  datatype Solution = Solution(uSpts: Mat, uFpts: Mat, uMpts: Mat, u0: Mat, divFSpts: seq<Mat>)

  /** The map from the reference element at every point: the Jacobian and
      its determinant at solution and flux points, the adjugate JGinv at
      solution points, and the transformed reference normals at flux
      points. */
  datatype Geometry = Geometry(jacSpts: seq<Mat>, jGinvSpts: seq<Mat>, detJacSpts: seq<real>,
                               jacFpts: seq<Mat>, detJacFpts: seq<real>, tNormFpts: Mat)

  /** Mesh motion: the node positions of every stage and the grid velocity
      at the nodes, solution points and flux points. */
  datatype Motion = Motion(nodesRK: seq<seq<Point>>, gridVelNodes: Mat, gridVelSpts: Mat, gridVelFpts: Mat)

  /** The solution is held at every point, and every stage has a divergence
      of the solution's shape. */
  ghost predicate SolutionShaped(s: Solution, nSpts: nat, nFpts: nat, nNodes: nat, nFields: nat, nRKSteps: nat)
  {
    Shaped(s.uSpts, nSpts, nFields) && Shaped(s.uFpts, nFpts, nFields) && Shaped(s.uMpts, nNodes, nFields) &&
    |s.divFSpts| == nRKSteps && forall k :: 0 <= k < nRKSteps ==> Shaped(s.divFSpts[k], nSpts, nFields)
  }

  /** Every point has a square Jacobian of the dimension and a determinant,
      every solution point an adjugate, and every flux point a normal. */
  ghost predicate GeometryShaped(g: Geometry, nSpts: nat, nFpts: nat, nDims: nat)
  {
    |g.jacSpts| == nSpts && |g.jGinvSpts| == nSpts && |g.detJacSpts| == nSpts &&
    |g.jacFpts| == nFpts && |g.detJacFpts| == nFpts &&
    (forall s :: 0 <= s < nSpts ==> Shaped(g.jacSpts[s], nDims, nDims) && Shaped(g.jGinvSpts[s], nDims, nDims)) &&
    (forall f :: 0 <= f < nFpts ==> Shaped(g.jacFpts[f], nDims, nDims)) &&
    Shaped(g.tNormFpts, nFpts, nDims)
  }

  /** The grid velocity is held at every point, and a moving mesh keeps one
      copy of the nodes per stage. */
  ghost predicate MotionShaped(m: Motion, nodes: seq<Point>, nSpts: nat, nFpts: nat, nDims: nat, moving: bool, nRKSteps: nat)
  {
    Shaped(m.gridVelNodes, |nodes|, nDims) && Shaped(m.gridVelSpts, nSpts, nDims) && Shaped(m.gridVelFpts, nFpts, nDims) &&
    (moving ==> |m.nodesRK| == nRKSteps && forall k :: 0 <= k < nRKSteps ==> |m.nodesRK[k]| == |nodes|)
  }

  /** The solution storage after setup: each matrix resized (keeping its
      leading entries) to its points and fields, one divergence per stage;
      U0 is left as it was. */
  function SizedSolution(s: Solution, nSpts: nat, nFpts: nat, nNodes: nat, nFields: nat, nRKSteps: nat): (r: Solution)
    ensures SolutionShaped(r, nSpts, nFpts, nNodes, nFields, nRKSteps)
    ensures r.u0 == s.u0
  {
    Solution(s.uSpts.Resized(nSpts, nFields), s.uFpts.Resized(nFpts, nFields), s.uMpts.Resized(nNodes, nFields), s.u0,
             ResizedEach(s.divFSpts, nRKSteps, nSpts, nFields))
  }

  /** The geometry storage after setup: per-point vectors resized to the
      point counts, every matrix in them resized to nDims x nDims, the
      normals to one row per flux point. */
  function SizedGeometry(g: Geometry, nSpts: nat, nFpts: nat, nDims: nat): (r: Geometry)
    ensures GeometryShaped(r, nSpts, nFpts, nDims)
  {
    Geometry(ResizedEach(g.jacSpts, nSpts, nDims, nDims), ResizedEach(g.jGinvSpts, nSpts, nDims, nDims),
             Resize(g.detJacSpts, nSpts, 0.0), ResizedEach(g.jacFpts, nFpts, nDims, nDims),
             Resize(g.detJacFpts, nFpts, 0.0), g.tNormFpts.Resized(nFpts, nDims))
  }

  /** The motion storage after setup: zero grid velocity everywhere, and a
      moving mesh starts every stage from the nodes. */
  function SizedMotion(m: Motion, nodes: seq<Point>, nSpts: nat, nFpts: nat, nDims: nat, moving: bool, nRKSteps: nat): (r: Motion)
    ensures MotionShaped(r, nodes, nSpts, nFpts, nDims, moving, nRKSteps)
    ensures Zeroed(r.gridVelNodes, |nodes|, nDims) && Zeroed(r.gridVelSpts, nSpts, nDims) && Zeroed(r.gridVelFpts, nFpts, nDims)
    ensures moving ==> forall k :: 0 <= k < nRKSteps ==> r.nodesRK[k] == nodes
    ensures !moving ==> r.nodesRK == m.nodesRK
  {
    FilledData(|nodes|, nDims, 0.0);
    FilledData(nSpts, nDims, 0.0);
    FilledData(nFpts, nDims, 0.0);
    Motion(if moving then Copies(nodes, nRKSteps) else m.nodesRK,
           Filled(|nodes|, nDims, 0.0), Filled(nSpts, nDims, 0.0), Filled(nFpts, nDims, 0.0))
  }

  /* ---------------------------------------------------------------------
     The element.
     --------------------------------------------------------------------- */

  /** One element: its configuration, node coordinates, and the storage it
      keeps at solution points (spts), flux points (fpts) and mesh nodes
      (mpts). Matrices are values the methods replace. */
  class Ele {
    var eType: int
    var order: nat
    var id: int
    var nodes: seq<Point>
    var nNodes: nat
    var params: Params
    var nDims: nat
    var nFields: nat
    var nSpts: nat
    var nFpts: nat
    var nRKSteps: nat
    var locSpts: seq<Point>
    var locFpts: seq<Point>
    var posSpts: seq<Point>
    var posFpts: seq<Point>
    var posPpts: seq<Point>
    var sol: Solution
    var geo: Geometry
    var motion: Motion

    /** The shapes setup establishes. */
    ghost predicate Valid()
      reads this
    {
      Counts() && FieldShapes() && GeometryShapes() && MotionShapes()
    }

    /** The point counts agree with the node and location lists, and there
        is at least one stage. */
    ghost predicate Counts()
      reads this`nNodes, this`nodes, this`nSpts, this`locSpts, this`nFpts, this`locFpts, this`posSpts, this`posFpts,
            this`nRKSteps
    {
      nNodes == |nodes| && nSpts == |locSpts| && nFpts == |locFpts| && |posSpts| == nSpts && |posFpts| == nFpts &&
      nRKSteps >= 1
    }

    ghost predicate FieldShapes()
      reads this`sol, this`nSpts, this`nFpts, this`nNodes, this`nFields, this`nRKSteps
    {
      SolutionShaped(sol, nSpts, nFpts, nNodes, nFields, nRKSteps)
    }

    ghost predicate GeometryShapes()
      reads this`geo, this`nSpts, this`nFpts, this`nDims
    {
      GeometryShaped(geo, nSpts, nFpts, nDims)
    }

    ghost predicate MotionShapes()
      reads this`motion, this`nodes, this`nSpts, this`nFpts, this`nDims, this`params, this`nRKSteps
    {
      MotionShaped(motion, nodes, nSpts, nFpts, nDims, params.motion != 0, nRKSteps)
    }

    /** The point counts of a quadrilateral of the element's order with
        four corner nodes, the element the plot routines are written for. */
    predicate QuadCounts()
      reads this
    {
      nSpts == Area(order + 1, order + 1) && nFpts == 4 * (order + 1) && nNodes == 4
    }

    /** The element is created with its type, order, number and nodes; all
        storage is empty until setup. */
    constructor (eType0: int, order0: nat, id0: int, nodes0: seq<Point>)
      ensures eType == eType0 && order == order0 && id == id0 && nodes == nodes0 && nNodes == |nodes0|
      ensures nSpts == 0 && nFpts == 0 && locSpts == [] && locFpts == []
    {
      eType, order, id, nodes, nNodes := eType0, order0, id0, nodes0, |nodes0|;
      params := Params(0, 0, 0, 0, 0, 0.0, 0.0);
      nDims, nFields, nSpts, nFpts, nRKSteps := 0, 0, 0, 0, 0;
      locSpts, locFpts, posSpts, posFpts, posPpts := [], [], [], [], [];
      var empty := Mat(0, 0, []);
      sol := Solution(empty, empty, empty, empty, []);
      geo := Geometry([], [], [], [], [], empty);
      motion := Motion([], empty, empty, empty);
    }

    /** setup up to its final step: the configuration is read and all
        storage is sized. The solution-point and flux-point locations are
        inputs. Any time scheme other than 0 and 4 ends the run. */
    method Setup(p: Params, locSpts0: seq<Point>, locFpts0: seq<Point>) returns (st: Status)
      requires nNodes == |nodes|
      modifies this
      ensures st.Fatal? <==> StageCount(p.timeType).None?
      ensures st.Fatal? ==> unchanged(this)
      ensures st.Done? ==> Valid()
      ensures st.Done? ==> eType == old(eType) && id == old(id) && nodes == old(nodes) && nNodes == old(nNodes)
      ensures st.Done? ==> Configured(p, locSpts0, locFpts0, old(nFields), old(posSpts), old(posFpts))
      ensures st.Done? ==> sol == SizedSolution(old(sol), nSpts, nFpts, nNodes, nFields, nRKSteps)
      ensures st.Done? ==> geo == SizedGeometry(old(geo), nSpts, nFpts, nDims)
      ensures st.Done? ==> motion == SizedMotion(old(motion), nodes, nSpts, nFpts, nDims, p.motion != 0, nRKSteps)
      ensures st.Done? ==> posPpts == old(posPpts)
    {
      var stages := StageCount(p.timeType);
      if stages.None? {
        return Fatal("Time-advancement time not recognized.");
      }
      var nS, nF, nD := |locSpts0|, |locFpts0|, p.nDims;
      var nV := FieldCount(p.equation, p.nDims, nFields);
      var divF := SetupEach(sol.divFSpts, stages.value, nS, nV);
      var s1 := Solution(sol.uSpts.Resized(nS, nV), sol.uFpts.Resized(nF, nV), sol.uMpts.Resized(nNodes, nV), sol.u0, divF);
      assert s1 == SizedSolution(sol, nS, nF, nNodes, nV, stages.value);
      var g1 := SizedGeometry(geo, nS, nF, nD);
      var m1 := SizedMotion(motion, nodes, nS, nF, nD, p.motion != 0, stages.value);
      Configure(p, locSpts0, locFpts0, stages.value);
      sol, geo, motion := s1, g1, m1;
      return Done;
    }

    /** What setup reads from the configuration: order, dimension, point
        locations and counts, the number of fields and of stages. */
    ghost predicate Configured(p: Params, locSpts0: seq<Point>, locFpts0: seq<Point>, oldFields: nat,
                               oldPosSpts: seq<Point>, oldPosFpts: seq<Point>)
      reads this`params, this`order, this`nDims, this`locSpts, this`locFpts, this`nSpts, this`nFpts,
            this`posSpts, this`posFpts, this`nFields, this`nRKSteps
    {
      params == p && order == p.order && nDims == p.nDims && locSpts == locSpts0 && locFpts == locFpts0 &&
      nSpts == |locSpts0| && nFpts == |locFpts0| &&
      posSpts == Resize(oldPosSpts, nSpts, Origin()) && posFpts == Resize(oldPosFpts, nFpts, Origin()) &&
      nFields == FieldCount(p.equation, p.nDims, oldFields) && Some(nRKSteps) == StageCount(p.timeType)
    }

    /** The configuration part of setup. */
    method Configure(p: Params, locSpts0: seq<Point>, locFpts0: seq<Point>, stages: nat)
      requires Some(stages) == StageCount(p.timeType)
      modifies this`params, this`order, this`nDims, this`locSpts, this`locFpts, this`nSpts, this`nFpts,
               this`posSpts, this`posFpts, this`nFields, this`nRKSteps
      ensures Configured(p, locSpts0, locFpts0, old(nFields), old(posSpts), old(posFpts))
      ensures nNodes == |nodes| ==> Counts()
    {
      params := p;
      order, nDims := p.order, p.nDims;
      locSpts, locFpts := locSpts0, locFpts0;
      nSpts, nFpts := |locSpts0|, |locFpts0|;
      posSpts, posFpts := Resize(posSpts, nSpts, Origin()), Resize(posFpts, nFpts, Origin());
      nFields := FieldCount(p.equation, p.nDims, nFields);
      nRKSteps := stages;
    }

    /** setTransformedNormals_fpts: flux point fpt takes the reference
        normal of face fpt div (order+1); sqrt2 stands for sqrt(2). An
        element type other than triangle and quad ends the run as soon as
        there is a flux point. */
    method SetTransformedNormals(sqrt2: real) returns (st: Status)
      requires Valid() && nDims >= 2
      modifies this`geo
      ensures Valid()
      ensures st.Fatal? <==> nFpts > 0 && eType != TRI && eType != QUAD
      ensures st.Fatal? ==> geo == old(geo)
      ensures st.Done? ==> geo == old(geo).(tNormFpts := Normals(old(geo.tNormFpts), eType, order, sqrt2))
    {
      if nFpts > 0 && eType != TRI && eType != QUAD {
        return Fatal("Element type not yet implemented.");
      }
      var t := FillNormals(geo.tNormFpts, eType, order, sqrt2);
      geo := geo.(tNormFpts := t);
      return Done;
    }

    /** calcTransforms in two dimensions, given the shape derivatives at
        the solution and flux points: the Jacobian at every point, its
        determinant, and at solution points its adjugate JGinv. A point
        whose derivative matrix has fewer rows than there are nodes, or
        whose determinant is negative, ends the run. The normals are not
        touched. */
    method CalcTransforms(dShapeSpts: seq<Mat>, dShapeFpts: seq<Mat>) returns (st: Status)
      requires Valid() && nDims == 2
      requires |dShapeSpts| == nSpts && |dShapeFpts| == nFpts && Readable(dShapeSpts) && Readable(dShapeFpts)
      modifies this`geo
      ensures Valid()
      ensures st.Fatal? <==>
        (exists s :: 0 <= s < nSpts && Bad(dShapeSpts[s], nodes)) || (exists f :: 0 <= f < nFpts && Bad(dShapeFpts[f], nodes))
      ensures st.Done? ==> SolutionTransformsOf(geo, dShapeSpts, nodes) && FluxTransformsOf(geo, dShapeFpts, nodes)
      ensures geo.tNormFpts == old(geo.tNormFpts)
    {
      st := CalcSolutionTransforms(dShapeSpts);
      if st.Done? {
        st := CalcFluxTransforms(dShapeFpts);
      }
    }

    /** The solution-point half of calcTransforms; nothing else in the
        geometry changes. */
    method CalcSolutionTransforms(dShapeSpts: seq<Mat>) returns (st: Status)
      requires Valid() && nDims == 2 && |dShapeSpts| == nSpts && Readable(dShapeSpts)
      modifies this`geo
      ensures Valid()
      ensures st.Fatal? <==> exists s :: 0 <= s < nSpts && Bad(dShapeSpts[s], nodes)
      ensures st.Fatal? ==> geo == old(geo)
      ensures st.Done? ==> SolutionTransformsOf(geo, dShapeSpts, nodes)
      ensures geo == old(geo).(jacSpts := geo.jacSpts, detJacSpts := geo.detJacSpts, jGinvSpts := geo.jGinvSpts)
    {
      var js, ds, gs;
      st, js, ds, gs := SolutionPointTransforms(geo.jacSpts, geo.detJacSpts, geo.jGinvSpts, dShapeSpts, nodes);
      if st.Done? {
        geo := geo.(jacSpts := js, detJacSpts := ds, jGinvSpts := gs);
      }
    }

    /** The flux-point half of calcTransforms; nothing else in the geometry
        changes. */
    method CalcFluxTransforms(dShapeFpts: seq<Mat>) returns (st: Status)
      requires Valid() && nDims == 2 && |dShapeFpts| == nFpts && Readable(dShapeFpts)
      modifies this`geo
      ensures Valid()
      ensures st.Fatal? <==> exists f :: 0 <= f < nFpts && Bad(dShapeFpts[f], nodes)
      ensures st.Fatal? ==> geo == old(geo)
      ensures st.Done? ==> FluxTransformsOf(geo, dShapeFpts, nodes)
      ensures geo == old(geo).(jacFpts := geo.jacFpts, detJacFpts := geo.detJacFpts)
    {
      var jf, df;
      st, jf, df := FluxPointTransforms(geo.jacFpts, geo.detJacFpts, dShapeFpts, nodes);
      if st.Done? {
        geo := geo.(jacFpts := jf, detJacFpts := df);
      }
    }

    /** timeStepA: the solution becomes U0 moved by one Runge-Kutta stage
        with the divergence of that stage. U0 is read row by row through
        the checked row access, so a U0 with fewer rows than there are
        solution points (as before the first copyUspts_U0) ends the run;
        with enough rows, its first nSpts rows are the base. When the
        solution equals U0, the result is what timeStepB computes. */
    method TimeStepA(step: nat, rkVal: real) returns (st: Status)
      requires Valid() && step < nRKSteps
      requires sol.u0.Valid() && (sol.u0.dim0 > 0 ==> sol.u0.dim1 == nFields)
      requires forall s :: 0 <= s < nSpts ==> geo.detJacSpts[s] != 0.0
      modifies this`sol
      ensures Valid()
      ensures st.Fatal? <==> nFields > 0 && old(sol.u0.dim0) < nSpts
      ensures st.Fatal? ==> sol == old(sol)
      ensures st.Done? ==> sol == old(sol).(uSpts := StageUpdate(old(sol.u0).Resized(nSpts, nFields),
                                                                 old(sol.divFSpts[step]), geo.detJacSpts, rkVal, params.dt))
      ensures old(sol.u0) == old(sol.uSpts) ==>
        st.Done? && sol.uSpts == StageUpdate(old(sol.uSpts), old(sol.divFSpts[step]), geo.detJacSpts, rkVal, params.dt)
    {
      if nFields > 0 && sol.u0.dim0 < nSpts {
        return Fatal("Attempted out-of-bounds access in matrix.");
      }
      var base := sol.u0.Resized(nSpts, nFields);
      if sol.u0 == sol.uSpts {
        ResizedSame(sol.uSpts);
      }
      var u := Fill(base, StageEntry(base, sol.divFSpts[step], geo.detJacSpts, rkVal, params.dt));
      sol := sol.(uSpts := u);
      return Done;
    }

    /** timeStepB: the solution itself is moved by one Runge-Kutta stage
        with the divergence of that stage. */
    method TimeStepB(step: nat, rkVal: real)
      requires Valid() && step < nRKSteps
      requires forall s :: 0 <= s < nSpts ==> geo.detJacSpts[s] != 0.0
      modifies this`sol
      ensures Valid()
      ensures sol == old(sol).(uSpts := StageUpdate(old(sol.uSpts), old(sol.divFSpts[step]), geo.detJacSpts, rkVal, params.dt))
    {
      var u := Fill(sol.uSpts, StageEntry(sol.uSpts, sol.divFSpts[step], geo.detJacSpts, rkVal, params.dt));
      sol := sol.(uSpts := u);
    }

    /** copyUspts_U0: U0 becomes a copy of the solution. */
    method CopyUsptsU0()
      modifies this`sol
      ensures sol == old(sol).(u0 := old(sol.uSpts))
      ensures sol.u0 == sol.uSpts
      ensures Valid() <==> old(Valid())
      ensures old(Valid()) ==> Shaped(sol.u0, nSpts, nFields)
    {
      sol := sol.(u0 := sol.uSpts);
    }

    /** copyU0_Uspts: the solution becomes a copy of U0. Right after
        copyUspts_U0 (U0 equal to the solution) it changes nothing, so the
        pair restores U_spts exactly and keeps U0. */
    method CopyU0Uspts()
      modifies this`sol
      ensures sol == old(sol).(uSpts := old(sol.u0))
      ensures old(sol.u0) == old(sol.uSpts) ==> sol == old(sol)
      ensures old(Valid()) && Shaped(old(sol.u0), nSpts, nFields) ==> Valid()
    {
      sol := sol.(uSpts := sol.u0);
    }

    /** getPrimitives at solution point spt: a vector of nFields entries,
        zero except for the scalar (advection-diffusion) or density,
        velocities and pressure (Navier-Stokes). Those two equations read
        row spt of U_spts through the checked row access, so a point past
        the last solution point ends the run; any other equation reads
        nothing and gives zeros for every spt. */
    method GetPrimitives(spt: nat) returns (r: Result<seq<real>>)
      requires Valid()
      requires params.equation == ADVECTION_DIFFUSION ==> nFields >= 1
      requires params.equation == NAVIER_STOKES ==> nFields >= 4
      requires params.equation == NAVIER_STOKES && spt < nSpts ==> sol.uSpts.At(spt, 0) != 0.0
      ensures r.Error? <==> (params.equation == ADVECTION_DIFFUSION || params.equation == NAVIER_STOKES) && spt >= nSpts
      ensures r.Ok? ==> |r.value| == nFields
      ensures r.Ok? && params.equation == ADVECTION_DIFFUSION ==>
        r.value[0] == sol.uSpts.At(spt, 0) && forall i :: 1 <= i < nFields ==> r.value[i] == 0.0
      ensures r.Ok? && params.equation == NAVIER_STOKES ==>
        r.value[0] == sol.uSpts.At(spt, 0) &&
        Scale(r.value[0], r.value[1]) == sol.uSpts.At(spt, 1) && Scale(r.value[0], r.value[2]) == sol.uSpts.At(spt, 2) &&
        forall i :: 4 <= i < nFields ==> r.value[i] == 0.0
      ensures r.Ok? && params.equation == NAVIER_STOKES && params.gamma != 1.0 ==>
        FromPrimitives(r.value, params.gamma) == sol.uSpts.Row(spt)[..4]
      ensures r.Ok? && params.equation != ADVECTION_DIFFUSION && params.equation != NAVIER_STOKES ==>
        forall i :: 0 <= i < nFields ==> r.value[i] == 0.0
    {
      if params.equation != ADVECTION_DIFFUSION && params.equation != NAVIER_STOKES {
        return Ok(seq(nFields, _ => 0.0));
      }
      if spt >= nSpts {
        return Error("Attempted out-of-bounds access in matrix.");
      }
      var u := sol.uSpts.Row(spt);
      var v := Primitives(u, params.equation, params.gamma, nFields);
      if params.equation == NAVIER_STOKES {
        MulDiv(u[0], u[1]);
        MulDiv(u[0], u[2]);
        if params.gamma != 1.0 {
          PrimitivesInvert(u, params.gamma, nFields);
        }
      }
      return Ok(v);
    }

    /** getResidual: for every field, the norm of stage 0's divergence over
        the solution points. */
    method GetResidual(normType: int) returns (res: seq<real>)
      requires Valid()
      ensures |res| == nFields
      ensures forall i :: 0 <= i < nFields ==> res[i] == Residual(sol.divFSpts[0], normType, i, nSpts)
    {
      res := ResidualOf(sol.divFSpts[0], normType, nSpts);
    }

    /** The corner positions setPpts uses: the first stage's nodes on a
        moving mesh, the nodes otherwise. */
    function Corners(): (c: seq<Point>)
      reads this`params, this`motion, this`nodes
      requires params.motion != 0 ==> |motion.nodesRK| >= 1
      ensures |c| == |if params.motion != 0 then motion.nodesRK[0] else nodes|
    {
      if params.motion != 0 then motion.nodesRK[0] else nodes
    }

    /** setPpts: the plot points of a quad, laid out on the
        (order + 3) x (order + 3) grid. */
    method SetPpts()
      requires Valid() && QuadCounts()
      modifies this`posPpts
      ensures Valid()
      ensures |Corners()| == 4
      ensures posPpts == Layout(order, Corners(), posFpts, posSpts)
    {
      var out0 := Resize(posPpts, Area(order + 3, order + 3), Origin());
      posPpts := Scatter(out0, order, Corners(), posFpts, posSpts);
    }

    /** The rows getPrimitivesPlot lays out: the solution at the nodes, flux
        points and solution points. */
    ghost function PlotRows(): (rows: seq<seq<real>>)
      reads this
      requires Valid() && QuadCounts()
      ensures |rows| == Area(order + 3, order + 3)
    {
      Layout(order, sol.uMpts.Rows(), sol.uFpts.Rows(), sol.uSpts.Rows())
    }

    /** getPrimitivesPlot: the solution on the plot grid, one row per grid
        cell; for Navier-Stokes every row is then turned into primitive
        variables in place. */
    method GetPrimitivesPlot(V0: Mat) returns (V: Mat)
      requires Valid() && QuadCounts()
      requires params.equation == NAVIER_STOKES ==>
        nFields >= 4 && AllConservative(sol.uMpts.Rows()) && AllConservative(sol.uFpts.Rows()) &&
        AllConservative(sol.uSpts.Rows())
      ensures Shaped(V, nSpts + nFpts + nNodes, nFields)
      ensures params.equation != NAVIER_STOKES ==> V.Rows() == PlotRows()
      ensures params.equation == NAVIER_STOKES ==>
        forall k :: 0 <= k < V.dim0 ==> Conservative(PlotRows()[k]) && V.Rows()[k] == ToPrimitive(PlotRows()[k], params.gamma)
    {
      GridCount(order);
      V := PlotMatrix(V0, order, sol.uMpts, sol.uFpts, sol.uSpts);
      if params.equation == NAVIER_STOKES {
        LayoutKeeps(order, sol.uMpts.Rows(), sol.uFpts.Rows(), sol.uSpts.Rows(), Conservative);
        V := PrimitiveRows(V, params.gamma);
      }
    }

    /** getGridVelPlot: the grid velocity on the plot grid, one row per grid
        cell. */
    method GetGridVelPlot(GV0: Mat) returns (GV: Mat)
      requires Valid() && QuadCounts()
      ensures Shaped(GV, nSpts + nFpts + nNodes, nDims)
      ensures GV.Rows() == Layout(order, motion.gridVelNodes.Rows(), motion.gridVelFpts.Rows(), motion.gridVelSpts.Rows())
    {
      GridCount(order);
      GV := PlotMatrix(GV0, order, motion.gridVelNodes, motion.gridVelFpts, motion.gridVelSpts);
    }
  }
}
