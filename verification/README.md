# FlurryPP core: matrices, vector helpers, FR operators and element bookkeeping

FlurryPP is a 2-D Flux Reconstruction (FR) solver. This Dafny project
models the structural core underneath its numerics:

- **`matrix<T>`** (`matrix.dfy`, module `Matrices`) is a bounds-checked,
  row-major container with fields `dim0`, `dim1` and a flat `data` vector.
  It is modelled twice over:
  - as a value `Mat` whose spec functions (`Resized`, `Set`, `Tabulate`,
    `Product`, `PlusProduct`, `Dedup`, ...) say what every operation
    computes;
  - as a `class Matrix` whose methods update `dim0`/`dim1`/`data` in place
    with loops and are proved against those functions.

  Fatal errors (`FatalError`, which aborts the program) become a `Status`
  or `Result` error.
- **`point` and the vector helpers of `global.hpp`** (`global.dfy`, module
  `Global`). These are `findEq`, both `findFirst`, `vecAssign`, `getMax`,
  `addVectors`, `operator+=` and `operator+`. Helpers that mutate a vector
  work on an `array`; the others are methods with loop invariants.
- **The FR operators** (`operators.dfy`, module `Operators`, `class Oper`):
  - which matrix each `setup*` routine builds, its shape, and the index
    arithmetic behind each entry (tensor-product split, face/local split,
    sign and reversal per face);
  - how each `apply*` wrapper composes matrix products.

  The basis polynomials (`Lagrange`, `dLagrange`, the Dubiner basis and its
  derivatives, `dVCJH_1d`, `compute_eta`) are uninterpreted arrow-typed
  fields of a `Basis` value.
- **The plot-point layout** (`plot_layout.dfy`, module `PlotLayout`). This
  is the `(order+3)²` grid shared by `setPpts`, `getPrimitivesPlot` and
  `getGridVelPlot`. It includes the bijection between grid cells and their
  sources (node, flux point or solution point).
- **The element** (`element.dfy`, module `Element`, `class Ele`):
  - configuration-driven sizing in `setup`;
  - the quad reference-normal table;
  - the 2-D Jacobian, determinant and adjugate of `calcTransforms`;
  - the Runge-Kutta stage updates and the `U_spts`/`U0` snapshot;
  - primitive variables and the plot matrices;
  - the residual norms.

  The element's ~30 storage fields are grouped into three value records:
  `Solution`, `Geometry` and `Motion`.

All arithmetic is over Dafny's `real` and `int`; nothing is claimed about
IEEE rounding.

## Model

| member | source | states |
|---|---|---|
| Common.Resize | src/matrix.cpp:50-56 | the resized vector has the new length, keeps the old entries below it and fills the rest with the fill value |
| Common.Abs | src/ele.cpp:847 | the result is nonnegative and is x or -x |
| Common.Max | src/ele.cpp:854 | the result bounds both arguments and is one of them |
| Global.Point.Get | include/global.hpp:113-123 | index 0, 1, 2 yields x, y, z; any other index is the fatal error |
| Global.Point.With | include/global.hpp:113-123 | writing through an index in 0..2 sets exactly that coordinate and keeps the other two; any other index is fatal |
| Global.Point.Zeroed | include/global.hpp:107-111 | all three coordinates become 0 |
| Global.FindEq | include/global.hpp:137-148 | the output holds, in strictly increasing order, exactly the indices whose entry equals the value |
| Global.FindFirstIn | include/global.hpp:164-175 | over the first `length` entries: -1 when the value is absent (or the range is empty), otherwise the smallest index holding it |
| Global.FindFirst | include/global.hpp:150-162 | -1 for an empty vector or an absent value, otherwise the smallest index holding it |
| Global.VecAssign | include/global.hpp:177-182 | every listed position holds the value; every other position is unchanged |
| Global.GetMax | include/global.hpp:184-194 | the result is nonnegative, bounds every element, and is either 0 or one of the elements (hence the largest when some element is positive) |
| Global.AddVectors | include/global.hpp:196-202 | fatal exactly on a length mismatch, leaving the vector unchanged; otherwise adds the second vector elementwise into the first |
| Global.AddAssign | include/global.hpp:204-212 | `+=`: fatal exactly on a length mismatch; otherwise elementwise sum in place, same length |
| Global.Plus | include/global.hpp:214-223 | `+`: fatal exactly on a length mismatch; otherwise a new vector of the same length with `out[i] = lhs[i] + rhs[i]` |
| Matrices.Mat.Set | src/matrix.cpp:80-89 | writing entry (i, j) changes that entry only and keeps the shape |
| Matrices.Mat.Row | src/matrix.cpp:69-78 | row i has dim1 entries, and entry j is element (i, j) = `data[i*dim1 + j]` |
| Matrices.Mat.Rows | src/matrix.cpp:231-237 | the matrix seen as dim0 rows of width dim1, agreeing with element access |
| Matrices.Mat.Resized | src/matrix.cpp:50-56 | setup yields dim0 = r, dim1 = c and a data vector of length r*c that keeps the old prefix (resize, not clear) |
| Matrices.ResizedSame | src/matrix.cpp:50-56 | re-running setup with the current shape changes nothing |
| Matrices.Ext | src/matrix.cpp:80-89 | two valid matrices of one shape with equal elements are equal |
| Matrices.Tabulate | src/matrix.cpp:80-89 | the matrix whose element (i, j) is f(i, j), for every in-range pair |
| Matrices.Filled | src/matrix.cpp:99-105 | every element equals the given value |
| Matrices.TabulateExt | src/matrix.cpp:80-89 | tabulating two functions that agree on the index range gives the same matrix |
| Matrices.Fill | src/operators.cpp:54-72 | the nested fill loop over a sized matrix produces exactly the tabulated matrix |
| Matrices.Product | src/matrix.cpp:107-125 | the product has shape dim0 x A.dim1 and entry (i, k) is the dot product of row i with column k |
| Matrices.PlusProduct | src/matrix.cpp:128-144 | each entry is the old entry plus the dot product (accumulation without zeroing) |
| Matrices.PlusProductOfZero | src/matrix.cpp:107-125 | accumulating onto a zero matrix is the plain product |
| Matrices.SameRows | src/matrix.cpp:231-237 | two matrices of one shape with the same rows are equal |
| Matrices.FlattenRows | src/matrix.cpp:296-300 | the flat data vector is the concatenation of the rows |
| Matrices.RowsOfFlatten | src/matrix.cpp:186-201 | concatenating rows of a common width gives a valid matrix with exactly those rows |
| Matrices.SliceRows | src/matrix.cpp:186-201 | the data before and after row p are the concatenations of the rows before and after p |
| Matrices.InsertPos | src/matrix.cpp:191-197 | the insertion position: rowNum -1 means append at the end |
| Matrices.InsertRowSplice | src/matrix.cpp:186-201 | splicing a row's entries into the data at row p gives the rows with the new row at index p |
| Matrices.Dedup | src/matrix.cpp:266-294 | the distinct rows never outnumber the rows |
| Matrices.DedupSpec | src/matrix.cpp:266-294 | the distinct rows contain exactly the rows that occur, with no repetition |
| Matrices.DedupPrefix | src/matrix.cpp:266-294 | first-occurrence order: the distinct rows of a prefix are a prefix of the distinct rows of the whole |
| Matrices.DedupDistinct | src/matrix.cpp:266-294 | rows that are already pairwise distinct are kept as they are |
| Matrices.DedupIdempotent | src/matrix.cpp:266-294 | removing duplicates twice is the same as once |
| Matrices.DedupSnoc | src/matrix.cpp:266-294 | a new last row is appended if it is new and dropped if it occurred before |
| Matrices.DedupExample | src/matrix.cpp:266-294 | rows a, b, a, c (distinct a, b, c) give a, b, c |
| Matrices.RowDotIsProduct | src/matrix.cpp:146-160 | a row-times-vector sum is the matrix product with the vector as a column |
| Matrices.AccStateEnd | src/matrix.cpp:128-144 | the triple loop of timesMatrixPlus, run to the end, yields the old matrix plus the product |
| Matrices.RowFromPointer | src/matrix.cpp:203-218 | the `dim1` entries starting at a row's offset are exactly that row |
| Matrices.LabelNew | src/matrix.cpp:288-292 | a row not seen before is appended to the output and labelled with its new index |
| Matrices.LabelRepeated | src/matrix.cpp:280-286 | a repeated row adds nothing and takes the label of its earlier copy |
| Matrices.Matrix.constructor | src/matrix.cpp:17-23 | a default matrix is empty: 0 x 0 with no data |
| Matrices.Matrix.Sized | src/matrix.cpp:25-31 | a sized matrix is inDim0 x inDim1 and all zero |
| Matrices.Matrix.Copy | src/matrix.cpp:33-39 | the copy has the same value as the original |
| Matrices.Matrix.Assign | src/matrix.cpp:41-48 | assignment gives this the other matrix's value |
| Matrices.Matrix.Setup | src/matrix.cpp:50-56 | the new value is the old one resized to inDim0 x inDim1 (contents kept, not cleared) |
| Matrices.Matrix.RowStart | src/matrix.cpp:69-78 | row access succeeds exactly for 0 <= row < dim0, and the dim1 entries from the returned offset are that row |
| Matrices.Matrix.Get | src/matrix.cpp:80-89 | element access succeeds exactly for in-range (i, j) and yields element (i, j) |
| Matrices.Matrix.Set | src/matrix.cpp:80-89 | an element write is fatal exactly out of range (nothing changes then), otherwise writes that one element |
| Matrices.Matrix.Put | src/matrix.cpp:80-89 | an in-range element write changes that element only |
| Matrices.Matrix.InitializeToValue | src/matrix.cpp:99-105 | every entry becomes the value and the shape is unchanged |
| Matrices.Matrix.InitializeToZero | src/matrix.cpp:91-97 | every entry becomes 0 and the shape is unchanged |
| Matrices.Matrix.AddMatrix | src/matrix.cpp:58-67 | fatal exactly on a shape mismatch, with nothing changed; otherwise each entry gains a times A's old entry, which covers adding a matrix to itself |
| Matrices.Matrix.TimesMatrix | src/matrix.cpp:107-125 | fatal exactly when A.dim0 != dim1, leaving B alone; otherwise B becomes this times A |
| Matrices.Matrix.TimesMatrixPlus | src/matrix.cpp:128-144 | fatal exactly when A.dim0 != dim1; otherwise B becomes old B (resized) plus this times A |
| Matrices.Matrix.Accumulate | src/matrix.cpp:137-143 | the accumulation loop adds this times A onto a correctly sized B |
| Matrices.Matrix.TimesVector | src/matrix.cpp:146-160 | the result has dim1 entries; the first dim0 are the row-times-vector sums and the rest keep B's entries (or 0) |
| Matrices.Matrix.InsertRow | src/matrix.cpp:186-201 | fatal exactly on a width mismatch with a nonzero width; otherwise one more row, the given row at its position, all other rows kept in order |
| Matrices.Matrix.InsertRowFrom | src/matrix.cpp:203-218 | the pointer overload: the same, with the row read from the first `length` entries |
| Matrices.Matrix.AddCol | src/matrix.cpp:220-229 | one more column, each row's last entry duplicated at its end, rows unchanged otherwise |
| Matrices.Matrix.GetRow | src/matrix.cpp:231-237 | the row's dim1 entries, agreeing with element access |
| Matrices.Matrix.GetRows | src/matrix.cpp:239-245 | a fresh matrix holding the selected rows in the order given |
| Matrices.Matrix.GetCol | src/matrix.cpp:247-253 | the column's dim0 entries, one per row |
| Matrices.Matrix.Unique | src/matrix.cpp:266-294 | out holds the distinct rows in first-occurrence order; iRow has one label per row, and out[iRow[i]] is row i |
| Matrices.Matrix.FirstEqualRow | src/matrix.cpp:278-286 | the first earlier row equal to row i, or -1 when row i is new |
| Matrices.Matrix.GetData | src/matrix.cpp:296-300 | the flat data is the rows concatenated |
| Matrices.TimesPlus | src/matrix.cpp:128-144 | error exactly when A.dim0 != dim1; otherwise shape dim0 x A.dim1 and, for a correctly sized B, B plus the product |
| Matrices.Times | src/matrix.cpp:107-125 | error exactly when A.dim0 != dim1; otherwise the product, i.e. timesMatrixPlus onto zero |
| Operators.TensorIndex | src/operators.cpp:63-65 | for a quad solution point s, the x index is s mod (order+1), the y index s div (order+1), and the two recombine to s |
| Operators.TensorPointIndex | src/operators.cpp:63-65 | the split is a bijection: each index pair recombines into a solution point with that pair |
| Operators.FaceSplit | src/operators.cpp:334-335 | flux point (order+1)*face + j lies on that face at local index j |
| Operators.DivVCJHQuad | src/operators.cpp:323-348 | face >= 4 gives 0; otherwise the face's sign times the Lagrange value (index reversed on faces 2 and 3) times the VCJH derivative |
| Operators.DivVCJHQuadPlanar | src/operators.cpp:323-348 | only the first two reference coordinates matter |
| Operators.ExtrapolateSptsFpts | src/operators.cpp:46-73 | fatal exactly for other element types; otherwise an nFpts x nSpts matrix |
| Operators.SptsFptsTri | src/operators.cpp:57-59 | triangle entry (f, s) is the Dubiner basis s at flux point f |
| Operators.SptsFptsQuad | src/operators.cpp:60-66 | quad entry (f, s) is L(x_f, s mod (order+1)) * L(y_f, s div (order+1)) |
| Operators.ExtrapolateSptsMpts | src/operators.cpp:75-112 | fatal exactly for other element types; otherwise 3 (triangle) or 4 (quad) rows by nSpts |
| Operators.SptsMptsTri | src/operators.cpp:80-92 | triangle rows are the basis at (-1,-1), (1,-1), (-1,1) |
| Operators.SptsMptsQuad | src/operators.cpp:93-108 | quad rows are the tensor basis at the corners (-1,-1), (1,-1), (1,1), (-1,1), in that order |
| Operators.GradSpts | src/operators.cpp:152-190 | fatal exactly for other element types; otherwise nDims matrices of nSpts x nSpts |
| Operators.GradTri | src/operators.cpp:161-168 | triangle entries are the r- and s-derivatives of the Dubiner basis |
| Operators.GradQuad | src/operators.cpp:169-186 | quad dim 0 entry is dL(x pair) * L(y pair), and dim 1 swaps the roles |
| Operators.GradSwap | src/operators.cpp:169-186 | the dim-1 matrix is the dim-0 matrix with x and y indices swapped |
| Operators.Correction | src/operators.cpp:193-218 | an nSpts x nFpts matrix, all zero for non-quad elements |
| Operators.CorrectionAt | src/operators.cpp:206-216 | quad entry (s, f) is divVCJH_quad(f, loc_s) |
| Operators.DivFSumError | src/operators.cpp:263-268 | the divergence sum fails exactly when some direction's product has mismatched sizes |
| Operators.DivFSumEntries | src/operators.cpp:263-268 | each entry is the start entry plus the sum over directions of (G_dim F_dim) entries |
| Operators.DivFSumZeroShape | src/operators.cpp:263-268 | zeroing first makes the result independent of divF's old shape and contents |
| Operators.NormalFluxArea | src/operators.cpp:296-309 | the 4-argument overload is the 3-argument one times dA[f] |
| Operators.NormalStepSum | src/operators.cpp:288-293 | one pass over a direction adds that direction's term to every normal-flux entry |
| Operators.NormalPass | src/operators.cpp:288-293 | one direction's pass: fails exactly on a size mismatch, otherwise extends the partial normal flux by one direction |
| Operators.Oper.constructor | src/operators.cpp:14 | the implicit default construction of `oper` (the class is declared in include/operators.hpp, which is not part of this model; the source defines no constructor): every operator matrix starts empty |
| Operators.Oper.SetupOperators | src/operators.cpp:20-44 | records the configuration; fatal exactly for unknown element types (or nDims > 3 for quads); otherwise builds the four operators |
| Operators.Oper.SetupExtrapolateSptsFpts | src/operators.cpp:46-73 | sets only the spts-to-fpts operator to its specification |
| Operators.Oper.SetupExtrapolateSptsMpts | src/operators.cpp:75-112 | sets only the spts-to-mpts operator to its specification |
| Operators.Oper.SetupGradSpts | src/operators.cpp:152-190 | sets only the gradient operators to their specification |
| Operators.Oper.SetupCorrection | src/operators.cpp:193-218 | sets only the correction operator to its specification |
| Operators.Oper.ApplyGradSpts | src/operators.cpp:248-252 | dU[dim] becomes G_dim U for each dimension, with higher entries untouched; fails exactly on a size mismatch |
| Operators.Oper.ApplyGradFSpts | src/operators.cpp:254-260 | dF[dim2][dim1] becomes G_dim2 F[dim1]; fails exactly on a size mismatch |
| Operators.Oper.ApplyDivFSpts | src/operators.cpp:263-268 | divF is zeroed and then receives the sum of G_dim F_dim |
| Operators.Oper.ApplySptsFpts | src/operators.cpp:271-274 | the extrapolation to flux points is the product, failing exactly on a size mismatch |
| Operators.Oper.ApplySptsMpts | src/operators.cpp:276-279 | the extrapolation to mesh points is the product, failing exactly on a size mismatch |
| Operators.Oper.ApplyCorrectDivF | src/operators.cpp:311-314 | divF (resized) gains C dFn without being cleared; fails exactly on a size mismatch |
| Operators.Oper.ApplyExtrapolateFn | src/operators.cpp:281-309 | Fn[f][k] is the sum over directions of (E F_dim)[f][k] tnorm[f][dim], times dA[f] in the 4-argument overload |
| PlotLayout.PlotCellOfSource | src/ele.cpp:805-838 | every grid cell is written from a source that maps back to that cell |
| PlotLayout.PlotSourceOfCell | src/ele.cpp:805-838 | every node, flux point and solution point is written to exactly one cell |
| PlotLayout.GridCount | src/ele.cpp:805-838 | (order+3)² = nSpts + nFpts + 4 |
| PlotLayout.Layout | src/ele.cpp:805-838 | the plot vector has (order+3)² entries |
| PlotLayout.LayoutAt | src/ele.cpp:805-838 | each cell holds the value of its source |
| PlotLayout.LayoutShows | src/ele.cpp:805-838 | each node, flux point and solution point appears at its cell |
| PlotLayout.Scatter | src/ele.cpp:809-837 | the corner, edge and interior loops produce exactly the layout |
| Element.ResizedEach | src/ele.cpp:135-136 | n matrices, each resized to rows x cols |
| Element.SetupEach | src/ele.cpp:135-136 | the resizing loop over the stage matrices yields that sequence |
| Element.StageCountSpec | src/ele.cpp:125-134 | timeType 0 and 4 are the only accepted values, each giving at least one stage |
| Element.QuadNormalConvention | src/ele.cpp:342-362 | each quad face's normal is a unit vector along its axis, pointing with the face's sign |
| Element.QuadOppositeNormals | src/ele.cpp:342-362 | opposite faces have opposite normals |
| Element.Normals | src/ele.cpp:319-367 | the normal table keeps the shape of tNorm_fpts |
| Element.QuadNormalsByFace | src/ele.cpp:342-362 | quad flux point f gets the reference normal of face f div (order+1) |
| Element.FillNormals | src/ele.cpp:322-366 | the loop over flux points produces the normal table |
| Element.Jacobian | src/ele.cpp:373-380 | the Jacobian is 2 x 2 |
| Element.Adjugate | src/ele.cpp:386-387 | JGinv is the adjugate: swapped diagonal, negated off-diagonal |
| Element.AdjugateProduct | src/ele.cpp:384-387 | adjugate times Jacobian (either order) is det times the identity |
| Element.NormalOrthogonal | src/ele.cpp:411-412 | the unnormalised physical normal, dotted with a mapped vector, is det times the reference dot product |
| Element.AccumulateJacobian | src/ele.cpp:373-380 | the loop over nodes computes J[d1][d2] = sum_i dShape[i][d2] node_i[d1] |
| Element.Jacobians | src/ele.cpp:372-390 | one Jacobian per point |
| Element.Dets | src/ele.cpp:384 | one determinant per point |
| Element.Adjugates | src/ele.cpp:386-387 | one adjugate per point |
| Element.PointTransform | src/ele.cpp:372-389 | one point fails exactly when it is bad (an unreadable row or det < 0); otherwise the Jacobian |
| Element.TransformedAll | src/ele.cpp:372-407 | after the loop, no point was bad and the stored Jacobians and determinants are the specified ones |
| Element.FluxDShapeAsWrittenAborts | src/ele.cpp:303 | with dShape_fpts sized nDims x nDims, every flux point of a four-node quad is bad |
| Element.DShapeShapeReadable | src/ele.cpp:284 | with one row per node, every row is readable and a point is bad exactly when det < 0 |
| Element.StageUpdate | src/ele.cpp:679-695 | the stage update keeps the solution's shape |
| Element.StagesCompose | src/ele.cpp:679-695 | two updates with coefficients a and b equal one update with a + b |
| Element.StageFixedPoints | src/ele.cpp:679-686 | an entry is unchanged exactly when rkVal, dt or divF there is zero |
| Element.ResidualNonNegative | src/ele.cpp:840-860 | every residual is nonnegative, and unknown norm types give 0 |
| Element.ResidualBounds | src/ele.cpp:840-860 | types 1 and 3 bound every absolute entry, and type 2 bounds every square |
| Element.ResidualMaxAttained | src/ele.cpp:852-855 | the maximum norm equals the absolute value of some entry |
| Element.ResidualRow | src/ele.cpp:845-856 | one solution point's pass folds its entries into every field's norm |
| Element.ResidualOf | src/ele.cpp:840-860 | the accumulation loop gives the residual over all solution points |
| Element.Primitives | src/ele.cpp:708-723 | the primitive vector has nFields entries |
| Element.FromPrimitives | src/ele.cpp:715-720 | the inverse map from primitives to four conservative variables |
| Element.PrimitivesRoundTrip | src/ele.cpp:715-720 | converting to primitives and back gives the conservative state |
| Element.PrimitivesInvert | src/ele.cpp:715-720 | the same round trip on the first four fields of a longer state |
| Element.ToPrimitive | src/ele.cpp:757-763 | the plot conversion keeps the row length |
| Element.ToPrimitiveAgrees | src/ele.cpp:757-763 | the plot conversion agrees with getPrimitives on the first four fields and leaves the rest |
| Element.ConvertRows | src/ele.cpp:757-763 | the loop converts every row |
| Element.LayoutKeeps | src/ele.cpp:805-838 | a property of every source value holds for every plotted value |
| Element.PlotFluxPointsFollowFaces | src/ele.cpp:825-830 | flux points of faces 0-3 go along the bottom, right, top and left edges, top and left reversed |
| Element.PlotMatrix | src/ele.cpp:725-756 | the plot matrix's rows are the layout of the node, flux-point and solution-point rows |
| Element.PrimitiveRows | src/ele.cpp:757-763 | every plot row is converted to primitives |
| Element.PlotPrimitivesAgree | src/ele.cpp:725-765 | the plotted primitives at a solution point's cell agree with getPrimitives at that point |
| Element.SizedSolution | src/ele.cpp:119-136 | U and divF sized nSpts/nFpts/nNodes x nFields, one divF per stage; U0 untouched |
| Element.SizedGeometry | src/ele.cpp:160-170 | Jacobians, adjugates, determinants and normals sized per point |
| Element.SizedMotion | src/ele.cpp:173-185 | grid velocities zero; with motion every nodesRK stage holds the nodes, otherwise nodesRK is kept |
| Element.Ele.constructor | src/ele.cpp:31-42 | records type, order, id and nodes; no points yet |
| Element.Ele.Setup | src/ele.cpp:94-201 | fatal exactly for an unknown timeType, changing nothing; otherwise counts, nFields, nRKSteps and all storage sized as specified |
| Element.Ele.Configure | src/ele.cpp:97-134 | records the parameters, point counts and field and stage counts |
| Element.Ele.SetTransformedNormals | src/ele.cpp:319-367 | fatal exactly for an unknown element type with flux points; otherwise only tNorm_fpts changes, to the normal table |
| Element.Ele.CalcTransforms | src/ele.cpp:369-421 | fatal exactly when some point is bad (only det < 0, not det = 0); otherwise Jacobians, determinants and adjugates as specified |
| Element.Ele.CalcSolutionTransforms | src/ele.cpp:372-390 | the solution-point half: only the solution-point transforms change |
| Element.Ele.CalcFluxTransforms | src/ele.cpp:393-407 | the flux-point half: only the flux-point transforms change |
| Element.Ele.TimeStepA | src/ele.cpp:679-686 | fatal, with nothing changed, exactly when nFields > 0 and U0 has fewer rows than there are solution points (the checked row access of src/matrix.cpp:70-78); otherwise U_spts becomes U0 - rkVal dt divF[step] / detJac over U0's first nSpts rows, and nothing else changes; when U_spts equals U0 it gives what timeStepB gives |
| Element.Ele.TimeStepB | src/ele.cpp:688-695 | U_spts becomes U_spts - rkVal dt divF[step] / detJac, and nothing else changes |
| Element.Ele.CopyUsptsU0 | src/ele.cpp:698-701 | U0 becomes U_spts, and nothing else changes; afterwards the two are equal |
| Element.Ele.CopyU0Uspts | src/ele.cpp:703-706 | U_spts becomes U0, and nothing else changes; right after copyUspts_U0 it changes nothing, so the pair restores U_spts |
| Element.Ele.GetPrimitives | src/ele.cpp:708-723 | fails exactly when the equation is AD or NS and spt is past the last solution point (the checked row access of src/matrix.cpp:70-78); otherwise AD: the scalar; NS: density, velocities (density times velocity is momentum) and a pressure that inverts to the energy; other equations zeros |
| Element.Ele.GetResidual | src/ele.cpp:840-860 | entry i is the chosen norm of field i of divF[0] over the solution points |
| Element.Ele.Corners | src/ele.cpp:811-822 | the corner source is nodesRK[0] with motion and the nodes otherwise |
| Element.Ele.SetPpts | src/ele.cpp:805-838 | pos_ppts becomes the layout of the corners, flux points and solution points |
| Element.Ele.PlotRows | src/ele.cpp:725-756 | the plot rows fill the (order+3)² grid |
| Element.Ele.GetPrimitivesPlot | src/ele.cpp:725-765 | V is laid out from mesh-point, flux-point and solution-point U; for NS each row is converted, with pressure taken from the original momenta |
| Element.Ele.GetGridVelPlot | src/ele.cpp:767-798 | GV is the layout of the grid velocity at nodes, flux points and solution points |

## Left out

- Floating point: all values are `real`. Nothing is claimed about IEEE rounding, NaN or infinities. `sqrt` enters `Element.Ele.SetTransformedNormals` as a parameter.
- `operator*` and `operator/` on vectors (include/global.hpp:225-246) are not modelled: they are plain elementwise scalings, outside the listed helpers.
- `factorial`, `checkNaN` and `setGlobalVariables` have no bodies in include/global.hpp:127-133, so they are not modelled.
- The `omp.h` include: no parallel code is present.
- The `matrix<double*>` specialisations (src/matrix.cpp:162-184) only abort and are not modelled. `matrix::print` is console output.
- `oper::setupInterpolate` (src/operators.cpp:114-150) is not modelled. It sizes its matrix nPtsFrom x nPtsTo but indexes rows by the to-point.
- `oper::get_oper_div_spts` and the element's getters and setters (src/ele.cpp:800-803, 862-907) are plain field reads.
- The basis polynomials, shape functions and their derivatives are uninterpreted. So are the reference points (`getLocSpts`, `getLocFpts`, `getPts1D`). They enter as parameters; their source files are not part of this model.
- `ele::initialize` (src/ele.cpp:44-92) is not called from `setup` and is not modelled.
- Also not modelled (transcendental or flux numerics):
  - `move`, `perturb` and `calcGridVelocity` (src/ele.cpp:203-249);
  - `setInitialCondition`;
  - the flux routines and `transformGradF_spts`;
  - `updateTransforms` and the `calcPos*` routines.
- `setShape_*` and `setDShape_*` are not modelled beyond the sizes they give the derivative matrices (see Findings). The derivative matrices are parameters of `Element.Ele.CalcTransforms`.
- `norm_fpts` and `dA_fpts` (src/ele.cpp:411-419) are left out because they need `sqrt`. `Element.NormalOrthogonal` states what the unnormalised normal satisfies.
- These storage fields are sized by `setup` but never read by the modelled routines, so they are not modelled: `dU`, `F`, `dF`, `tdF`, `Fn`, `dFn`, `tempF`, `tempU`, `norm_fpts`, `dA_fpts`.
- The last lines of `setup` (src/ele.cpp:191-200) call shape, transform and plot-point routines. These are modelled as separate methods: `SetTransformedNormals`, `CalcTransforms` and `SetPpts`.
- Triangle geometry is left out of `Ele`. Its shape functions are empty in the source, and its face-1 normal is not a unit vector. `CalcTransforms` requires nDims == 2.
- The plot layouts (`SetPpts`, `GetPrimitivesPlot`, `GetGridVelPlot`) require the quad point counts (`QuadCounts`), which are the counts the source's loops assume.
- nNodes is taken to be the number of nodes, because the shown code never sets it.
- Element storage is grouped into three value records (`Solution`, `Geometry`, `Motion`) rather than separate fields. Each method states the record's whole new value.
- Element.Ele.TimeStepA: requires detJac != 0 at every solution point, because division by zero is not modelled. It also requires U0 to be a well-formed matrix whose rows, if any, have nFields entries: the source reads each row through a raw pointer without a column check.
- Element.Ele.TimeStepB: requires detJac != 0 at every solution point, for the same reason.
- Element.Ele.GetPrimitives: requires a nonzero density at an existing solution point for Navier-Stokes, and at least 1 (AD) or 4 (NS) fields, because the source writes into its result vector without a check. The energy/pressure field is stated through its inverse only when gamma != 1.
- Element.Ele.GetPrimitivesPlot: requires nonzero density in every plotted row for Navier-Stokes.
- Matrices.Matrix.TimesVector: requires dim0 <= dim1. The source resizes the output to dim1 but writes dim0 entries.
- Matrices.Matrix.AddCol: specified only as "duplicate each row's last column". The source inserts from a range of its own vector.
- Matrices.Matrix.InsertRow: requires rowNum in -1..dim0. Other positions are out of range for the vector insert. It also requires an empty row when the matrix has rows of width 0, because the source would otherwise leave `data` inconsistent with `dim0 * dim1`. The same holds for `Matrices.Matrix.InsertRowFrom`.
- Matrices.Matrix.GetCol: requires an in-range column, because the source reads without a check.
- Matrices.Matrix.TimesMatrix: requires the output B to be neither this matrix nor A (the same holds for `TimesMatrixPlus` and `Accumulate`), and `Matrices.Matrix.Unique` requires `out` not to be this matrix. The source allows such calls, but it would then overwrite the operands it is still reading, and the model does not describe that result. Every call in src/operators.cpp:251-313 passes distinct matrices.

`setup` resizes its matrices and keeps their old contents. `calcTransforms` rejects only a negative determinant; a zero determinant passes.

## Findings

| source | as written | input that shows it | evidently intended | confidence | as-written member | corrected member |
|---|---|---|---|---|---|---|
| src/ele.cpp:303 | `dShape_fpts` matrices are sized nDims x nDims; the Jacobian loop at flux points (src/ele.cpp:396-400) reads rows 0..nNodes-1 | a quad with nNodes = 4 and nDims = 2, assuming `dshape_quad` (whose body is not part of this model, and which receives the matrix by reference) keeps the nDims x nDims shape it is given: rows 2 and 3 are then out of range, so every flux point aborts with a fatal row access | nNodes x nDims, as for the solution points (src/ele.cpp:284) | not executed | Element.FluxDShapeAsWrittenAborts | Element.DShapeShapeReadable |
