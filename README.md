# L-QLES core in Dafny

L-QLES builds test problems for quantum linear equation solvers. It writes the
finite-volume Laplacian on a 1D, 2D or 3D structured mesh as a dense system
`a x = b` and divides both sides by the largest entry of `a`. Each end of each
axis carries one of four boundary types: Dirichlet (D), Neumann (N), symmetry
(S, a zero-gradient Neumann end) or repeating (R, periodic). When the problem
has no Dirichlet end it is singular, and an optional "degeneracy fix" replaces
one row by its diagonal. This model covers four parts of the system:

- Validation of the boundary tokens (`check_bcs`).
- Assembly of the system in 1D (`matvec_1d`) and in 2D/3D (`matvec_2d`,
  `matvec_3d`).
- The clustered mesh generator (`generate_mesh`).
- The closest-neighbour reordering (`reorder`), which numbers the nodes
  shell by shell from the origin and returns `q`, `p a q` and `p b`.

Module layout:

| module | file | models |
|---|---|---|
| `Bcs` | bcs.dfy | boundary types, `check_bcs` |
| `Grid` | grid.dfy | `mij`, `mijk`, cells, the clamped index of `reorder`, Python's negative indices |
| `Spacing` | spacing.dfy | the padded spacing arrays `dx` and the wrapped arrays of repeating axes |
| `Linear` | linear.dfy | matrices as `seq<seq<real>>`, sums, dot products, `np.matmul`, permutation matrices |
| `Normalise` | normalise.dfy | `np.amax` and the division by `amax` |
| `Mesh` | mesh.dfy | `generate_mesh`: clustering equations, the three coordinate loops, the flip |
| `Reorder` | reorder.dfy | `reorder`: the numbering sweep, the inverse map, `p`, `q`, `p a q`, `p b` |
| `MatVec1D` | matvec1d.dfy | `matvec_1d` |
| `Assembly` | assembly.dfy | the assembled 2D/3D operator as specification functions |
| `Fill` | fill.dfy | the 2D/3D assembly loops on arrays, proved to produce `Assembly.Operator` |
| `Stencil` | stencil.dfy | interior rows, the degeneracy fix, diagonal positivity |
| `Rows` | rows.dfy | precedence of the face passes and the boundary rows they write |
| `MatVecGrid` | matvecgrid.dfy | `matvec_2d` and `matvec_3d` end to end |

The 2D and 3D routines are one engine. A 2D grid has one node along z and
runs only the x and y passes. The face passes are numbered as stages in
source order: the Dirichlet passes on x, y, z, then the Neumann/symmetry
passes on x, y, z. Low and high ends alternate within each axis. A pass
writes a row only while its diagonal is still 0, which is the sentinel
`a[m][m] == 0`. So the row of a cell is written by the first stage that
claims it (`Rows.Claimant`), or by the interior stencil when no stage does.

The 1D, 2D and 3D assembly loops are methods over `array2<real>` and
`array<real>`. Each is proved to produce the closed-form operator
(`Operator`, `RhsVector`). The lemmas about those functions then say what
every row of the system means.

Products of reals are written through `Linear.Prod` and `Assembly.Flux`, and
the writes of the stencil through `Assembly.Spread` and `Assembly.Gathered`.
This encoding keeps nonlinear arithmetic and long sequence updates away from
the solver. Lemmas such as `Assembly.FaceSum2Terms`, `Assembly.FaceSum3Terms`,
`Assembly.SpreadFour`, `Assembly.SpreadSix`, `Assembly.GatheredFour` and
`Assembly.GatheredSix` only unfold that encoding. The properties of the
system are proved in `Rows`, `Stencil`, `Fill`, `Mesh` and `Reorder`.

## Model

| member | source | states |
|---|---|---|
| Grid.MijIsMijk | L-QLES/matvec.py:36-37 | mij(i, j) is mijk(i, j, 0): the 2D flattening is the 3D one on the plane k = 0 |
| Grid.MijkShifts | L-QLES/matvec.py:37 | a step of ±1 in i, j or k moves the flat index by ±1, ±ni or ±ni·nj |
| Grid.IndexInRange | L-QLES/matvec.py:37 | every cell of the box has a flat index in [0, ni·nj·nk), and unflattening it gives the cell back |
| Grid.CellOfInBox | L-QLES/matvec.py:37 | every flat index in range unflattens to a cell of the box whose index is that flat index |
| Grid.IndexInjective | L-QLES/matvec.py:37 | two cells of the box with the same flat index are the same cell |
| Grid.Clamped | L-QLES/reorder.py:36 | the clamp lambda: each coordinate is clamped to the last node of its axis; the result is in range and equals mijk on in-range coordinates |
| Grid.PyIndex | L-QLES/matvec.py:116-119 | a Python index in [-n, n), negative ones counting from the end, selects a valid position in [0, n) |
| Bcs.Parse | L-QLES/matvec.py:43 | a valid token denotes a repeating end exactly when it is "R" |
| Bcs.Token | L-QLES/matvec.py:43 | every boundary type has a valid token that parses back to it |
| Bcs.ParseToken | L-QLES/matvec.py:43 | a valid token is recovered from the type it parses to |
| Bcs.CheckBcs | L-QLES/matvec.py:42-55 | a token error names the axis; an accepted pair is written as the given tokens and is consistent (R only with R) |
| Bcs.CheckBcsAccepts | L-QLES/matvec.py:42-55 | check_bcs accepts exactly two valid tokens that are either both R or both not R |
| Bcs.CheckBcsRoundTrip | L-QLES/matvec.py:42-55 | every consistent pair of types, written as tokens, is accepted and parsed back unchanged |
| Spacing.SpacingOf | L-QLES/matvec.py:73-77 | dx[i] = x[i] - x[i-1] inside, with dx[0] = dx[1] and dx[n] = dx[n-1] |
| Spacing.SpacingUnique | L-QLES/matvec.py:73-77 | the padded spacing array of x is unique |
| Spacing.Spacings | L-QLES/matvec.py:159-161 | the spacing loop computes exactly SpacingOf(x) |
| Spacing.SpacingPositive | L-QLES/matvec.py:159-161 | on a strictly increasing axis of two or more nodes every spacing is positive |
| Spacing.Wrapped | L-QLES/matvec.py:221-226 | a repeating axis pads with the far interior spacings, dx[0] = dx[n-1] and dx[n] = dx[1], and keeps the rest |
| Spacing.WrappedPositive | L-QLES/matvec.py:221-226 | wrapping keeps every spacing positive |
| Spacing.ReciprocalAt | L-QLES/matvec.py:81-82 | the reciprocal array holds 1/dx[i] at every i |
| Spacing.ReciprocalsPositive | L-QLES/matvec.py:81-82 | the reciprocals of positive spacings are positive |
| Normalise.MaxOf | L-QLES/matvec.py:122 | the maximum of a non-empty sequence bounds every element and is one of them |
| Normalise.MaxEntry | L-QLES/matvec.py:122 | np.amax(a): bounds every entry of the matrix and is attained |
| Normalise.ScaleMatrix | L-QLES/matvec.py:123 | a / amax divides every entry by amax |
| Normalise.ScaleVector | L-QLES/matvec.py:124 | b / amax divides every entry by amax |
| Normalise.ScaledMax | L-QLES/matvec.py:121-124 | after the division the largest entry is exactly 1 ("||a|| = 1 in max norm") |
| Normalise.ScaledSolutions | L-QLES/matvec.py:121-124 | x solves a x = b exactly when it solves (a/amax) x = b/amax |
| MatVec1D.InteriorRows | L-QLES/matvec.py:80-83 | the interior loop writes -1/dx[i], -1/dx[i+1] and their negated sum on rows 1..n-2 and nothing else |
| MatVec1D.EndRows | L-QLES/matvec.py:85-105 | the boundary step writes the repeating, Dirichlet, Neumann or symmetry end rows, copying the neighbouring interior diagonal |
| MatVec1D.LowEnd | L-QLES/matvec.py:95-99 | row 0 of a non-repeating axis: a[1][1] on the diagonal, and its negation at column 1 for N or S; no other row changes |
| MatVec1D.HighEnd | L-QLES/matvec.py:101-105 | row n-1 of a non-repeating axis: a[n-2][n-2] on the diagonal, and its negation at column n-2 for N (and for S under the intended reading); no other row changes |
| MatVec1D.RhsEntries | L-QLES/matvec.py:108-111 | b[0] and b[n-1] are value times the end diagonal (0 for symmetry) and b[i] = f inside |
| MatVec1D.FixDegenerate | L-QLES/matvec.py:114-119 | with degen off and no Dirichlet end, row degfix loses its two neighbours (Python indices) and b[degfix] is multiplied by the diagonal |
| MatVec1D.Fill | L-QLES/matvec.py:70-119 | the array assembly yields exactly Operator(p) and RhsVector(p) |
| MatVec1D.Operator | L-QLES/matvec.py:70-119 | the assembled matrix is n × n |
| MatVec1D.DiagonalPositive | L-QLES/matvec.py:80-105 | every diagonal entry is positive |
| MatVec1D.InteriorRow | L-QLES/matvec.py:80-83 | an interior row sums to 0, its off-diagonal entries are ≤ 0 and it couples only i-1 and i+1 |
| MatVec1D.DirichletLow | L-QLES/matvec.py:95-96 | with a Dirichlet low end the first equation holds exactly when x[0] is the boundary value |
| MatVec1D.DirichletHigh | L-QLES/matvec.py:101-102 | with a Dirichlet high end the last equation holds exactly when x[n-1] is the boundary value |
| MatVec1D.GradientLow | L-QLES/matvec.py:97-99 | a Neumann or symmetry low end: row sum 0, and the equation is x[0] - x[1] = value (0 for S) |
| MatVec1D.GradientHigh | L-QLES/matvec.py:103-105 | a Neumann high end (or a symmetry one under the intended reading): row sum 0, and x[n-1] - x[n-2] = value (0 for S) |
| MatVec1D.HighSymmetryAsWritten | L-QLES/matvec.py:101-102 | as written, a symmetry high end gets a lone positive diagonal with b = 0: the equation holds iff x[n-1] = 0, so a constant solution of ones fails it |
| MatVec1D.HighSymmetryCorrected | L-QLES/matvec.py:97-99 | the intended symmetry row sums to 0 and holds iff x[n-1] = x[n-2] |
| MatVec1D.PeriodicRows | L-QLES/matvec.py:86-93 | on a repeating axis of three or more nodes, with the degeneracy fix off or on a row other than 0 and N-1, both end rows couple across the wrap, share the diagonal and sum to 0 |
| MatVec1D.FixedRowPins | L-QLES/matvec.py:114-119 | the fixed row keeps only its diagonal, so it pins x[degfix] to the value its row had before the fix |
| MatVec1D.MaxPositive | L-QLES/matvec.py:122 | amax > 0, so the division is defined |
| MatVec1D.MatVec1D | L-QLES/matvec.py:60-132 | a token error aborts with that error; otherwise the result is (a/amax, b/amax) of the assembled system, with amax > 0 |
| Assembly.StageAt | L-QLES/matvec.py:338-422 | the s-th face pass in source order (D before N/S, x before y before z, low before high) |
| Assembly.Inward | L-QLES/matvec.py:196 | the neighbour one step into the grid from a face cell is another cell of the box |
| Assembly.Neighbour | L-QLES/matvec.py:235-251 | the stencil neighbours (wrapped on a repeating axis, the cell itself otherwise at an end) lie in the box |
| Assembly.Around | L-QLES/matvec.py:235-251 | the four (2D) or six (3D) stencil columns are valid indices |
| Assembly.WrapReciprocal | L-QLES/matvec.py:221-226 | the wrapped spacings are positive and the reciprocals the stencil uses are their inverses |
| Assembly.Operator | L-QLES/matvec.py:150-276 | the assembled matrix is Size × Size and its entries are the face, stencil and fix rows |
| Assembly.FixRow | L-QLES/matvec.py:261-276 | the fixed row, read as a Python index, is a valid row |
| Assembly.SizePositive | L-QLES/matvec.py:153 | a valid grid has at least 4 (2D) or 8 (3D) cells |
| Fill.FaceDiagonal | L-QLES/matvec.py:179 | the face diagonal the loop computes equals FaceDiag: 2·Ap/h + h/dp[u] + h/dp[u+1] (2D), and the five-term sum in 3D |
| Fill.FaceDiagonal3 | L-QLES/matvec.py:349 | the 3D face diagonal 2·Ap·Aq/h + h·Aq/dp[u] + h·Aq/dp[u+1] + h·Ap/dq[v] + h·Ap/dq[v+1] equals FaceDiag on every axis a |
| Fill.PinCell | L-QLES/matvec.py:177-180 | the Dirichlet cell step writes what FaceStep says and touches row m only |
| Fill.GradeCell | L-QLES/matvec.py:201-205 | the Neumann/symmetry cell step writes what FaceStep says and touches row m only |
| Fill.FaceCell | L-QLES/matvec.py:171-218 | one cell of a face pass, sentinel test included, matches FaceStep |
| Fill.FaceRun | L-QLES/matvec.py:175-180 | the inner loop of a face pass keeps the pass invariant over one line of cells |
| Fill.FaceSweep | L-QLES/matvec.py:171-191 | one face pass takes every cell from its line before the pass to its line after it |
| Fill.FacePasses | L-QLES/matvec.py:170-218 | after all face passes every row is the line the passes give (Faces) |
| Fill.StencilWeights | L-QLES/matvec.py:253-258 | the couplings and b the stencil writes equal Weights and f × volume |
| Fill.StencilCell | L-QLES/matvec.py:233-258 | one interior cell step matches StencilStep and touches row m only |
| Fill.InteriorPass | L-QLES/matvec.py:228-258 | after the interior loops every row is its Base line |
| Fill.ClearRow | L-QLES/matvec.py:272-276 | clearing the neighbour columns of the fixed row and b[m] = b[m] × a[m][m] |
| Fill.FixDegenerate | L-QLES/matvec.py:261-276 | zeroes exactly the entries the fix clears (the 3D fix at lines 480-500 likewise) and leaves b[m] = b[m] × a[m][m] on the fixed row |
| Fill.FillGrid | L-QLES/matvec.py:150-258 | the arrays hold BaseAt(geo, r) on every row after the face and interior loops |
| Fill.Assemble | L-QLES/matvec.py:150-276 | the array assembly yields exactly Operator(geo) and RhsVector(geo) |
| Stencil.UnclaimedInside | L-QLES/matvec.py:243-251 | a cell no face pass claims is interior along every non-repeating axis, so the "redundant trap" branch is never taken |
| Stencil.AroundDistinct | L-QLES/matvec.py:235-251 | for such a cell the stencil columns are distinct and differ from the diagonal |
| Stencil.WeightsNegative | L-QLES/matvec.py:253-256 | every stencil coupling is negative |
| Stencil.InteriorBase | L-QLES/matvec.py:229-258 | an interior row: negative couplings at its columns, a positive diagonal equal to minus their sum, zeros elsewhere, row sum 0, b = f × volume |
| Stencil.InteriorRow | L-QLES/matvec.py:229-258 | the same for the assembled operator, on every interior row the fix does not touch |
| Stencil.BaseDiagonalPositive | L-QLES/matvec.py:170-258 | every row has a positive diagonal before the fix |
| Stencil.DiagonalPositive | L-QLES/matvec.py:170-276 | every diagonal of the assembled operator is positive |
| Stencil.MaxPositive | L-QLES/matvec.py:280 | amax > 0, so the division is defined |
| Stencil.InsideUnclaimed | L-QLES/matvec.py:233 | a cell strictly inside every non-repeating axis, at any node of a repeating one, is claimed by no face pass and left to the interior stencil; with Stencil.UnclaimedInside, a cell is claimed exactly when it lies on a face of a non-repeating axis |
| Stencil.FixKeepsDiagonal | L-QLES/matvec.py:266-276 | the fix never clears the diagonal of its row |
| Stencil.ClearedIsAround | L-QLES/matvec.py:266-275 | for an interior fix node the cleared columns are exactly its stencil columns |
| Stencil.FixedRowPins | L-QLES/matvec.py:261-276 | the fixed row keeps only its positive diagonal, so its equation pins x at that node to f × volume |
| Rows.FaceDiagPositive | L-QLES/matvec.py:179 | every face diagonal is positive, so a written row never reads as unset |
| Rows.FirstClaim | L-QLES/matvec.py:170-218 | the first pass in source order that claims the cell |
| Rows.Precedence | L-QLES/matvec.py:170-218 | the claimant is no later than any pass that claims the cell |
| Rows.DirichletFirst | L-QLES/matvec.py:170 | a cell on a Dirichlet face is claimed by a Dirichlet pass ("these take precedence") |
| Rows.FacesBy | L-QLES/matvec.py:177 | the face passes leave an unclaimed row blank, and otherwise the row the claimant wrote |
| Rows.ClaimedBase | L-QLES/matvec.py:177 | the row of a claimed cell is what its claimant writes on a blank row |
| Rows.DirichletBase | L-QLES/matvec.py:171-191 | a Dirichlet row holds only its positive diagonal and b = value × diagonal |
| Rows.GradientBase | L-QLES/matvec.py:194-218 | a Neumann/symmetry row holds d and -d at the cell and its inward neighbour, with b set when the rule fires |
| Rows.DirichletStopsFix | L-QLES/matvec.py:262-264 | a Dirichlet row never coexists with the degeneracy fix |
| Rows.DirichletRow | L-QLES/matvec.py:171-191 | the equation of a Dirichlet row holds exactly when x at the node is the boundary value |
| Rows.GradientRow | L-QLES/matvec.py:194-218 | a Neumann/symmetry row sums to 0 and holds exactly when x[m] - x[inward] is the value the source's rule gives (0 otherwise) |
| Rows.ZFaceAsWritten | L-QLES/matvec.py:409-422 | as written the z-face pass sets b by y's high end, so a Neumann z face can keep b = 0 and a symmetry z face can get b ≠ 0 |
| Rows.GradientRowIntended | L-QLES/matvec.py:409-422 | under the intended reading every N row states x[m] - x[inward] = its own value and every S row a zero gradient |
| MatVecGrid.AxisOf | L-QLES/matvec.py:159-168 | the axis set up from the coordinates: spacings, their reciprocals, the validated types and the values |
| MatVecGrid.MakeAxis | L-QLES/matvec.py:159-165 | the spacing loop and reciprocals give exactly AxisOf |
| MatVecGrid.Scaled | L-QLES/matvec.py:279-282 | amax > 0 and the returned matrix has largest entry 1 |
| MatVecGrid.ScaledSystemSolutions | L-QLES/matvec.py:279-282 | the returned system has exactly the solutions of the assembled one |
| MatVecGrid.MatVec2D | L-QLES/matvec.py:137-289 | the x token error, else the y token error, else the scaled assembled 2D system |
| MatVecGrid.MatVec3D | L-QLES/matvec.py:294-512 | the first token error (x, y, z), else the scaled assembled 3D system |
| Mesh.Nu | L-QLES/mesh.py:79 | nu = nt - fc·(nc - 1) |
| Mesh.GeoClosed | L-QLES/mesh.py:87 | (r - 1)·(1 + r + … + r^(n-1)) = r^n - 1, the closed form behind f2 |
| Mesh.DenominatorFacts | L-QLES/mesh.py:85-88 | f1 + f2 = (nu-1)·r^(nc-1) + fc·(1 + … + r^(nc-2)) and it is positive |
| Mesh.SolveFacts | L-QLES/mesh.py:79-90 | the solution satisfies D = r^(nc-1)·d, C = d·(1 + … + r^(nc-2)) and (nu-1)·D + fc·C = L |
| Mesh.SolvePositive | L-QLES/mesh.py:79-90 | for L > 0 both d and D are positive |
| Mesh.FillCluster | L-QLES/mesh.py:102-104 | the first loop leaves x[t] = d·(1 + r + … + r^(t-1)) for t < nc-1 and changes nothing else |
| Mesh.FillUniform | L-QLES/mesh.py:106-108 | x[nc-1] = C and the uniform loop adds D per node, changing nothing else |
| Mesh.FillMirror | L-QLES/mesh.py:110-113 | the mirrored loop adds d·r^(nc-2), …, d back down, changing nothing else |
| Mesh.ClusterSumGeo | L-QLES/mesh.py:103-104 | the running sum of the cluster loop is d times the geometric sum |
| Mesh.MirrorSumGeo | L-QLES/mesh.py:112-113 | the running sum of the mirrored loop is d times the top terms of the geometric sum |
| Mesh.Accumulate | L-QLES/mesh.py:99-113 | the three loops produce the closed-form coordinates Shape |
| Mesh.GenerateMesh | L-QLES/mesh.py:66-119 | generate_mesh returns nt coordinates equal to Coord, flipped as L - flip(x) when ct = -1 |
| Mesh.ShapeStep | L-QLES/mesh.py:99-113 | consecutive coordinates differ by d·r^i in the cluster, D in the middle and the mirrored steps at the far end |
| Mesh.StepPositive | L-QLES/mesh.py:99-113 | for L > 0 every step is positive |
| Mesh.MeshIncreasing | L-QLES/mesh.py:66-119 | for L > 0 the coordinates strictly increase |
| Mesh.MeshEnds | L-QLES/mesh.py:66-119 | the mesh starts at 0 and ends at L, flipped or not |
| Mesh.MeshUniform | L-QLES/mesh.py:80-83 | with r = 1 node i is at i·L/(nt-1) |
| Mesh.MeshSymmetric | L-QLES/mesh.py:110-113 | with clustering at both ends (ct = 2) the mesh is symmetric: x[i] + x[nt-1-i] = L |
| Reorder.ShellOfCell | L-QLES/reorder.py:51-66 | the shell of a cell, the sweep that numbers it, is its largest coordinate |
| Reorder.OffsetShell | L-QLES/reorder.py:58-61 | the clamped block neighbours of a cell lie in its shell or the next |
| Reorder.DoneGrows | L-QLES/reorder.py:51 | while cells remain, each sweep reaches a new one, so the while loop ends |
| Reorder.Negate | L-QLES/reorder.py:52 | f = -f negates every flag |
| Reorder.Visit | L-QLES/reorder.py:61-65 | a neighbour with r[mn] == 0 gets the next number and flag 1; a numbered one is left alone |
| Reorder.ExpandBlock | L-QLES/reorder.py:58-65 | all block neighbours of the expanded cell are numbered afterwards, newly numbered ones flagged 1 |
| Reorder.SweepCell | L-QLES/reorder.py:56-66 | one cell of a sweep: a cell flagged -1 is expanded and its flag set to 0 |
| Reorder.Sweep | L-QLES/reorder.py:52-66 | one sweep numbers exactly the cells of the next shell and leaves them flagged for the next sweep |
| Reorder.Number | L-QLES/reorder.py:41-66 | the numbering loop ends with r and its inverse order a pair of inverse permutations of 0..na-1, order starting at the origin and never moving to an inner shell |
| Reorder.RankOutward | L-QLES/reorder.py:51-66 | read through r alone, Number's result is injective and in range, gives the origin 0, and numbers every cell of an outer shell after every cell of an inner one |
| Reorder.Invert | L-QLES/reorder.py:69-74 | ma[r[i]] = i: ma is the inverse of the numbering |
| Reorder.InverseUnique | L-QLES/reorder.py:69-74 | the inverse of the numbering is unique |
| Reorder.Permutations | L-QLES/reorder.py:84-88 | p[i][ma[i]] = 1 and q[ma[i]][i] = 1: p is a row and q a column permutation |
| Reorder.PermutationsTranspose | L-QLES/reorder.py:83-88 | q is the transpose of p |
| Reorder.PQIdentity | L-QLES/reorder.py:83 | p q = I |
| Reorder.QPIdentity | L-QLES/reorder.py:83 | q p = I, so each is the other's inverse |
| Reorder.Reorder | L-QLES/reorder.py:41-95 | the result is q, p a q with entries a[ma[i]][ma[j]] and p b with entries b[ma[i]] |
| Reorder.ApplyQ | L-QLES/save.py:64 | applying q to a solution of the reordered system reads it back in the original order |
| Reorder.RowReordered | L-QLES/reorder.py:90-92 | row i of p a q against y is row ma[i] of a against q y |
| Reorder.Recover | L-QLES/reorder.py:90-95 | y solves (p a q) y = p b exactly when q y solves a x = b |

## Left out

- Reading input: the XML case files, the dictionaries of strings, `replace`/`split`, and the `int`/`float` conversions are not modelled. Each axis arrives as coordinates, two tokens, two boundary values and a `degfix` index.
- `exit(1)` in `check_bcs` is an error value (`Bcs.Err`) that the routines return unchanged.
- Printing: every `print` and the debug output are left out. These are the `np.printoptions` blocks and the `if False` block of `generate_mesh`.
- Floating point: all arithmetic is on exact reals. IEEE rounding is not modelled. The sentinel test `a[m][m] == 0` is exact, and every written diagonal is proved positive.
- Cost: `np.matmul` is modelled by its result (`Linear.MatMul`), not by its dense cubic cost.
- Files and plotting: `plot.py`, `save.py` and `parse_meshfile` are not part of this model. The one exception is the use of `q` to recover `x`, stated as `Reorder.ApplyQ`/`Reorder.Recover`.
- `MatVec1D.MatVec1D` requires three or more nodes unless the axis repeats. With two nodes and no repeating end the interior loop never runs. `a` is then all zeros and `a/amax` is 0/0.
- `MatVecGrid.MatVec2D` and `MatVecGrid.MatVec3D` require two or more nodes per axis, because the face loops step by n-1. A repeating axis needs three or more.
- `MatVecGrid.MatVec2D` and `MatVecGrid.MatVec3D` also require every `degfix` index, its neighbours included, to be a valid Python index when the fix runs (`FixInRange`). Negative indices are read with Python's wrap-around (`Grid.PyIndex`). Out-of-range indices, which raise `IndexError`, are not modelled.
- `Stencil.FixedRowPins`: the pinning statement is proved only for a fix node off every face. The fix itself is modelled for every index Python accepts.
- Spacings and reciprocals: the specification functions state the operator over the reciprocals `1/dx`. The loops divide by `dx` exactly as the source does, and `Spacing.ReciprocalAt` links the two.
- `Mesh.GenerateMesh` requires nt ≥ 2, nc ≥ 1, nu ≥ 1 and r > 0. The model requires these bounds for a clustered mesh; generate_mesh does not check them. With r = 0 the source gives repeated nodes, or a uniform mesh when nc = 1. With r < 0 its steps can take either sign, or f1 + f2 can be 0 and the division at L-QLES/mesh.py:88 fails. With nc = 0 it writes `x[nc-1]`, which Python reads as `x[-1]`, the last node. These inputs (r ≤ 0, nc = 0) are not modelled.
- `MatVec1D.MatVec1D`, `MatVecGrid.MatVec2D` and `MatVecGrid.MatVec3D` require strictly increasing coordinates on every axis, which `Mesh.MeshIncreasing` guarantees for L > 0. The source accepts any array and takes `dx[i] = x[i] - x[i-1]`. A repeated node makes it divide by zero. A decreasing axis gives negative spacings, and then a written diagonal can be 0, so the sentinel `a[m][m] == 0` no longer tells written rows from unwritten ones. Those inputs are not modelled.
- `MatVec1D.PeriodicRows` is stated for three or more nodes. The model also assembles a repeating axis of two nodes, as the source does. There `a[0][nx-1]` is `a[0][1]`, so the wrap coupling overwrites the interior coupling (L-QLES/matvec.py:86-88). Row 0 is then [2/dx[2], -1/dx[2]], which does not sum to 0. The lemma also leaves out a degeneracy fix on row 0 or N-1, which clears the wrap couplings.
- `Mesh.MeshIncreasing` and `Mesh.SolvePositive` are stated for a positive length L only.
- The 2D routine always uses the source's behaviour (`Reading.AsWritten`), because its rules have no discrepancy.
- `MatVec1D.MatVec1D` and `MatVecGrid.MatVec3D` take a `Reading`. `AsWritten` follows the source line for line; `Intended` applies the corrections under "## Findings".
- Reorder: integer dtypes are modelled as unbounded integers. The rebinding `p = f = np.zeros(...)` is harmless, because `f` is not used afterwards, and is not modelled.
- The numbering's inverse order (`Reorder.Number`'s `order`) is ghost. `Reorder.Reorder` returns the real `q`, `p a q` and `p b`.

## Findings

| source | as written | input that shows it | evidently intended | confidence | as-written member | corrected member |
|---|---|---|---|---|---|---|
| L-QLES/matvec.py:422 | the z-face Neumann/symmetry pass sets `b[m]` when `bcy[jb] == 'N'`, where `jb` is left over from the y loop (always 1, the high y end) | 3D case with z btype "N, N", z bvalue "1, 1" and y btype "D, D": every row the z-face Neumann pass sets keeps b = 0, so the Neumann value is lost | `if bcz[kb] == 'N'`, as on the x and y faces | not executed | Rows.ZFaceAsWritten | Rows.GradientRowIntended |
| L-QLES/matvec.py:101-102 | a symmetry high end of the 1D problem gets the Dirichlet row: only `a[nx-1][nx-1]` and, by line 110, b = 0 | 1D case with x btype "N, S": the last equation forces x[nx-1] = 0 instead of a zero gradient, so the constant solution of ones fails it | treat `S` at the high end like `N` with zero gradient, as lines 97-99 do at the low end | not executed | MatVec1D.HighSymmetryAsWritten | MatVec1D.HighSymmetryCorrected |
