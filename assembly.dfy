/**
 * What matvec_2d and matvec_3d of L-QLES/matvec.py assemble, written as
 * functions of the grid. One engine serves both: a 2D grid is a grid with
 * one node along z and no z passes or z terms.
 *
 * Each row m of `a` together with b[m] is a Line. The routines fill the
 * lines in passes, and a pass touches line m only while a[m][m] is still 0:
 *   1. the Dirichlet faces, x then y (then z), low end before high end;
 *   2. the Neumann/Symmetry faces in the same order;
 *   3. the interior stencil on every line still unset, with the spacings
 *      of a repeating axis wrapped around;
 *   4. the optional degeneracy fix of one row.
 * The face passes are numbered stages 0 .. 4*dims-1 and LineAfter folds them
 * in that order, so precedence is part of the definition; the lemmas in
 * rows.dfy state what it yields.
 *
 * Spacings enter through their reciprocals g (g[i] = 1/d[i]); the methods in
 * fill.dfy divide, as the source does, and prove the two agree.
 */
module Assembly {
  import opened Bcs
  import opened Grid
  import opened Linear
  import opened Spacing

  /**
   * One axis: spacings d (with the padded spacing beyond each end), their
   * reciprocals g, the validated boundary types, the boundary values
   * (bvalue) and the degfix index.
   */
  datatype Axis = Axis(d: seq<real>, g: seq<real>, bc: BcPair, low: real, high: real, fix: int) {
    /** Number of nodes. */
    function N(): int { |d| - 1 }
    function Value(side: nat): real
      requires side < 2
    {
      if side == 0 then low else high
    }
  }

  /**
   * The grid of a 2D (dims == 2, z unused) or 3D problem, the source term f,
   * the degen flag, and which reading of the z-face Neumann test applies.
   */
  datatype Geo = Geo(dims: int, x: Axis, y: Axis, z: Axis, f: real, degen: bool, reading: Reading) {
    function Along(a: int): Axis {
      if a == 0 then x else if a == 1 then y else z
    }
    /** Nodes along axis a; a 2D grid has one node along z. */
    function Ext(a: int): int {
      if a == 2 && dims == 2 then 1 else Along(a).N()
    }
    /** n2 = nx*ny, n3 = nx*ny*nz */
    function Size(): int {
      x.N() * y.N() * Ext(2)
    }
    /** mij / mijk */
    function Flat(c: Cell): int {
      Index(c, x.N(), y.N())
    }
    predicate Box(c: Cell) {
      InBox(c, x.N(), y.N(), Ext(2))
    }
  }

  predicate AxisOk(ax: Axis) {
    ax.N() >= 2 && |ax.g| == |ax.d| && AllPositive(ax.d) && AllPositive(ax.g) &&
    Consistent(ax.bc) && (ax.bc.Periodic() ==> ax.N() >= 3)
  }

  /** The degeneracy fix runs: degen is off and no end of any axis is Dirichlet. */
  predicate Fixing(geo: Geo) {
    !geo.degen && !geo.x.bc.HasDirichlet() && !geo.y.bc.HasDirichlet() &&
    (geo.dims == 3 ==> !geo.z.bc.HasDirichlet())
  }

  /** mij(i, j) / mijk(i, j, k) of the degfix indices, before Python's index wrap. */
  function FixFlat(geo: Geo): int {
    Mijk(geo.x.fix, geo.y.fix, if geo.dims == 3 then geo.z.fix else 0, geo.x.N(), geo.y.N())
  }

  /** The largest offset from the fixed row to a column the fix clears. */
  function Reach(geo: Geo): int {
    if geo.dims == 2 then geo.x.N() else geo.x.N() * geo.y.N()
  }

  /**
   * The grid the routines accept: two or more nodes per axis (the face loops
   * step by n-1), three or more on a repeating axis, positive spacings,
   * validated boundary types, and degfix indices whose row and cleared
   * columns are valid (possibly negative) Python indices.
   */
  predicate Valid(geo: Geo) {
    (geo.dims == 2 || geo.dims == 3) &&
    AxisOk(geo.x) && AxisOk(geo.y) && (geo.dims == 3 ==> AxisOk(geo.z)) &&
    FixInRange(geo)
  }

  /** When the fix runs, its row and the columns it clears are indices Python accepts. */
  predicate FixInRange(geo: Geo) {
    Fixing(geo) ==> -geo.Size() <= FixFlat(geo) - Reach(geo) && FixFlat(geo) + Reach(geo) < geo.Size()
  }

  predicate AxisMeasured(ax: Axis) {
    AllPositive(ax.d) && ax.g == Reciprocals(ax.d)
  }

  /** g holds the reciprocals of the spacings d on every axis in use. */
  predicate Measured(geo: Geo) {
    AxisMeasured(geo.x) && AxisMeasured(geo.y) && (geo.dims == 3 ==> AxisMeasured(geo.z))
  }

  lemma SizePositive(geo: Geo)
    requires Valid(geo)
    ensures geo.Size() >= 8 || (geo.dims == 2 && geo.Size() >= 4)
    ensures geo.x.N() * geo.y.N() >= 4 && geo.Size() >= geo.x.N() * geo.y.N()
  {
    var nx, ny, nz := geo.x.N(), geo.y.N(), geo.Ext(2);
    MulMono(nx, 2, ny);
    MulMono(nx * ny, 1, nz);
    if geo.dims == 3 {
      MulMono(nx * ny, 2, nz);
    }
  }

  function Coord(c: Cell, a: int): int {
    if a == 0 then c.i else if a == 1 then c.j else c.k
  }

  /** c with coordinate a replaced by v. */
  function Put(c: Cell, a: int, v: int): (c': Cell)
    requires 0 <= a < 3
    ensures Coord(c', a) == v
    ensures forall b :: b != a && 0 <= b < 3 ==> Coord(c', b) == Coord(c, b)
  {
    if a == 0 then c.(i := v) else if a == 1 then c.(j := v) else c.(k := v)
  }

  /** The two axes other than a, in the order the source's face loops nest them. */
  function OtherP(a: int): int { if a == 0 then 1 else 0 }
  function OtherQ(a: int): int { if a == 2 then 1 else 2 }

  /** 0.5*(d[u] + d[u+1]): the width of the control volume around node u. */
  function Half(d: seq<real>, u: int): real
    requires 0 <= u && u + 1 < |d|
  {
    0.5 * (d[u] + d[u + 1])
  }

  /** One face pass: Dirichlet (gradient == false) or Neumann/Symmetry, on the low (0) or high (1) end of an axis. */
  datatype Stage = Stage(gradient: bool, axis: int, side: nat)

  predicate StageOk(geo: Geo, st: Stage) {
    0 <= st.axis < geo.dims && st.side < 2
  }

  /** The s-th face pass in source order. */
  function StageAt(dims: int, s: int): (st: Stage)
    requires dims == 2 || dims == 3
    requires 0 <= s < 4 * dims
    ensures 0 <= st.axis < dims && st.side < 2
  {
    var r := if s < 2 * dims then s else s - 2 * dims;
    Stage(s >= 2 * dims, r / 2, r % 2)
  }

  /** The pass writes at all: the boundary type of its end is D, or N or S. */
  predicate Claims(geo: Geo, st: Stage)
    requires st.side < 2
  {
    var t := geo.Along(st.axis).bc.At(st.side);
    if st.gradient then t == Neumann || t == Symmetry else t == Dirichlet
  }

  /** The coordinate of the face the pass sweeps. */
  function Face(geo: Geo, st: Stage): int {
    if st.side == 0 then 0 else geo.Ext(st.axis) - 1
  }

  predicate OnFace(geo: Geo, st: Stage, c: Cell) {
    Coord(c, st.axis) == Face(geo, st)
  }

  /**
   * The diagonal a face pass writes on axis a at cell c (the same for D, N
   * and S): with h the face spacing and A the control-volume widths of the
   * other axes, 2*Ap*Aq/h + h*Aq/dp[u] + h*Aq/dp[u+1] + h*Ap/dq[v] + h*Ap/dq[v+1]
   * in 3D and 2*Ap/h + h/dp[u] + h/dp[u+1] in 2D.
   */
  function FaceDiag(geo: Geo, a: int, c: Cell): real
    requires Valid(geo) && 0 <= a < geo.dims && geo.Box(c)
  {
    var B, P := geo.Along(a), geo.Along(OtherP(a));
    var h, gb := B.d[Coord(c, a)], B.g[Coord(c, a)];
    var u := Coord(c, OtherP(a));
    var ap := Half(P.d, u);
    if geo.dims == 2 then FaceSum2(h, ap, gb, P.g[u], P.g[u + 1])
    else
      var Q := geo.Along(OtherQ(a));
      var v := Coord(c, OtherQ(a));
      FaceSum3(h, ap, Half(Q.d, v), gb, P.g[u], P.g[u + 1], Q.g[v], Q.g[v + 1])
  }

  /**
   * The sum of a[k]*w[k]. A face diagonal is such a sum of five (in 2D three)
   * terms: an area-like product times the reciprocal of a spacing.
   */
  function Flux(a: seq<real>, w: seq<real>): real
    requires |a| == |w|
    decreases |a|
  {
    if |a| == 0 then 0.0 else a[0] * w[0] + Flux(a[1..], w[1..])
  }

  /** 2*ap/h + h/dp[u] + h/dp[u+1], with gb = 1/h and gp0, gp1 the reciprocals of dp[u], dp[u+1]. */
  function FaceSum2(h: real, ap: real, gb: real, gp0: real, gp1: real): real {
    Flux([2.0 * ap, h, h], [gb, gp0, gp1])
  }

  /** 2*ap*aq/h + h*aq/dp[u] + h*aq/dp[u+1] + h*ap/dq[v] + h*ap/dq[v+1], in reciprocals. */
  function FaceSum3(h: real, ap: real, aq: real, gb: real, gp0: real, gp1: real, gq0: real, gq1: real): real {
    Flux([2.0 * ap * aq, h * aq, h * aq, h * ap, h * ap], [gb, gp0, gp1, gq0, gq1])
  }

  lemma FaceSum2Terms(h: real, ap: real, gb: real, gp0: real, gp1: real)
    ensures FaceSum2(h, ap, gb, gp0, gp1) == 2.0 * ap * gb + h * gp0 + h * gp1
  {
    var a, w := [2.0 * ap, h, h], [gb, gp0, gp1];
    assert Flux(a[2..], w[2..]) == h * gp1 by {
      assert Flux(a[3..], w[3..]) == 0.0;
    }
    assert Flux(a[1..], w[1..]) == h * gp0 + Flux(a[2..], w[2..]);
  }

  lemma FaceSum3Terms(h: real, ap: real, aq: real, gb: real, gp0: real, gp1: real, gq0: real, gq1: real)
    ensures FaceSum3(h, ap, aq, gb, gp0, gp1, gq0, gq1) ==
      2.0 * ap * aq * gb + h * aq * gp0 + h * aq * gp1 + h * ap * gq0 + h * ap * gq1
  {
    var a, w := [2.0 * ap * aq, h * aq, h * aq, h * ap, h * ap], [gb, gp0, gp1, gq0, gq1];
    assert Flux(a[4..], w[4..]) == h * ap * gq1 by {
      assert Flux(a[5..], w[5..]) == 0.0;
    }
    assert Flux(a[3..], w[3..]) == h * ap * gq0 + Flux(a[4..], w[4..]);
    assert Flux(a[2..], w[2..]) == h * aq * gp1 + Flux(a[3..], w[3..]);
    assert Flux(a[1..], w[1..]) == h * aq * gp0 + Flux(a[2..], w[2..]);
  }

  /** Row m of a with b[m]. */
  datatype Line = Line(row: seq<real>, rhs: real)

  function Blank(n: nat): (l: Line)
    ensures |l.row| == n && l.rhs == 0.0
    ensures forall col :: 0 <= col < n ==> l.row[col] == 0.0
  {
    Line(seq(n, _ => 0.0), 0.0)
  }

  /** a[m][m] of line l, for m the flat index of c. */
  function Diagonal(geo: Geo, l: Line, c: Cell): real
    requires Valid(geo) && geo.Box(c) && |l.row| == geo.Size()
  {
    IndexInRange(c, geo.x.N(), geo.y.N(), geo.Ext(2));
    l.row[geo.Flat(c)]
  }

  /** row with the entry in the column of cell c replaced by v. */
  function SetCell(geo: Geo, row: seq<real>, c: Cell, v: real): (row': seq<real>)
    requires Valid(geo) && geo.Box(c) && |row| == geo.Size()
    ensures |row'| == geo.Size()
  {
    IndexInRange(c, geo.x.N(), geo.y.N(), geo.Ext(2));
    row[geo.Flat(c) := v]
  }

  /** Whether a Neumann/Symmetry pass sets b[m] = bvalue*a[m][m]: when its own end is N. */
  predicate NeumannRhs(geo: Geo, st: Stage)
    requires st.side < 2
  {
    geo.Along(st.axis).bc.At(st.side) == Neumann
  }

  /** The test the z-face Neumann/Symmetry pass of matvec_3d makes: bcy[jb], with jb == 1 left over from the y loop. */
  predicate NeumannRhsAsWritten(geo: Geo, st: Stage)
    requires st.side < 2
  {
    if geo.dims == 3 && st.axis == 2 then geo.y.bc.high == Neumann else NeumannRhs(geo, st)
  }

  /** The test the pass makes under the grid's reading. */
  predicate SetsRhs(geo: Geo, st: Stage)
    requires st.side < 2
  {
    if geo.reading == AsWritten then NeumannRhsAsWritten(geo, st) else NeumannRhs(geo, st)
  }

  /** A face pass at cell c, with the given test for the Neumann right-hand side. */
  function FaceStepBy(geo: Geo, st: Stage, c: Cell, l: Line, setsRhs: bool): (l': Line)
    requires Valid(geo) && StageOk(geo, st) && geo.Box(c) && |l.row| == geo.Size()
    ensures |l'.row| == geo.Size()
  {
    var m := geo.Flat(c);
    IndexInRange(c, geo.x.N(), geo.y.N(), geo.Ext(2));
    if !(Claims(geo, st) && OnFace(geo, st, c) && Diagonal(geo, l, c) == 0.0) then l
    else
      var diag := FaceDiag(geo, st.axis, c);
      var v := geo.Along(st.axis).Value(st.side);
      if !st.gradient then Line(SetCell(geo, l.row, c, diag), Prod([v, diag]))
      else Line(SetCell(geo, SetCell(geo, l.row, c, diag), Inward(geo, st, c), -diag), if setsRhs then Prod([v, diag]) else l.rhs)
  }

  /** The neighbour of a face cell one step into the grid. */
  function Inward(geo: Geo, st: Stage, c: Cell): (c': Cell)
    requires Valid(geo) && StageOk(geo, st) && geo.Box(c) && OnFace(geo, st, c)
    ensures geo.Box(c') && c' != c
  {
    Put(c, st.axis, Coord(c, st.axis) + 1 - 2 * st.side)
  }

  function FaceStep(geo: Geo, st: Stage, c: Cell, l: Line): (l': Line)
    requires Valid(geo) && StageOk(geo, st) && geo.Box(c) && |l.row| == geo.Size()
    ensures |l'.row| == geo.Size()
  {
    FaceStepBy(geo, st, c, l, SetsRhs(geo, st))
  }

  /** A pass leaves a line alone unless the pass writes, the cell is on its face and the line is unset. */
  lemma FaceStepSkips(geo: Geo, st: Stage, c: Cell, l: Line)
    requires Valid(geo) && StageOk(geo, st) && geo.Box(c) && |l.row| == geo.Size()
    requires !(Claims(geo, st) && OnFace(geo, st, c) && Diagonal(geo, l, c) == 0.0)
    ensures FaceStep(geo, st, c, l) == l
  {
  }

  /** A Dirichlet pass on an unset line of its face: the diagonal, and b = value * diagonal. */
  lemma FaceStepPins(geo: Geo, st: Stage, c: Cell, l: Line)
    requires Valid(geo) && StageOk(geo, st) && geo.Box(c) && |l.row| == geo.Size()
    requires Claims(geo, st) && OnFace(geo, st, c) && Diagonal(geo, l, c) == 0.0 && !st.gradient
    ensures FaceStep(geo, st, c, l) ==
      Line(SetCell(geo, l.row, c, FaceDiag(geo, st.axis, c)),
           Prod([geo.Along(st.axis).Value(st.side), FaceDiag(geo, st.axis, c)]))
  {
  }

  /** A Neumann/Symmetry pass on an unset line of its face: the diagonal and its negation inward. */
  lemma FaceStepGrades(geo: Geo, st: Stage, c: Cell, l: Line)
    requires Valid(geo) && StageOk(geo, st) && geo.Box(c) && |l.row| == geo.Size()
    requires Claims(geo, st) && OnFace(geo, st, c) && Diagonal(geo, l, c) == 0.0 && st.gradient
    ensures FaceStep(geo, st, c, l) ==
      Line(SetCell(geo, SetCell(geo, l.row, c, FaceDiag(geo, st.axis, c)), Inward(geo, st, c), -FaceDiag(geo, st.axis, c)),
           if SetsRhs(geo, st) then Prod([geo.Along(st.axis).Value(st.side), FaceDiag(geo, st.axis, c)]) else l.rhs)
  {
  }

  lemma AfterStep(geo: Geo, s: int, c: Cell)
    requires Valid(geo) && 0 <= s < 4 * geo.dims && geo.Box(c)
    ensures LineAfter(geo, s + 1, c) == FaceStep(geo, StageAt(geo.dims, s), c, LineAfter(geo, s, c))
  {
  }

  /** A pass that does not write, or a cell off its face, leaves the line as it was. */
  lemma AfterOffFace(geo: Geo, s: int, c: Cell)
    requires Valid(geo) && 0 <= s < 4 * geo.dims && geo.Box(c)
    requires !Claims(geo, StageAt(geo.dims, s)) || !OnFace(geo, StageAt(geo.dims, s), c)
    ensures LineAfter(geo, s + 1, c) == LineAfter(geo, s, c)
  {
    FaceStepSkips(geo, StageAt(geo.dims, s), c, LineAfter(geo, s, c));
  }

  /** Line c after the first s face passes. */
  function LineAfter(geo: Geo, s: int, c: Cell): (l: Line)
    requires Valid(geo) && 0 <= s <= 4 * geo.dims && geo.Box(c)
    ensures |l.row| == geo.Size()
    decreases s
  {
    SizePositive(geo);
    if s == 0 then Blank(geo.Size())
    else FaceStep(geo, StageAt(geo.dims, s - 1), c, LineAfter(geo, s - 1, c))
  }

  /** Line c once every face pass has run. */
  function Faces(geo: Geo, c: Cell): (l: Line)
    requires Valid(geo) && geo.Box(c)
    ensures |l.row| == geo.Size()
  {
    LineAfter(geo, 4 * geo.dims, c)
  }

  /** The spacings the interior pass reads: those of a repeating axis are wrapped first. */
  function WrapD(ax: Axis): seq<real>
    requires |ax.d| >= 3
  {
    if ax.bc.Periodic() then Wrapped(ax.d) else ax.d
  }

  function WrapG(ax: Axis): seq<real>
    requires |ax.g| >= 3
  {
    if ax.bc.Periodic() then Wrapped(ax.g) else ax.g
  }

  /** The wrapped reciprocals are the reciprocals of the wrapped spacings. */
  lemma WrapReciprocal(ax: Axis, i: int)
    requires AxisMeasured(ax) && |ax.d| >= 3 && 0 <= i < |ax.d|
    ensures WrapD(ax)[i] > 0.0 && WrapG(ax)[i] == 1.0 / WrapD(ax)[i]
  {
    var n := |ax.d|;
    var j := if !ax.bc.Periodic() then i else if i == 0 then n - 2 else if i == n - 1 then 1 else i;
    ReciprocalAt(ax.d, j);
  }

  /**
   * The interior pass's neighbour of c one step (delta = -1 or +1) along
   * axis a: the next node, wrapped round on a repeating axis, and c itself
   * past the end of any other axis (the source's "redundant trap").
   */
  function Neighbour(geo: Geo, c: Cell, a: int, delta: int): (c': Cell)
    requires Valid(geo) && 0 <= a < geo.dims && geo.Box(c) && (delta == -1 || delta == 1)
    ensures geo.Box(c')
  {
    var u, n := Coord(c, a) + delta, geo.Ext(a);
    if 0 <= u < n then Put(c, a, u)
    else if geo.Along(a).bc.Periodic() then Put(c, a, if delta < 0 then n - 1 else 0)
    else c
  }

  /** The columns the interior pass writes in row c, in source order: w, e, s, n (then d, u in 3D). */
  function Around(geo: Geo, c: Cell): (cols: seq<int>)
    requires Valid(geo) && geo.Box(c)
    ensures |cols| == 2 * geo.dims && forall t :: 0 <= t < |cols| ==> 0 <= cols[t] < geo.Size()
  {
    NeighboursInRange(geo, c, geo.dims - 1);
    var in2 := [geo.Flat(Neighbour(geo, c, 0, -1)), geo.Flat(Neighbour(geo, c, 0, 1)),
                geo.Flat(Neighbour(geo, c, 1, -1)), geo.Flat(Neighbour(geo, c, 1, 1))];
    if geo.dims == 2 then in2 else in2 + [geo.Flat(Neighbour(geo, c, 2, -1)), geo.Flat(Neighbour(geo, c, 2, 1))]
  }

  /** The control-volume widths of c along each axis, on the wrapped spacings. */
  function Width(geo: Geo, c: Cell, a: int): real
    requires Valid(geo) && 0 <= a < geo.dims && geo.Box(c)
  {
    Half(WrapD(geo.Along(a)), Coord(c, a))
  }

  /** The control volume of c: ax*ay, times az in 3D. */
  function Volume(geo: Geo, c: Cell): real
    requires Valid(geo) && geo.Box(c)
  {
    if geo.dims == 2 then Prod([Width(geo, c, 0), Width(geo, c, 1)])
    else Prod([Width(geo, c, 0), Width(geo, c, 1), Width(geo, c, 2)])
  }

  /**
   * The couplings of a 2D cell with its w, e, s, n neighbours: minus the
   * face length over the distance, -ay/dx[i], -ay/dx[i+1], -ax/dy[j],
   * -ax/dy[j+1], with gx0 = 1/dx[i] and so on.
   */
  function Couplings2(ax: real, ay: real, gx0: real, gx1: real, gy0: real, gy1: real): seq<real> {
    [-Prod([ay, gx0]), -Prod([ay, gx1]), -Prod([ax, gy0]), -Prod([ax, gy1])]
  }

  /** The same in 3D, with d and u: -ay*az/dx[i], ..., -ax*ay/dz[k+1]. */
  function Couplings3(ax: real, ay: real, az: real, gx0: real, gx1: real, gy0: real, gy1: real, gz0: real, gz1: real): seq<real> {
    [-Prod([ay, az, gx0]), -Prod([ay, az, gx1]), -Prod([ax, az, gy0]), -Prod([ax, az, gy1]),
     -Prod([ax, ay, gz0]), -Prod([ax, ay, gz1])]
  }

  /** The weights written at Around(c), on the wrapped spacings. */
  function Weights(geo: Geo, c: Cell): (ws: seq<real>)
    requires Valid(geo) && geo.Box(c)
    ensures |ws| == 2 * geo.dims
  {
    var xg, yg := WrapG(geo.x), WrapG(geo.y);
    var ax, ay := Width(geo, c, 0), Width(geo, c, 1);
    if geo.dims == 2 then
      Couplings2(ax, ay, xg[c.i], xg[c.i + 1], yg[c.j], yg[c.j + 1])
    else
      var zg := WrapG(geo.z);
      Couplings3(ax, ay, Width(geo, c, 2), xg[c.i], xg[c.i + 1], yg[c.j], yg[c.j + 1], zg[c.k], zg[c.k + 1])
  }

  /** row after writing ws[t] at cols[t] for t < n in order, later writes winning. */
  function Spread(row: seq<real>, cols: seq<int>, ws: seq<real>, n: nat): (r: seq<real>)
    requires n <= |cols| == |ws| && forall t :: 0 <= t < |cols| ==> 0 <= cols[t] < |row|
    ensures |r| == |row|
  {
    if n == 0 then row else Spread(row, cols, ws, n - 1)[cols[n - 1] := ws[n - 1]]
  }

  /** The sum of what row holds at the columns cols[t], t < n. */
  function Gathered(row: seq<real>, cols: seq<int>, n: nat): real
    requires n <= |cols| && forall t :: 0 <= t < |cols| ==> 0 <= cols[t] < |row|
  {
    if n == 0 then 0.0 else Gathered(row, cols, n - 1) + row[cols[n - 1]]
  }

  lemma SpreadFour(row: seq<real>, cols: seq<int>, ws: seq<real>)
    requires |cols| == |ws| >= 4 && forall t :: 0 <= t < |cols| ==> 0 <= cols[t] < |row|
    ensures Spread(row, cols, ws, 4) == row[cols[0] := ws[0]][cols[1] := ws[1]][cols[2] := ws[2]][cols[3] := ws[3]]
  {
    assert Spread(row, cols, ws, 1) == row[cols[0] := ws[0]];
    assert Spread(row, cols, ws, 2) == row[cols[0] := ws[0]][cols[1] := ws[1]];
    assert Spread(row, cols, ws, 3) == row[cols[0] := ws[0]][cols[1] := ws[1]][cols[2] := ws[2]];
  }

  lemma SpreadSix(row: seq<real>, cols: seq<int>, ws: seq<real>)
    requires |cols| == 6 && |ws| == 6 && forall t :: 0 <= t < 6 ==> 0 <= cols[t] < |row|
    ensures Spread(row, cols, ws, 6)
         == row[cols[0] := ws[0]][cols[1] := ws[1]][cols[2] := ws[2]][cols[3] := ws[3]][cols[4] := ws[4]][cols[5] := ws[5]]
  {
    SpreadFour(row, cols, ws);
    assert Spread(row, cols, ws, 5) == Spread(row, cols, ws, 4)[cols[4] := ws[4]];
  }

  lemma GatheredFour(row: seq<real>, cols: seq<int>)
    requires |cols| >= 4 && forall t :: 0 <= t < |cols| ==> 0 <= cols[t] < |row|
    ensures Gathered(row, cols, 4) == row[cols[0]] + row[cols[1]] + row[cols[2]] + row[cols[3]]
  {
    assert Gathered(row, cols, 1) == row[cols[0]];
    assert Gathered(row, cols, 2) == row[cols[0]] + row[cols[1]];
    assert Gathered(row, cols, 3) == row[cols[0]] + row[cols[1]] + row[cols[2]];
  }

  lemma GatheredSix(row: seq<real>, cols: seq<int>)
    requires |cols| == 6 && forall t :: 0 <= t < 6 ==> 0 <= cols[t] < |row|
    ensures Gathered(row, cols, 6) == row[cols[0]] + row[cols[1]] + row[cols[2]] + row[cols[3]] + row[cols[4]] + row[cols[5]]
  {
    GatheredFour(row, cols);
    assert Gathered(row, cols, 5) == Gathered(row, cols, 4) + row[cols[4]];
  }

  /**
   * The interior pass at cell c, if a[m][m] is still 0: the weights are
   * written at the neighbour columns, and then the diagonal becomes minus
   * what the row holds there; b[m] = f times the control volume.
   */
  function StencilStep(geo: Geo, c: Cell, l: Line): (l': Line)
    requires Valid(geo) && geo.Box(c) && |l.row| == geo.Size()
    ensures |l'.row| == geo.Size()
  {
    IndexInRange(c, geo.x.N(), geo.y.N(), geo.Ext(2));
    if Diagonal(geo, l, c) != 0.0 then l
    else
      var cols := Around(geo, c);
      var r := Spread(l.row, cols, Weights(geo, c), |cols|);
      Line(SetCell(geo, r, c, -Gathered(r, cols, |cols|)), Prod([geo.f, Volume(geo, c)]))
  }

  /** The row the interior pass leaves at a cell whose diagonal is still 0. */
  lemma StencilRow(geo: Geo, c: Cell, l: Line)
    requires Valid(geo) && geo.Box(c) && |l.row| == geo.Size() && Diagonal(geo, l, c) == 0.0
    ensures var cols := Around(geo, c);
            var r := Spread(l.row, cols, Weights(geo, c), |cols|);
            StencilStep(geo, c, l).row == SetCell(geo, r, c, -Gathered(r, cols, |cols|))
  {
  }

  /** The right-hand side it leaves there: f times the control volume. */
  lemma StencilRhs(geo: Geo, c: Cell, l: Line)
    requires Valid(geo) && geo.Box(c) && |l.row| == geo.Size() && Diagonal(geo, l, c) == 0.0
    ensures StencilStep(geo, c, l).rhs == Prod([geo.f, Volume(geo, c)])
  {
  }

  lemma StencilSkips(geo: Geo, c: Cell, l: Line)
    requires Valid(geo) && geo.Box(c) && |l.row| == geo.Size() && Diagonal(geo, l, c) != 0.0
    ensures StencilStep(geo, c, l) == l
  {
  }

  lemma NeighboursInRange(geo: Geo, c: Cell, a: int)
    requires Valid(geo) && 0 <= a < geo.dims && geo.Box(c)
    ensures forall a' :: 0 <= a' <= a ==>
      0 <= geo.Flat(Neighbour(geo, c, a', -1)) < geo.Size() && 0 <= geo.Flat(Neighbour(geo, c, a', 1)) < geo.Size()
  {
    forall a' | 0 <= a' <= a
      ensures 0 <= geo.Flat(Neighbour(geo, c, a', -1)) < geo.Size() && 0 <= geo.Flat(Neighbour(geo, c, a', 1)) < geo.Size()
    {
      IndexInRange(Neighbour(geo, c, a', -1), geo.x.N(), geo.y.N(), geo.Ext(2));
      IndexInRange(Neighbour(geo, c, a', 1), geo.x.N(), geo.y.N(), geo.Ext(2));
    }
  }

  /** Line c after the face passes and the interior pass. */
  function Base(geo: Geo, c: Cell): (l: Line)
    requires Valid(geo) && geo.Box(c)
    ensures |l.row| == geo.Size()
  {
    StencilStep(geo, c, Faces(geo, c))
  }

  /** Line number r (a flat index) after the interior pass. */
  function BaseAt(geo: Geo, r: int): (l: Line)
    requires Valid(geo) && 0 <= r < geo.Size()
    ensures |l.row| == geo.Size()
  {
    CellOfInBox(r, geo.x.N(), geo.y.N(), geo.Ext(2));
    Base(geo, CellOf(r, geo.x.N(), geo.y.N()))
  }

  /** The row the degeneracy fix rewrites (Python's reading of a possibly negative index). */
  function FixRow(geo: Geo): (r: int)
    requires Valid(geo) && Fixing(geo)
    ensures 0 <= r < geo.Size()
  {
    PyIndex(FixFlat(geo), geo.Size())
  }

  /** The columns the fix zeroes: mw, me, ms, mn (and md, mu), as Python reads them. */
  function Cleared(geo: Geo): (cs: seq<int>)
    requires Valid(geo) && Fixing(geo)
    ensures forall k :: 0 <= k < |cs| ==> 0 <= cs[k] < geo.Size()
  {
    var F, n, nx, R := FixFlat(geo), geo.Size(), geo.x.N(), Reach(geo);
    ReachBounds(geo);
    var in2 := [PyIndex(F - 1, n), PyIndex(F + 1, n), PyIndex(F - nx, n), PyIndex(F + nx, n)];
    if geo.dims == 2 then in2
    else in2 + [PyIndex(F - R, n), PyIndex(F + R, n)]
  }

  lemma ReachBounds(geo: Geo)
    requires Valid(geo)
    ensures 1 <= geo.x.N() <= Reach(geo)
    ensures geo.dims == 3 ==> Reach(geo) == geo.x.N() * geo.y.N()
  {
    MulMono(geo.x.N(), 1, geo.y.N());
  }

  predicate FixedEntry(geo: Geo, r: int, col: int)
    requires Valid(geo)
  {
    Fixing(geo) && r == FixRow(geo) && col in Cleared(geo)
  }

  /** a[r][col] as the routine returns it, before the scaling by amax. */
  function Entry(geo: Geo, r: int, col: int): real
    requires Valid(geo) && 0 <= r < geo.Size() && 0 <= col < geo.Size()
  {
    if FixedEntry(geo, r, col) then 0.0 else BaseAt(geo, r).row[col]
  }

  /** b[r] before the scaling: the fixed row's b is multiplied by its (final) diagonal. */
  function Rhs(geo: Geo, r: int): real
    requires Valid(geo) && 0 <= r < geo.Size()
  {
    if Fixing(geo) && r == FixRow(geo) then Prod([BaseAt(geo, r).rhs, Entry(geo, r, r)])
    else BaseAt(geo, r).rhs
  }

  function Operator(geo: Geo): (A: Matrix)
    requires Valid(geo)
    ensures IsMatrix(A, geo.Size(), geo.Size())
    ensures forall r, col :: 0 <= r < geo.Size() && 0 <= col < geo.Size() ==> A[r][col] == Entry(geo, r, col)
  {
    SizePositive(geo);
    var n := geo.Size();
    seq(n, r requires 0 <= r < n => seq(n, col requires 0 <= col < n => Entry(geo, r, col)))
  }

  function RhsVector(geo: Geo): (b: seq<real>)
    requires Valid(geo)
    ensures |b| == geo.Size() && forall r :: 0 <= r < geo.Size() ==> b[r] == Rhs(geo, r)
  {
    SizePositive(geo);
    seq(geo.Size(), r requires 0 <= r < geo.Size() => Rhs(geo, r))
  }
}
