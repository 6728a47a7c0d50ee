/**
 * The assembly loops of matvec_2d and matvec_3d (L-QLES/matvec.py) on a
 * dense array a and a vector b, each proved to leave exactly the lines that
 * the functions of module Assembly describe.
 */
module Fill {
  import opened Bcs
  import opened Grid
  import opened Linear
  import opened Spacing
  import opened Assembly

  /** Row Flat(c) of a and b[Flat(c)] hold the line l. */
  ghost predicate Shows(a: array2<real>, b: array<real>, geo: Geo, c: Cell, l: Line)
    reads a, b
  {
    var m := geo.Flat(c);
    0 <= m < a.Length0 && m < b.Length && |l.row| == a.Length1 &&
    (forall col :: 0 <= col < a.Length1 ==> a[m, col] == l.row[col]) && b[m] == l.rhs
  }

  lemma DivByReciprocal(x: real, h: real, g: real)
    requires h > 0.0 && g == 1.0 / h
    ensures x / h == x * g
  {
  }

  lemma FaceSum2Divides(h: real, ap: real, p0: real, p1: real, gb: real, gp0: real, gp1: real)
    requires h > 0.0 && p0 > 0.0 && p1 > 0.0
    requires gb == 1.0 / h && gp0 == 1.0 / p0 && gp1 == 1.0 / p1
    ensures 2.0 * ap / h + h / p0 + h / p1 == FaceSum2(h, ap, gb, gp0, gp1)
  {
    FaceSum2Terms(h, ap, gb, gp0, gp1);
    DivByReciprocal(2.0 * ap, h, gb);
    DivByReciprocal(h, p0, gp0);
    DivByReciprocal(h, p1, gp1);
  }

  lemma FaceSum3Divides(h: real, ap: real, aq: real, p0: real, p1: real, q0: real, q1: real,
                        gb: real, gp0: real, gp1: real, gq0: real, gq1: real)
    requires h > 0.0 && p0 > 0.0 && p1 > 0.0 && q0 > 0.0 && q1 > 0.0
    requires gb == 1.0 / h && gp0 == 1.0 / p0 && gp1 == 1.0 / p1 && gq0 == 1.0 / q0 && gq1 == 1.0 / q1
    ensures 2.0 * ap * aq / h + h * aq / p0 + h * aq / p1 + h * ap / q0 + h * ap / q1
         == FaceSum3(h, ap, aq, gb, gp0, gp1, gq0, gq1)
  {
    FaceSum3Terms(h, ap, aq, gb, gp0, gp1, gq0, gq1);
    DivByReciprocal(2.0 * ap * aq, h, gb);
    DivByReciprocal(h * aq, p0, gp0);
    DivByReciprocal(h * aq, p1, gp1);
    DivByReciprocal(h * ap, q0, gq0);
    DivByReciprocal(h * ap, q1, gq1);
  }

  /** The 2D face diagonal 2*ap/h + h/p0 + h/p1, divided out as matvec_2d does. */
  method FaceSum2Of(h: real, ap: real, p0: real, p1: real, ghost gb: real, ghost gp0: real, ghost gp1: real)
    returns (diag: real)
    requires h > 0.0 && p0 > 0.0 && p1 > 0.0
    requires gb == 1.0 / h && gp0 == 1.0 / p0 && gp1 == 1.0 / p1
    ensures diag == FaceSum2(h, ap, gb, gp0, gp1)
  {
    diag := 2.0 * ap / h + h / p0 + h / p1;
    FaceSum2Divides(h, ap, p0, p1, gb, gp0, gp1);
  }

  /** The 3D face diagonal, divided out as matvec_3d does. */
  method FaceSum3Of(h: real, ap: real, aq: real, p0: real, p1: real, q0: real, q1: real,
                    ghost gb: real, ghost gp0: real, ghost gp1: real, ghost gq0: real, ghost gq1: real)
    returns (diag: real)
    requires h > 0.0 && p0 > 0.0 && p1 > 0.0 && q0 > 0.0 && q1 > 0.0
    requires gb == 1.0 / h && gp0 == 1.0 / p0 && gp1 == 1.0 / p1 && gq0 == 1.0 / q0 && gq1 == 1.0 / q1
    ensures diag == FaceSum3(h, ap, aq, gb, gp0, gp1, gq0, gq1)
  {
    diag := 2.0 * ap * aq / h + h * aq / p0 + h * aq / p1 + h * ap / q0 + h * ap / q1;
    FaceSum3Divides(h, ap, aq, p0, p1, q0, q1, gb, gp0, gp1, gq0, gq1);
  }

  /** The diagonal of a face cell on axis a. */
  method FaceDiagonal(geo: Geo, a: int, c: Cell) returns (diag: real)
    requires Valid(geo) && Measured(geo) && 0 <= a < geo.dims && geo.Box(c)
    ensures diag == FaceDiag(geo, a, c)
  {
    var B, P := geo.Along(a), geo.Along(OtherP(a));
    assert AxisMeasured(B) && AxisMeasured(P);
    var t, u := Coord(c, a), Coord(c, OtherP(a));
    ReciprocalAt(B.d, t);
    ReciprocalAt(P.d, u);
    ReciprocalAt(P.d, u + 1);
    if geo.dims == 2 {
      diag := FaceSum2Of(B.d[t], Half(P.d, u), P.d[u], P.d[u + 1], B.g[t], P.g[u], P.g[u + 1]);
    } else {
      diag := FaceDiagonal3(geo, a, c);
    }
  }

  /** The diagonal of a face cell on axis a of a 3D grid. */
  method FaceDiagonal3(geo: Geo, a: int, c: Cell) returns (diag: real)
    requires Valid(geo) && Measured(geo) && geo.dims == 3 && 0 <= a < 3 && geo.Box(c)
    ensures diag == FaceDiag(geo, a, c)
  {
    var B, P, Q := geo.Along(a), geo.Along(OtherP(a)), geo.Along(OtherQ(a));
    assert AxisMeasured(B) && AxisMeasured(P) && AxisMeasured(Q);
    var t, u, v := Coord(c, a), Coord(c, OtherP(a)), Coord(c, OtherQ(a));
    ReciprocalAt(B.d, t);
    ReciprocalAt(P.d, u);
    ReciprocalAt(P.d, u + 1);
    ReciprocalAt(Q.d, v);
    ReciprocalAt(Q.d, v + 1);
    diag := FaceSum3Of(B.d[t], Half(P.d, u), Half(Q.d, v), P.d[u], P.d[u + 1], Q.d[v], Q.d[v + 1],
                       B.g[t], P.g[u], P.g[u + 1], Q.g[v], Q.g[v + 1]);
  }

  /** x*y, the source's right-hand side of a boundary row (value times diagonal). */
  method Product(x: real, y: real) returns (r: real)
    ensures r == Prod([x, y])
  {
    r := x * y;
    ProdTwo(x, y);
  }

  /** The frame of a one-cell step: every other row of a and entry of b is unchanged. */
  ghost predicate OnlyRow(a: array2<real>, b: array<real>, A0: Matrix, b0: seq<real>, m: int)
    reads a, b
  {
    IsMatrix(A0, a.Length0, a.Length1) && |b0| == b.Length &&
    (forall r, col :: 0 <= r < a.Length0 && 0 <= col < a.Length1 && r != m ==> a[r, col] == A0[r][col]) &&
    (forall r :: 0 <= r < b.Length && r != m ==> b[r] == b0[r])
  }

  /** A Dirichlet face cell whose row is unset: a[m][m] = diag, b[m] = value*diag. */
  method PinCell(a: array2<real>, b: array<real>, geo: Geo, st: Stage, c: Cell, ghost l: Line)
    requires Valid(geo) && Measured(geo) && StageOk(geo, st) && Claims(geo, st) && !st.gradient
    requires a.Length0 == geo.Size() && a.Length1 == geo.Size() && b.Length == geo.Size()
    requires geo.Box(c) && OnFace(geo, st, c) && Shows(a, b, geo, c, l) && Diagonal(geo, l, c) == 0.0
    modifies a, b
    ensures Shows(a, b, geo, c, FaceStep(geo, st, c, l))
    ensures OnlyRow(a, b, old(Contents(a)), old(b[..]), geo.Flat(c))
  {
    var m := geo.Flat(c);
    var diag := FaceDiagonal(geo, st.axis, c);
    var v := geo.Along(st.axis).Value(st.side);
    a[m, m] := diag;
    var rhs := Product(v, diag);
    b[m] := rhs;
    FaceStepPins(geo, st, c, l);
    ghost var row := l.row[m := diag];
    assert forall col :: 0 <= col < a.Length1 ==> a[m, col] == row[col];
  }

  /**
   * A Neumann/Symmetry face cell whose row is unset: a[m][m] = diag, the
   * inward neighbour gets -diag, and b[m] = value*diag for N.
   */
  method GradeCell(a: array2<real>, b: array<real>, geo: Geo, st: Stage, c: Cell, ghost l: Line)
    requires Valid(geo) && Measured(geo) && StageOk(geo, st) && Claims(geo, st) && st.gradient
    requires a.Length0 == geo.Size() && a.Length1 == geo.Size() && b.Length == geo.Size()
    requires geo.Box(c) && OnFace(geo, st, c) && Shows(a, b, geo, c, l) && Diagonal(geo, l, c) == 0.0
    modifies a, b
    ensures Shows(a, b, geo, c, FaceStep(geo, st, c, l))
    ensures OnlyRow(a, b, old(Contents(a)), old(b[..]), geo.Flat(c))
  {
    var m := geo.Flat(c);
    var diag := FaceDiagonal(geo, st.axis, c);
    var v := geo.Along(st.axis).Value(st.side);
    var ci := Inward(geo, st, c);
    IndexInRange(ci, geo.x.N(), geo.y.N(), geo.Ext(2));
    if geo.Flat(ci) == m {
      IndexInjective(ci, c, geo.x.N(), geo.y.N(), geo.Ext(2));
    }
    var inner := geo.Flat(ci);
    a[m, m] := diag;
    a[m, inner] := -diag;
    if SetsRhs(geo, st) {
      var rhs := Product(v, diag);
      b[m] := rhs;
    }
    FaceStepGrades(geo, st, c, l);
    ghost var row := l.row[m := diag][inner := -diag];
    assert forall col :: 0 <= col < a.Length1 ==> a[m, col] == row[col];
  }

  /** One cell of a face pass: only a row whose diagonal is still 0 is written. */
  method FaceCell(a: array2<real>, b: array<real>, geo: Geo, st: Stage, c: Cell, ghost l: Line)
    requires Valid(geo) && Measured(geo) && StageOk(geo, st) && Claims(geo, st)
    requires geo.Box(c) && OnFace(geo, st, c)
    requires a.Length0 == geo.Size() && a.Length1 == geo.Size() && b.Length == geo.Size()
    requires Shows(a, b, geo, c, l)
    modifies a, b
    ensures Shows(a, b, geo, c, FaceStep(geo, st, c, l))
    ensures OnlyRow(a, b, old(Contents(a)), old(b[..]), geo.Flat(c))
  {
    var m := geo.Flat(c);
    if a[m, m] == 0.0 {
      assert Diagonal(geo, l, c) == 0.0;
      if st.gradient {
        GradeCell(a, b, geo, st, c, l);
      } else {
        PinCell(a, b, geo, st, c, l);
      }
    } else {
      FaceStepSkips(geo, st, c, l);
    }
  }

  /** The cell of the face of st with coordinate u on the outer and v on the inner loop axis. */
  function FaceCellAt(geo: Geo, st: Stage, u: int, v: int): (c: Cell)
    requires Valid(geo) && StageOk(geo, st)
    ensures OnFace(geo, st, c) && Coord(c, OtherP(st.axis)) == u && Coord(c, OtherQ(st.axis)) == v
  {
    var f := Face(geo, st);
    if st.axis == 0 then Cell(f, u, v) else if st.axis == 1 then Cell(u, f, v) else Cell(u, v, f)
  }

  /** The loops of a face pass have reached (u, v): c comes earlier in their order. */
  predicate Swept(st: Stage, c: Cell, u: int, v: int) {
    var p, q := OtherP(st.axis), OtherQ(st.axis);
    Coord(c, p) < u || (Coord(c, p) == u && Coord(c, q) < v)
  }

  /** Face pass s has reached (u, v): the cells it has swept show their lines after the pass, the others before it. */
  ghost predicate FaceState(a: array2<real>, b: array<real>, geo: Geo, s: int, u: int, v: int)
    requires Valid(geo) && 0 <= s < 4 * geo.dims
    reads a, b
  {
    forall c :: geo.Box(c) ==>
      Shows(a, b, geo, c, if Swept(StageAt(geo.dims, s), c, u, v) then LineAfter(geo, s + 1, c) else LineAfter(geo, s, c))
  }

  /** One iteration of the inner loop of a face pass: cell (u, v) is written. */
  method FaceRunStep(a: array2<real>, b: array<real>, geo: Geo, s: int, u: int, v: int)
    requires Valid(geo) && Measured(geo) && 0 <= s < 4 * geo.dims
    requires a.Length0 == geo.Size() && a.Length1 == geo.Size() && b.Length == geo.Size()
    requires Claims(geo, StageAt(geo.dims, s))
    requires 0 <= u < geo.Ext(OtherP(StageAt(geo.dims, s).axis)) && 0 <= v < geo.Ext(OtherQ(StageAt(geo.dims, s).axis))
    requires FaceState(a, b, geo, s, u, v)
    modifies a, b
    ensures FaceState(a, b, geo, s, u, v + 1)
  {
    var st := StageAt(geo.dims, s);
    var c := FaceCellAt(geo, st, u, v);
    assert geo.Box(c);
    FaceCell(a, b, geo, st, c, LineAfter(geo, s, c));
    AfterStep(geo, s, c);
    OthersKeep(geo, s, u, v);
  }

  /** Moving the loops from (u, v) to (u, v + 1) sweeps only the cell at (u, v): every other cell has its own row and line. */
  lemma OthersKeep(geo: Geo, s: int, u: int, v: int)
    requires Valid(geo) && 0 <= s < 4 * geo.dims && Claims(geo, StageAt(geo.dims, s))
    requires 0 <= u < geo.Ext(OtherP(StageAt(geo.dims, s).axis)) && 0 <= v < geo.Ext(OtherQ(StageAt(geo.dims, s).axis))
    ensures var st := StageAt(geo.dims, s);
      var c := FaceCellAt(geo, st, u, v);
      forall c' :: geo.Box(c') && c' != c ==>
        geo.Flat(c') != geo.Flat(c) &&
        (Swept(st, c', u, v + 1) != Swept(st, c', u, v) ==> LineAfter(geo, s + 1, c') == LineAfter(geo, s, c'))
  {
    var st := StageAt(geo.dims, s);
    var c := FaceCellAt(geo, st, u, v);
    assert geo.Box(c);
    forall c' | geo.Box(c') && c' != c
      ensures geo.Flat(c') != geo.Flat(c)
      ensures Swept(st, c', u, v + 1) != Swept(st, c', u, v) ==> LineAfter(geo, s + 1, c') == LineAfter(geo, s, c')
    {
      if geo.Flat(c') == geo.Flat(c) {
        IndexInjective(c', c, geo.x.N(), geo.y.N(), geo.Ext(2));
      }
      if Swept(st, c', u, v + 1) != Swept(st, c', u, v) {
        AfterOffFace(geo, s, c');
      }
    }
  }

  /** The inner loop of a face pass. */
  method FaceRun(a: array2<real>, b: array<real>, geo: Geo, s: int, u: int)
    requires Valid(geo) && Measured(geo) && 0 <= s < 4 * geo.dims
    requires a.Length0 == geo.Size() && a.Length1 == geo.Size() && b.Length == geo.Size()
    requires Claims(geo, StageAt(geo.dims, s)) && 0 <= u < geo.Ext(OtherP(StageAt(geo.dims, s).axis))
    requires FaceState(a, b, geo, s, u, 0)
    modifies a, b
    ensures FaceState(a, b, geo, s, u + 1, 0)
  {
    var q := OtherQ(StageAt(geo.dims, s).axis);
    for v := 0 to geo.Ext(q)
      invariant FaceState(a, b, geo, s, u, v)
    {
      FaceRunStep(a, b, geo, s, u, v);
    }
  }

  /** Every cell shows its line after the first s face passes. */
  ghost predicate PassState(a: array2<real>, b: array<real>, geo: Geo, s: int)
    requires Valid(geo) && 0 <= s <= 4 * geo.dims
    reads a, b
  {
    forall c :: geo.Box(c) ==> Shows(a, b, geo, c, LineAfter(geo, s, c))
  }

  /** Face pass s: the nested loops over its face, run only when its condition holds. */
  method FaceSweep(a: array2<real>, b: array<real>, geo: Geo, s: int)
    requires Valid(geo) && Measured(geo) && 0 <= s < 4 * geo.dims
    requires a.Length0 == geo.Size() && a.Length1 == geo.Size() && b.Length == geo.Size()
    requires PassState(a, b, geo, s)
    modifies a, b
    ensures PassState(a, b, geo, s + 1)
  {
    var st := StageAt(geo.dims, s);
    if Claims(geo, st) {
      assert FaceState(a, b, geo, s, 0, 0);
      for u := 0 to geo.Ext(OtherP(st.axis))
        invariant FaceState(a, b, geo, s, u, 0)
      {
        FaceRun(a, b, geo, s, u);
      }
      assert FaceState(a, b, geo, s, geo.Ext(OtherP(st.axis)), 0);
    } else {
      forall c | geo.Box(c)
        ensures LineAfter(geo, s + 1, c) == LineAfter(geo, s, c)
      {
        AfterOffFace(geo, s, c);
      }
    }
  }

  /** All face passes, from zeroed a and b. */
  method FacePasses(a: array2<real>, b: array<real>, geo: Geo)
    requires Valid(geo) && Measured(geo)
    requires a.Length0 == geo.Size() && a.Length1 == geo.Size() && b.Length == geo.Size()
    requires forall r, col :: 0 <= r < a.Length0 && 0 <= col < a.Length1 ==> a[r, col] == 0.0
    requires forall r :: 0 <= r < b.Length ==> b[r] == 0.0
    modifies a, b
    ensures forall c :: geo.Box(c) ==> Shows(a, b, geo, c, Faces(geo, c))
  {
    forall c | geo.Box(c)
      ensures Shows(a, b, geo, c, LineAfter(geo, 0, c))
    {
      IndexInRange(c, geo.x.N(), geo.y.N(), geo.Ext(2));
    }
    for s := 0 to 4 * geo.dims
      invariant PassState(a, b, geo, s)
    {
      FaceSweep(a, b, geo, s);
    }
  }

  lemma OverSpacing2(p: real, h: real, g: real)
    requires h > 0.0 && g == 1.0 / h
    ensures -p / h == -Prod([p, g])
  {
    ProdTwo(p, g);
    DivByReciprocal(-p, h, g);
  }

  lemma OverSpacing3(p: real, q: real, h: real, g: real)
    requires h > 0.0 && g == 1.0 / h
    ensures -p * q / h == -Prod([p, q, g])
  {
    ProdThree(p, q, g);
    DivByReciprocal(-p * q, h, g);
  }

  /** The 2D couplings and f*ax*ay, computed as matvec_2d does, by dividing by the spacings. */
  method Couple2(f: real, ax: real, ay: real, x0: real, x1: real, y0: real, y1: real,
                 ghost gx0: real, ghost gx1: real, ghost gy0: real, ghost gy1: real) returns (ws: seq<real>, rhs: real)
    requires x0 > 0.0 && x1 > 0.0 && y0 > 0.0 && y1 > 0.0
    requires gx0 == 1.0 / x0 && gx1 == 1.0 / x1 && gy0 == 1.0 / y0 && gy1 == 1.0 / y1
    ensures ws == Couplings2(ax, ay, gx0, gx1, gy0, gy1)
    ensures rhs == Prod([f, Prod([ax, ay])])
  {
    ws := [-ay / x0, -ay / x1, -ax / y0, -ax / y1];
    rhs := f * ax * ay;
    OverSpacing2(ay, x0, gx0);
    OverSpacing2(ay, x1, gx1);
    OverSpacing2(ax, y0, gy0);
    OverSpacing2(ax, y1, gy1);
    ProdTwo(ax, ay);
    ProdTwo(f, ax * ay);
  }

  /** The 3D couplings and f*ax*ay*az, computed as matvec_3d does. */
  method Couple3(f: real, ax: real, ay: real, az: real, x0: real, x1: real, y0: real, y1: real, z0: real, z1: real,
                 ghost gx0: real, ghost gx1: real, ghost gy0: real, ghost gy1: real, ghost gz0: real, ghost gz1: real)
    returns (ws: seq<real>, rhs: real)
    requires x0 > 0.0 && x1 > 0.0 && y0 > 0.0 && y1 > 0.0 && z0 > 0.0 && z1 > 0.0
    requires gx0 == 1.0 / x0 && gx1 == 1.0 / x1 && gy0 == 1.0 / y0 && gy1 == 1.0 / y1
    requires gz0 == 1.0 / z0 && gz1 == 1.0 / z1
    ensures ws == Couplings3(ax, ay, az, gx0, gx1, gy0, gy1, gz0, gz1)
    ensures rhs == Prod([f, Prod([ax, ay, az])])
  {
    ws := [-ay * az / x0, -ay * az / x1, -ax * az / y0, -ax * az / y1, -ax * ay / z0, -ax * ay / z1];
    rhs := f * ax * ay * az;
    OverSpacing3(ay, az, x0, gx0);
    OverSpacing3(ay, az, x1, gx1);
    OverSpacing3(ax, az, y0, gy0);
    OverSpacing3(ax, az, y1, gy1);
    OverSpacing3(ax, ay, z0, gz0);
    OverSpacing3(ax, ay, z1, gz1);
    ProdThree(ax, ay, az);
    ProdTwo(f, ax * ay * az);
  }

  /** The interior weights of c and its b entry, on the spacings wrapped round repeating axes. */
  method StencilWeights(geo: Geo, c: Cell) returns (ws: seq<real>, rhs: real)
    requires Valid(geo) && Measured(geo) && geo.Box(c)
    ensures ws == Weights(geo, c) && rhs == Prod([geo.f, Volume(geo, c)])
  {
    var xd, yd := WrapD(geo.x), WrapD(geo.y);
    ghost var xg, yg := WrapG(geo.x), WrapG(geo.y);
    var ax, ay := Width(geo, c, 0), Width(geo, c, 1);
    WrapReciprocal(geo.x, c.i);
    WrapReciprocal(geo.x, c.i + 1);
    WrapReciprocal(geo.y, c.j);
    WrapReciprocal(geo.y, c.j + 1);
    if geo.dims == 2 {
      ws, rhs := Couple2(geo.f, ax, ay, xd[c.i], xd[c.i + 1], yd[c.j], yd[c.j + 1], xg[c.i], xg[c.i + 1], yg[c.j], yg[c.j + 1]);
    } else {
      var zd := WrapD(geo.z);
      ghost var zg := WrapG(geo.z);
      var az := Width(geo, c, 2);
      WrapReciprocal(geo.z, c.k);
      WrapReciprocal(geo.z, c.k + 1);
      ws, rhs := Couple3(geo.f, ax, ay, az, xd[c.i], xd[c.i + 1], yd[c.j], yd[c.j + 1], zd[c.k], zd[c.k + 1],
                         xg[c.i], xg[c.i + 1], yg[c.j], yg[c.j + 1], zg[c.k], zg[c.k + 1]);
    }
  }

  /** The interior writes of matvec_2d in row m: w, e, s, n, then the diagonal read back from them, then b[m]. */
  method InteriorWrites2(a: array2<real>, b: array<real>, m: int, cols: seq<int>, ws: seq<real>, rhs: real, ghost row: seq<real>)
    requires 0 <= m < a.Length0 && m < a.Length1 && m < b.Length
    requires |cols| == 4 && |ws| == 4 && forall t :: 0 <= t < 4 ==> 0 <= cols[t] < a.Length1
    requires |row| == a.Length1 && forall col :: 0 <= col < a.Length1 ==> a[m, col] == row[col]
    modifies a, b
    ensures forall col :: 0 <= col < a.Length1 ==>
      a[m, col] == Spread(row, cols, ws, |cols|)[m := -Gathered(Spread(row, cols, ws, |cols|), cols, |cols|)][col]
    ensures b[m] == rhs
    ensures OnlyRow(a, b, old(Contents(a)), old(b[..]), m)
  {
    var mw, me, ms, mn := cols[0], cols[1], cols[2], cols[3];
    ghost var r := row;
    a[m, mw] := ws[0];
    r := r[mw := ws[0]];
    assert forall col :: 0 <= col < a.Length1 ==> a[m, col] == r[col];
    a[m, me] := ws[1];
    r := r[me := ws[1]];
    assert forall col :: 0 <= col < a.Length1 ==> a[m, col] == r[col];
    a[m, ms] := ws[2];
    r := r[ms := ws[2]];
    assert forall col :: 0 <= col < a.Length1 ==> a[m, col] == r[col];
    a[m, mn] := ws[3];
    r := r[mn := ws[3]];
    assert forall col :: 0 <= col < a.Length1 ==> a[m, col] == r[col];
    SpreadFour(row, cols, ws);
    GatheredFour(r, cols);
    a[m, m] := -a[m, me] - a[m, mw] - a[m, ms] - a[m, mn];
    b[m] := rhs;
  }

  /** The interior writes of matvec_3d in row m: w, e, s, n, d, u, then the diagonal, then b[m]. */
  method InteriorWrites3(a: array2<real>, b: array<real>, m: int, cols: seq<int>, ws: seq<real>, rhs: real, ghost row: seq<real>)
    requires 0 <= m < a.Length0 && m < a.Length1 && m < b.Length
    requires |cols| == 6 && |ws| == 6 && forall t :: 0 <= t < 6 ==> 0 <= cols[t] < a.Length1
    requires |row| == a.Length1 && forall col :: 0 <= col < a.Length1 ==> a[m, col] == row[col]
    modifies a, b
    ensures forall col :: 0 <= col < a.Length1 ==>
      a[m, col] == Spread(row, cols, ws, |cols|)[m := -Gathered(Spread(row, cols, ws, |cols|), cols, |cols|)][col]
    ensures b[m] == rhs
    ensures OnlyRow(a, b, old(Contents(a)), old(b[..]), m)
  {
    var mw, me, ms, mn, md, mu := cols[0], cols[1], cols[2], cols[3], cols[4], cols[5];
    ghost var r := row;
    a[m, mw] := ws[0];
    r := r[mw := ws[0]];
    assert forall col :: 0 <= col < a.Length1 ==> a[m, col] == r[col];
    a[m, me] := ws[1];
    r := r[me := ws[1]];
    assert forall col :: 0 <= col < a.Length1 ==> a[m, col] == r[col];
    a[m, ms] := ws[2];
    r := r[ms := ws[2]];
    assert forall col :: 0 <= col < a.Length1 ==> a[m, col] == r[col];
    a[m, mn] := ws[3];
    r := r[mn := ws[3]];
    assert forall col :: 0 <= col < a.Length1 ==> a[m, col] == r[col];
    a[m, md] := ws[4];
    r := r[md := ws[4]];
    assert forall col :: 0 <= col < a.Length1 ==> a[m, col] == r[col];
    a[m, mu] := ws[5];
    r := r[mu := ws[5]];
    assert forall col :: 0 <= col < a.Length1 ==> a[m, col] == r[col];
    SpreadSix(row, cols, ws);
    GatheredSix(r, cols);
    a[m, m] := -a[m, me] - a[m, mw] - a[m, ms] - a[m, mn] - a[m, md] - a[m, mu];
    b[m] := rhs;
  }

  /** An interior cell whose row is unset: the weights, the diagonal and b[m]. */
  method StencilCell(a: array2<real>, b: array<real>, geo: Geo, c: Cell, ghost l: Line)
    requires Valid(geo) && Measured(geo) && geo.Box(c)
    requires a.Length0 == geo.Size() && a.Length1 == geo.Size() && b.Length == geo.Size()
    requires Shows(a, b, geo, c, l) && Diagonal(geo, l, c) == 0.0
    modifies a, b
    ensures Shows(a, b, geo, c, StencilStep(geo, c, l))
    ensures OnlyRow(a, b, old(Contents(a)), old(b[..]), geo.Flat(c))
  {
    var m := geo.Flat(c);
    var cols := Around(geo, c);
    var ws, rhs := StencilWeights(geo, c);
    if geo.dims == 2 {
      InteriorWrites2(a, b, m, cols, ws, rhs, l.row);
    } else {
      InteriorWrites3(a, b, m, cols, ws, rhs, l.row);
    }
    StencilRow(geo, c, l);
    StencilRhs(geo, c, l);
  }

  /** One cell of the interior pass: only a row whose diagonal is still 0 is written. */
  method InteriorCell(a: array2<real>, b: array<real>, geo: Geo, c: Cell, ghost l: Line)
    requires Valid(geo) && Measured(geo) && geo.Box(c)
    requires a.Length0 == geo.Size() && a.Length1 == geo.Size() && b.Length == geo.Size()
    requires Shows(a, b, geo, c, l)
    modifies a, b
    ensures Shows(a, b, geo, c, StencilStep(geo, c, l))
    ensures OnlyRow(a, b, old(Contents(a)), old(b[..]), geo.Flat(c))
  {
    var m := geo.Flat(c);
    if a[m, m] == 0.0 {
      assert Diagonal(geo, l, c) == 0.0;
      StencilCell(a, b, geo, c, l);
    } else {
      StencilSkips(geo, c, l);
    }
  }

  /** The interior loops have reached (i, j, k): c comes earlier in their order. */
  predicate Before(c: Cell, i: int, j: int, k: int) {
    c.i < i || (c.i == i && (c.j < j || (c.j == j && c.k < k)))
  }

  /** The interior pass has reached (i, j, k): earlier cells show their final line, the others their face line. */
  ghost predicate InteriorState(a: array2<real>, b: array<real>, geo: Geo, i: int, j: int, k: int)
    requires Valid(geo)
    reads a, b
  {
    forall c :: geo.Box(c) ==> Shows(a, b, geo, c, if Before(c, i, j, k) then Base(geo, c) else Faces(geo, c))
  }

  /** One iteration of the innermost interior loop: cell (i, j, k) is written. */
  method InteriorStep(a: array2<real>, b: array<real>, geo: Geo, i: int, j: int, k: int)
    requires Valid(geo) && Measured(geo) && geo.Box(Cell(i, j, k))
    requires a.Length0 == geo.Size() && a.Length1 == geo.Size() && b.Length == geo.Size()
    requires InteriorState(a, b, geo, i, j, k)
    modifies a, b
    ensures InteriorState(a, b, geo, i, j, k + 1)
  {
    var c := Cell(i, j, k);
    InteriorCell(a, b, geo, c, Faces(geo, c));
    forall c' | geo.Box(c') && c' != c
      ensures geo.Flat(c') != geo.Flat(c)
    {
      if geo.Flat(c') == geo.Flat(c) {
        IndexInjective(c', c, geo.x.N(), geo.y.N(), geo.Ext(2));
      }
    }
  }

  /** The innermost interior loop (over k; a single pass in 2D). */
  method InteriorColumn(a: array2<real>, b: array<real>, geo: Geo, i: int, j: int)
    requires Valid(geo) && Measured(geo) && 0 <= i < geo.x.N() && 0 <= j < geo.y.N()
    requires a.Length0 == geo.Size() && a.Length1 == geo.Size() && b.Length == geo.Size()
    requires InteriorState(a, b, geo, i, j, 0)
    modifies a, b
    ensures InteriorState(a, b, geo, i, j + 1, 0)
  {
    for k := 0 to geo.Ext(2)
      invariant InteriorState(a, b, geo, i, j, k)
    {
      InteriorStep(a, b, geo, i, j, k);
    }
  }

  /** The loop over j. */
  method InteriorPlane(a: array2<real>, b: array<real>, geo: Geo, i: int)
    requires Valid(geo) && Measured(geo) && 0 <= i < geo.x.N()
    requires a.Length0 == geo.Size() && a.Length1 == geo.Size() && b.Length == geo.Size()
    requires InteriorState(a, b, geo, i, 0, 0)
    modifies a, b
    ensures InteriorState(a, b, geo, i + 1, 0, 0)
  {
    for j := 0 to geo.y.N()
      invariant InteriorState(a, b, geo, i, j, 0)
    {
      InteriorColumn(a, b, geo, i, j);
    }
  }

  /** The interior pass: the loop over i. */
  method InteriorPass(a: array2<real>, b: array<real>, geo: Geo)
    requires Valid(geo) && Measured(geo)
    requires a.Length0 == geo.Size() && a.Length1 == geo.Size() && b.Length == geo.Size()
    requires forall c :: geo.Box(c) ==> Shows(a, b, geo, c, Faces(geo, c))
    modifies a, b
    ensures forall c :: geo.Box(c) ==> Shows(a, b, geo, c, Base(geo, c))
  {
    assert InteriorState(a, b, geo, 0, 0, 0);
    for i := 0 to geo.x.N()
      invariant InteriorState(a, b, geo, i, 0, 0)
    {
      InteriorPlane(a, b, geo, i);
    }
    assert InteriorState(a, b, geo, geo.x.N(), 0, 0);
  }

  /** A row after zeroing the columns cs in order: zero exactly at cs. */
  lemma ClearedRow(row: seq<real>, cs: seq<int>, R: seq<real>)
    requires |cs| == 4 || |cs| == 6
    requires forall t :: 0 <= t < |cs| ==> 0 <= cs[t] < |row|
    requires R == if |cs| == 4 then row[cs[0] := 0.0][cs[1] := 0.0][cs[2] := 0.0][cs[3] := 0.0]
                  else row[cs[0] := 0.0][cs[1] := 0.0][cs[2] := 0.0][cs[3] := 0.0][cs[4] := 0.0][cs[5] := 0.0]
    ensures |R| == |row| && forall col :: 0 <= col < |row| ==> R[col] == if col in cs then 0.0 else row[col]
  {
  }

  /**
   * The writes of the fix: a[m][c] = 0 for the columns cs in order, then
   * b[m] = b[m]*a[m][m] (with the diagonal as the clearing leaves it).
   */
  method ClearRow(a: array2<real>, b: array<real>, m: int, cs: seq<int>, ghost A0: Matrix, ghost b0: seq<real>)
    requires 0 <= m < a.Length0 && m < a.Length1 && m < b.Length
    requires (|cs| == 4 || |cs| == 6) && forall t :: 0 <= t < |cs| ==> 0 <= cs[t] < a.Length1
    requires A0 == Contents(a) && b0 == b[..]
    modifies a, b
    ensures forall r, col :: 0 <= r < a.Length0 && 0 <= col < a.Length1 ==>
      a[r, col] == if r == m && col in cs then 0.0 else A0[r][col]
    ensures forall r :: 0 <= r < b.Length ==>
      b[r] == if r == m then Prod([b0[m], if m in cs then 0.0 else A0[m][m]]) else b0[r]
  {
    ghost var R := A0[m];
    a[m, cs[0]] := 0.0;
    R := R[cs[0] := 0.0];
    assert forall col :: 0 <= col < a.Length1 ==> a[m, col] == R[col];
    a[m, cs[1]] := 0.0;
    R := R[cs[1] := 0.0];
    assert forall col :: 0 <= col < a.Length1 ==> a[m, col] == R[col];
    a[m, cs[2]] := 0.0;
    R := R[cs[2] := 0.0];
    assert forall col :: 0 <= col < a.Length1 ==> a[m, col] == R[col];
    a[m, cs[3]] := 0.0;
    R := R[cs[3] := 0.0];
    assert forall col :: 0 <= col < a.Length1 ==> a[m, col] == R[col];
    if |cs| == 6 {
      a[m, cs[4]] := 0.0;
      R := R[cs[4] := 0.0];
      assert forall col :: 0 <= col < a.Length1 ==> a[m, col] == R[col];
      a[m, cs[5]] := 0.0;
      R := R[cs[5] := 0.0];
      assert forall col :: 0 <= col < a.Length1 ==> a[m, col] == R[col];
    }
    ClearedRow(A0[m], cs, R);
    var v, w := b[m], a[m, m];
    var rhs := Product(v, w);
    b[m] := rhs;
  }

  /** The fix of matvec_2d at (i, j): row m = mij(i, j) and its neighbours mw, me, ms, mn, as Python indexes them. */
  method ClearFixed2(a: array2<real>, b: array<real>, geo: Geo, i: int, j: int, ghost A0: Matrix, ghost b0: seq<real>)
    requires Valid(geo) && Fixing(geo) && geo.dims == 2 && i == geo.x.fix && j == geo.y.fix
    requires a.Length0 == geo.Size() && a.Length1 == geo.Size() && b.Length == geo.Size()
    requires A0 == Contents(a) && b0 == b[..]
    modifies a, b
    ensures forall r, col :: 0 <= r < geo.Size() && 0 <= col < geo.Size() ==>
      a[r, col] == if FixedEntry(geo, r, col) then 0.0 else A0[r][col]
    ensures forall r :: 0 <= r < geo.Size() ==>
      b[r] == if r == FixRow(geo) then Prod([b0[r], if FixedEntry(geo, r, r) then 0.0 else A0[r][r]]) else b0[r]
  {
    var n, nx := geo.Size(), geo.x.N();
    var m := Mij(i, j, nx);
    var me, mw, mn, ms := Mij(i + 1, j, nx), Mij(i - 1, j, nx), Mij(i, j + 1, nx), Mij(i, j - 1, nx);
    MijkShifts(i, j, 0, nx, geo.y.N());
    ReachBounds(geo);
    var row := PyIndex(m, n);
    var cs := [PyIndex(mw, n), PyIndex(me, n), PyIndex(ms, n), PyIndex(mn, n)];
    assert row == FixRow(geo) && cs == Cleared(geo);
    ClearRow(a, b, row, cs, A0, b0);
  }

  /** The fix of matvec_3d at (i, j, k): row m = mijk(i, j, k) and its six neighbours. */
  method ClearFixed3(a: array2<real>, b: array<real>, geo: Geo, i: int, j: int, k: int, ghost A0: Matrix, ghost b0: seq<real>)
    requires Valid(geo) && Fixing(geo) && geo.dims == 3 && i == geo.x.fix && j == geo.y.fix && k == geo.z.fix
    requires a.Length0 == geo.Size() && a.Length1 == geo.Size() && b.Length == geo.Size()
    requires A0 == Contents(a) && b0 == b[..]
    modifies a, b
    ensures forall r, col :: 0 <= r < geo.Size() && 0 <= col < geo.Size() ==>
      a[r, col] == if FixedEntry(geo, r, col) then 0.0 else A0[r][col]
    ensures forall r :: 0 <= r < geo.Size() ==>
      b[r] == if r == FixRow(geo) then Prod([b0[r], if FixedEntry(geo, r, r) then 0.0 else A0[r][r]]) else b0[r]
  {
    var n, nx, ny := geo.Size(), geo.x.N(), geo.y.N();
    var m := Mijk(i, j, k, nx, ny);
    var me, mw, mn, ms := Mijk(i + 1, j, k, nx, ny), Mijk(i - 1, j, k, nx, ny), Mijk(i, j + 1, k, nx, ny), Mijk(i, j - 1, k, nx, ny);
    var mu, md := Mijk(i, j, k + 1, nx, ny), Mijk(i, j, k - 1, nx, ny);
    MijkShifts(i, j, k, nx, ny);
    ReachBounds(geo);
    var row := PyIndex(m, n);
    var cs := [PyIndex(mw, n), PyIndex(me, n), PyIndex(ms, n), PyIndex(mn, n), PyIndex(md, n), PyIndex(mu, n)];
    assert row == FixRow(geo) && cs == Cleared(geo);
    ClearRow(a, b, row, cs, A0, b0);
  }

  /** The degeneracy fix, under the source's nested tests. */
  method FixDegenerate(a: array2<real>, b: array<real>, geo: Geo, ghost A0: Matrix, ghost b0: seq<real>)
    requires Valid(geo)
    requires a.Length0 == geo.Size() && a.Length1 == geo.Size() && b.Length == geo.Size()
    requires A0 == Contents(a) && b0 == b[..]
    requires forall r :: 0 <= r < geo.Size() ==> b0[r] == BaseAt(geo, r).rhs
    requires forall r :: 0 <= r < geo.Size() ==> A0[r][r] == BaseAt(geo, r).row[r]
    modifies a, b
    ensures forall r, col :: 0 <= r < geo.Size() && 0 <= col < geo.Size() ==>
      a[r, col] == if FixedEntry(geo, r, col) then 0.0 else A0[r][col]
    ensures forall r :: 0 <= r < geo.Size() ==> b[r] == Rhs(geo, r)
  {
    if !geo.degen {
      if !geo.x.bc.HasDirichlet() {
        var i := geo.x.fix;
        if !geo.y.bc.HasDirichlet() {
          var j := geo.y.fix;
          if geo.dims == 2 {
            ClearFixed2(a, b, geo, i, j, A0, b0);
            return;
          } else if !geo.z.bc.HasDirichlet() {
            var k := geo.z.fix;
            ClearFixed3(a, b, geo, i, j, k, A0, b0);
            return;
          }
        }
      }
    }
    assert !Fixing(geo);
  }

  /** The per-cell lines, read row by row. */
  lemma RowsShow(a: array2<real>, b: array<real>, geo: Geo)
    requires Valid(geo) && a.Length0 == geo.Size() && a.Length1 == geo.Size() && b.Length == geo.Size()
    requires forall c :: geo.Box(c) ==> Shows(a, b, geo, c, Base(geo, c))
    ensures forall r, col :: 0 <= r < geo.Size() && 0 <= col < geo.Size() ==> a[r, col] == BaseAt(geo, r).row[col]
    ensures forall r :: 0 <= r < geo.Size() ==> b[r] == BaseAt(geo, r).rhs
  {
    forall r | 0 <= r < geo.Size()
      ensures (forall col :: 0 <= col < geo.Size() ==> a[r, col] == BaseAt(geo, r).row[col]) && b[r] == BaseAt(geo, r).rhs
    {
      CellOfInBox(r, geo.x.N(), geo.y.N(), geo.Ext(2));
      assert Shows(a, b, geo, CellOf(r, geo.x.N(), geo.y.N()), BaseAt(geo, r));
    }
  }

  /** The face passes and the interior pass, from zeroed a and b. */
  method FillGrid(geo: Geo) returns (a: array2<real>, b: array<real>)
    requires Valid(geo) && Measured(geo)
    ensures fresh(a) && fresh(b) && a.Length0 == geo.Size() && a.Length1 == geo.Size() && b.Length == geo.Size()
    ensures forall r, col :: 0 <= r < geo.Size() && 0 <= col < geo.Size() ==> a[r, col] == BaseAt(geo, r).row[col]
    ensures forall r :: 0 <= r < geo.Size() ==> b[r] == BaseAt(geo, r).rhs
  {
    SizePositive(geo);
    var n := geo.Size();
    a := new real[n, n]((_, _) => 0.0);
    b := new real[n](_ => 0.0);
    FacePasses(a, b, geo);
    InteriorPass(a, b, geo);
    RowsShow(a, b, geo);
  }

  /** The degeneracy fix on the arrays FillGrid leaves, read out as values. */
  method FinishGrid(geo: Geo, a: array2<real>, b: array<real>) returns (A: Matrix, v: seq<real>)
    requires Valid(geo) && a.Length0 == geo.Size() && a.Length1 == geo.Size() && b.Length == geo.Size()
    requires forall r, col :: 0 <= r < geo.Size() && 0 <= col < geo.Size() ==> a[r, col] == BaseAt(geo, r).row[col]
    requires forall r :: 0 <= r < geo.Size() ==> b[r] == BaseAt(geo, r).rhs
    modifies a, b
    ensures A == Operator(geo) && v == RhsVector(geo)
  {
    var n := geo.Size();
    ghost var A0 := Contents(a);
    FixDegenerate(a, b, geo, A0, b[..]);
    A := Contents(a);
    v := b[..];
    MatrixEqual(A, Operator(geo), n);
    assert forall r :: 0 <= r < n ==> v[r] == RhsVector(geo)[r];
  }

  /** matvec_2d / matvec_3d up to the scaling: the system the routines assemble. */
  method Assemble(geo: Geo) returns (A: Matrix, v: seq<real>)
    requires Valid(geo) && Measured(geo)
    ensures A == Operator(geo) && v == RhsVector(geo)
  {
    var a, b := FillGrid(geo);
    A, v := FinishGrid(geo, a, b);
  }
}
