/**
 * matvec_2d and matvec_3d of L-QLES/matvec.py end to end: each axis's
 * boundary tokens are validated in turn (x, then y, then z), the spacings
 * are computed, the system is assembled and both a and b are divided by
 * amax, the largest entry of a.
 */
module MatVecGrid {
  import opened Bcs
  import opened Linear
  import opened Spacing
  import opened Normalise
  import opened Assembly
  import opened Fill
  import opened Stencil

  /** What the routine reads for one axis: the node coordinates and its dict (btype tokens, bvalue, degfix). */
  datatype AxisInput = AxisInput(coords: seq<real>, lowTok: string, highTok: string, low: real, high: real, fix: int)

  function Checked(a: AxisInput, name: string): Result<BcPair> {
    CheckBcs(a.lowTok, a.highTok, name)
  }

  /** Coordinates the face loops can step through: two or more increasing nodes, three or more on a repeating axis. */
  predicate AxisAdmissible(xs: seq<real>, bc: BcPair) {
    |xs| >= 2 && Increasing(xs) && (bc.Periodic() ==> |xs| >= 3)
  }

  /** The axis the routine sets up: padded spacings, their reciprocals, the validated types and the dict's values. */
  function AxisOf(a: AxisInput, bc: BcPair): (ax: Axis)
    requires AxisAdmissible(a.coords, bc) && Consistent(bc)
    ensures AxisOk(ax) && AxisMeasured(ax) && ax.N() == |a.coords| && ax.d == SpacingOf(a.coords)
    ensures ax.bc == bc && ax.low == a.low && ax.high == a.high && ax.fix == a.fix
  {
    var d := SpacingOf(a.coords);
    SpacingPositive(d, a.coords);
    ReciprocalsPositive(d);
    Axis(d, Reciprocals(d), bc, a.low, a.high, a.fix)
  }

  /** The 2D grid (its z axis is a placeholder the 2D routines never read). */
  function Geo2(xa: AxisInput, ya: AxisInput, bcx: BcPair, bcy: BcPair, f: real, degen: bool): (geo: Geo)
    requires AxisAdmissible(xa.coords, bcx) && Consistent(bcx) && AxisAdmissible(ya.coords, bcy) && Consistent(bcy)
    ensures geo.dims == 2 && Measured(geo) && (Valid(geo) <==> FixInRange(geo))
    ensures geo.Size() == |xa.coords| * |ya.coords|
  {
    var ax := AxisOf(xa, bcx);
    Geo(2, ax, AxisOf(ya, bcy), ax, f, degen, AsWritten)
  }

  function Geo3(xa: AxisInput, ya: AxisInput, za: AxisInput, bcx: BcPair, bcy: BcPair, bcz: BcPair, f: real, degen: bool, reading: Reading): (geo: Geo)
    requires AxisAdmissible(xa.coords, bcx) && Consistent(bcx) && AxisAdmissible(ya.coords, bcy) && Consistent(bcy)
    requires AxisAdmissible(za.coords, bcz) && Consistent(bcz)
    ensures geo.dims == 3 && Measured(geo) && (Valid(geo) <==> FixInRange(geo))
    ensures geo.Size() == |xa.coords| * |ya.coords| * |za.coords|
  {
    Geo(3, AxisOf(xa, bcx), AxisOf(ya, bcy), AxisOf(za, bcz), f, degen, reading)
  }

  /** The axis as a method computes it: the spacing loop, then the reciprocals. */
  method MakeAxis(a: AxisInput, bc: BcPair) returns (ax: Axis)
    requires AxisAdmissible(a.coords, bc) && Consistent(bc)
    ensures ax == AxisOf(a, bc)
  {
    var d := Spacings(a.coords);
    SpacingPositive(d, a.coords);
    ax := Axis(d, Reciprocals(d), bc, a.low, a.high, a.fix);
  }

  /** The system both routines return: a / amax and b / amax. amax > 0, and the scaled matrix's largest entry is 1. */
  function Scaled(geo: Geo): (r: (Matrix, seq<real>))
    requires Valid(geo)
    ensures MaxEntry(Operator(geo), geo.Size()) > 0.0
    ensures IsMatrix(r.0, geo.Size(), geo.Size()) && |r.1| == geo.Size()
    ensures MaxEntry(r.0, geo.Size()) == 1.0
  {
    MaxPositive(geo);
    var amax := MaxEntry(Operator(geo), geo.Size());
    ScaledMax(Operator(geo), geo.Size());
    (ScaleMatrix(Operator(geo), amax), ScaleVector(RhsVector(geo), amax))
  }

  /** Scaling keeps the solutions: x solves the scaled system exactly when it solves the assembled one. */
  lemma ScaledSystemSolutions(geo: Geo, x: seq<real>)
    requires Valid(geo) && |x| == geo.Size()
    ensures MatVec(Operator(geo), x, geo.Size()) == RhsVector(geo) <==> MatVec(Scaled(geo).0, x, geo.Size()) == Scaled(geo).1
  {
    MaxPositive(geo);
    ScaledSolutions(Operator(geo), RhsVector(geo), x, geo.Size(), MaxEntry(Operator(geo), geo.Size()));
  }

  /** The last step of both routines: assemble on arrays, then divide a and b by amax. */
  method Scale(geo: Geo) returns (A: Matrix, b: seq<real>)
    requires Valid(geo) && Measured(geo)
    ensures (A, b) == Scaled(geo)
  {
    var A0, b0 := Assemble(geo);
    MaxPositive(geo);
    var amax := MaxEntry(A0, geo.Size());
    A, b := ScaleMatrix(A0, amax), ScaleVector(b0, amax);
  }

  /**
   * matvec_2d: the first token error (x before y), or the assembled system
   * divided by its largest entry.
   */
  method MatVec2D(xa: AxisInput, ya: AxisInput, f: real, degen: bool) returns (res: Result<(Matrix, seq<real>)>)
    requires Checked(xa, "x").Ok? && Checked(ya, "y").Ok? ==>
      AxisAdmissible(xa.coords, Checked(xa, "x").value) && AxisAdmissible(ya.coords, Checked(ya, "y").value) &&
      FixInRange(Geo2(xa, ya, Checked(xa, "x").value, Checked(ya, "y").value, f, degen))
    ensures Checked(xa, "x").Err? ==> res == Err(Checked(xa, "x").error)
    ensures Checked(xa, "x").Ok? && Checked(ya, "y").Err? ==> res == Err(Checked(ya, "y").error)
    ensures Checked(xa, "x").Ok? && Checked(ya, "y").Ok? ==>
      res == Ok(Scaled(Geo2(xa, ya, Checked(xa, "x").value, Checked(ya, "y").value, f, degen)))
  {
    var cx := Checked(xa, "x");
    if cx.Err? {
      return Err(cx.error);
    }
    var cy := Checked(ya, "y");
    if cy.Err? {
      return Err(cy.error);
    }
    var ax := MakeAxis(xa, cx.value);
    var ay := MakeAxis(ya, cy.value);
    var geo := Geo(2, ax, ay, ax, f, degen, AsWritten);
    assert geo == Geo2(xa, ya, cx.value, cy.value, f, degen);
    var A, b := Scale(geo);
    res := Ok((A, b));
  }

  /**
   * matvec_3d: the first token error (x, then y, then z), or the scaled
   * system. With reading == AsWritten the z-face Neumann test is the
   * source's bcy[jb]; with Intended it is the z end's own type.
   */
  method MatVec3D(xa: AxisInput, ya: AxisInput, za: AxisInput, f: real, degen: bool, reading: Reading) returns (res: Result<(Matrix, seq<real>)>)
    requires Checked(xa, "x").Ok? && Checked(ya, "y").Ok? && Checked(za, "z").Ok? ==>
      AxisAdmissible(xa.coords, Checked(xa, "x").value) && AxisAdmissible(ya.coords, Checked(ya, "y").value) &&
      AxisAdmissible(za.coords, Checked(za, "z").value) &&
      FixInRange(Geo3(xa, ya, za, Checked(xa, "x").value, Checked(ya, "y").value, Checked(za, "z").value, f, degen, reading))
    ensures Checked(xa, "x").Err? ==> res == Err(Checked(xa, "x").error)
    ensures Checked(xa, "x").Ok? && Checked(ya, "y").Err? ==> res == Err(Checked(ya, "y").error)
    ensures Checked(xa, "x").Ok? && Checked(ya, "y").Ok? && Checked(za, "z").Err? ==> res == Err(Checked(za, "z").error)
    ensures Checked(xa, "x").Ok? && Checked(ya, "y").Ok? && Checked(za, "z").Ok? ==>
      res == Ok(Scaled(Geo3(xa, ya, za, Checked(xa, "x").value, Checked(ya, "y").value, Checked(za, "z").value, f, degen, reading)))
  {
    var cx := Checked(xa, "x");
    if cx.Err? {
      return Err(cx.error);
    }
    var cy := Checked(ya, "y");
    if cy.Err? {
      return Err(cy.error);
    }
    var cz := Checked(za, "z");
    if cz.Err? {
      return Err(cz.error);
    }
    var ax := MakeAxis(xa, cx.value);
    var ay := MakeAxis(ya, cy.value);
    var az := MakeAxis(za, cz.value);
    var geo := Geo(3, ax, ay, az, f, degen, reading);
    assert geo == Geo3(xa, ya, za, cx.value, cy.value, cz.value, f, degen, reading);
    var A, b := Scale(geo);
    res := Ok((A, b));
  }
}
