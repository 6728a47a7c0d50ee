/**
 * What the rows of the system matvec_2d and matvec_3d assemble say: which
 * face pass sets a line (the first one that claims it, so Dirichlet before
 * Neumann/Symmetry and x before y before z), positive diagonals, the
 * equations the Dirichlet, gradient, interior and fixed rows impose.
 */
module Rows {
  import opened Bcs
  import opened Grid
  import opened Linear
  import opened Spacing
  import opened Assembly

  // ---------------------------------------------------------------------------
  // Positive diagonals
  // ---------------------------------------------------------------------------

  lemma {:induction false} FluxPositive(a: seq<real>, w: seq<real>)
    requires |a| == |w| > 0
    requires forall k :: 0 <= k < |a| ==> a[k] > 0.0 && w[k] > 0.0
    ensures Flux(a, w) > 0.0
    decreases |a|
  {
    assert a[0] * w[0] > 0.0;
    if |a| > 1 {
      FluxPositive(a[1..], w[1..]);
    } else {
      assert Flux(a[1..], w[1..]) == 0.0;
    }
  }

  lemma FaceSum2Positive(h: real, ap: real, gb: real, gp0: real, gp1: real)
    requires h > 0.0 && ap > 0.0 && gb > 0.0 && gp0 > 0.0 && gp1 > 0.0
    ensures FaceSum2(h, ap, gb, gp0, gp1) > 0.0
  {
    FluxPositive([2.0 * ap, h, h], [gb, gp0, gp1]);
  }

  lemma FaceSum3Positive(h: real, ap: real, aq: real, gb: real, gp0: real, gp1: real, gq0: real, gq1: real)
    requires h > 0.0 && ap > 0.0 && aq > 0.0 && gb > 0.0 && gp0 > 0.0 && gp1 > 0.0 && gq0 > 0.0 && gq1 > 0.0
    ensures FaceSum3(h, ap, aq, gb, gp0, gp1, gq0, gq1) > 0.0
  {
    assert 2.0 * ap * aq > 0.0 && h * aq > 0.0 && h * ap > 0.0;
    FluxPositive([2.0 * ap * aq, h * aq, h * aq, h * ap, h * ap], [gb, gp0, gp1, gq0, gq1]);
  }

  /** Every face diagonal is positive: it is a sum of positive widths over positive spacings. */
  lemma FaceDiagPositive(geo: Geo, a: int, c: Cell)
    requires Valid(geo) && 0 <= a < geo.dims && geo.Box(c)
    ensures FaceDiag(geo, a, c) > 0.0
  {
    var B, P, Q := geo.Along(a), geo.Along(OtherP(a)), geo.Along(OtherQ(a));
    var t, u, v := Coord(c, a), Coord(c, OtherP(a)), Coord(c, OtherQ(a));
    assert B.d[t] > 0.0 && B.g[t] > 0.0 && P.g[u] > 0.0 && P.g[u + 1] > 0.0;
    assert Half(P.d, u) > 0.0;
    if geo.dims == 2 {
      FaceSum2Positive(B.d[t], Half(P.d, u), B.g[t], P.g[u], P.g[u + 1]);
    } else {
      assert Q.g[v] > 0.0 && Q.g[v + 1] > 0.0 && Half(Q.d, v) > 0.0;
      FaceSum3Positive(B.d[t], Half(P.d, u), Half(Q.d, v), B.g[t], P.g[u], P.g[u + 1], Q.g[v], Q.g[v + 1]);
    }
  }

  // ---------------------------------------------------------------------------
  // The first pass that claims a line sets it
  // ---------------------------------------------------------------------------

  /** Pass s writes and c lies on its face. */
  predicate ClaimedBy(geo: Geo, s: int, c: Cell)
    requires (geo.dims == 2 || geo.dims == 3) && 0 <= s < 4 * geo.dims
  {
    var st := StageAt(geo.dims, s);
    Claims(geo, st) && OnFace(geo, st, c)
  }

  /** The first of the passes 0 .. s-1 that claims c, or s if none does. */
  function FirstClaim(geo: Geo, c: Cell, s: int): (t: int)
    requires (geo.dims == 2 || geo.dims == 3) && 0 <= s <= 4 * geo.dims
    ensures 0 <= t <= s
    ensures t < s ==> ClaimedBy(geo, t, c)
    decreases s
  {
    if s == 0 then 0
    else
      var t := FirstClaim(geo, c, s - 1);
      if t < s - 1 then t else if ClaimedBy(geo, s - 1, c) then s - 1 else s
  }

  /** No pass before the first claimant claims c. */
  lemma {:induction false} FirstClaimIsFirst(geo: Geo, c: Cell, s: int, u: int)
    requires (geo.dims == 2 || geo.dims == 3) && 0 <= s <= 4 * geo.dims && 0 <= u < FirstClaim(geo, c, s)
    ensures !ClaimedBy(geo, u, c)
    decreases s
  {
    var t := FirstClaim(geo, c, s - 1);
    if u < t {
      FirstClaimIsFirst(geo, c, s - 1, u);
    } else {
      assert t == s - 1 && u == s - 1;
      assert FirstClaim(geo, c, s) == s;
    }
  }

  /** The pass that sets line c, or 4*dims when no face pass claims it. */
  function Claimant(geo: Geo, c: Cell): int
    requires geo.dims == 2 || geo.dims == 3
  {
    FirstClaim(geo, c, 4 * geo.dims)
  }

  /** The pass that claims a blank line c writes the face diagonal there. */
  lemma ClaimedAt(geo: Geo, c: Cell, t: int)
    requires Valid(geo) && geo.Box(c) && 0 <= t < 4 * geo.dims && ClaimedBy(geo, t, c)
    requires LineAfter(geo, t, c) == Blank(geo.Size())
    ensures Diagonal(geo, LineAfter(geo, t + 1, c), c) == FaceDiag(geo, StageAt(geo.dims, t).axis, c) > 0.0
  {
    var st := StageAt(geo.dims, t);
    AfterStep(geo, t, c);
    IndexInRange(c, geo.x.N(), geo.y.N(), geo.Ext(2));
    if st.gradient {
      var c' := Inward(geo, st, c);
      IndexInRange(c', geo.x.N(), geo.y.N(), geo.Ext(2));
      if geo.Flat(c') == geo.Flat(c) {
        IndexInjective(c', c, geo.x.N(), geo.y.N(), geo.Ext(2));
      }
    }
    FaceDiagPositive(geo, st.axis, c);
  }

  /** A pass leaves a line that is already set alone. */
  lemma AfterSet(geo: Geo, s: int, c: Cell)
    requires Valid(geo) && 0 <= s < 4 * geo.dims && geo.Box(c)
    requires Diagonal(geo, LineAfter(geo, s, c), c) != 0.0
    ensures LineAfter(geo, s + 1, c) == LineAfter(geo, s, c)
  {
    FaceStepSkips(geo, StageAt(geo.dims, s), c, LineAfter(geo, s, c));
  }

  /** A line set by pass t < s - 1 is still the same after pass s - 1. */
  lemma StaysSet(geo: Geo, c: Cell, s: int, t: int)
    requires Valid(geo) && geo.Box(c) && 0 <= t < s - 1 && s <= 4 * geo.dims && ClaimedBy(geo, t, c)
    requires LineAfter(geo, t, c) == Blank(geo.Size())
    requires LineAfter(geo, s - 1, c) == LineAfter(geo, t + 1, c)
    ensures LineAfter(geo, s, c) == LineAfter(geo, t + 1, c)
  {
    ClaimedAt(geo, c, t);
    AfterSet(geo, s - 1, c);
  }

  /** Up to the first claimant every prefix of the passes has no claimant either. */
  lemma {:induction false} FirstClaimPrefix(geo: Geo, c: Cell, s: int, u: int)
    requires (geo.dims == 2 || geo.dims == 3) && 0 <= s <= 4 * geo.dims && 0 <= u <= FirstClaim(geo, c, s)
    ensures FirstClaim(geo, c, u) == u
    decreases s
  {
    if u < s {
      assert u <= FirstClaim(geo, c, s - 1);
      FirstClaimPrefix(geo, c, s - 1, u);
    }
  }

  /** A line no pass has claimed yet is blank. */
  lemma {:induction false} BlankBefore(geo: Geo, c: Cell, s: int)
    requires Valid(geo) && geo.Box(c) && 0 <= s <= 4 * geo.dims && FirstClaim(geo, c, s) == s
    ensures LineAfter(geo, s, c) == Blank(geo.Size())
    decreases s
  {
    if s > 0 {
      assert FirstClaim(geo, c, s - 1) == s - 1 && !ClaimedBy(geo, s - 1, c);
      BlankBefore(geo, c, s - 1);
      AfterOffFace(geo, s - 1, c);
    }
  }

  /** Once pass t has claimed a blank line, every later pass leaves it as t wrote it. */
  lemma SetFrom(geo: Geo, c: Cell, t: int, s: int)
    requires Valid(geo) && geo.Box(c) && 0 <= t < s <= 4 * geo.dims && ClaimedBy(geo, t, c)
    requires LineAfter(geo, t, c) == Blank(geo.Size())
    ensures LineAfter(geo, s, c) == LineAfter(geo, t + 1, c)
  {
    var u := t + 1;
    while u < s
      invariant t + 1 <= u <= s
      invariant LineAfter(geo, u, c) == LineAfter(geo, t + 1, c)
    {
      StaysSet(geo, c, u + 1, t);
      u := u + 1;
    }
  }

  /** The line after the face passes: blank when no pass claims c, else what the claimant wrote on the blank line. */
  lemma FacesBy(geo: Geo, c: Cell)
    requires Valid(geo) && geo.Box(c)
    ensures Claimant(geo, c) == 4 * geo.dims ==> Faces(geo, c) == Blank(geo.Size())
    ensures Claimant(geo, c) < 4 * geo.dims ==>
      LineAfter(geo, Claimant(geo, c), c) == Blank(geo.Size()) &&
      Faces(geo, c) == LineAfter(geo, Claimant(geo, c) + 1, c)
  {
    var t, n := Claimant(geo, c), 4 * geo.dims;
    if t == n {
      BlankBefore(geo, c, n);
    } else {
      FirstClaimPrefix(geo, c, n, t);
      BlankBefore(geo, c, t);
      SetFrom(geo, c, t, n);
    }
  }

  /** The pass that sets line c is the first that claims it: no later pass wins. */
  lemma Precedence(geo: Geo, c: Cell, u: int)
    requires (geo.dims == 2 || geo.dims == 3) && 0 <= u < 4 * geo.dims && ClaimedBy(geo, u, c)
    ensures Claimant(geo, c) <= u && ClaimedBy(geo, Claimant(geo, c), c)
  {
    if Claimant(geo, c) > u {
      FirstClaimIsFirst(geo, c, 4 * geo.dims, u);
    }
  }

  /** A Dirichlet face claims before any Neumann or symmetry face does. */
  lemma DirichletFirst(geo: Geo, c: Cell, u: int)
    requires (geo.dims == 2 || geo.dims == 3) && 0 <= u < 2 * geo.dims && ClaimedBy(geo, u, c)
    ensures Claimant(geo, c) < 2 * geo.dims && !StageAt(geo.dims, Claimant(geo, c)).gradient
  {
    Precedence(geo, c, u);
  }

  // ---------------------------------------------------------------------------
  // The line a face pass sets
  // ---------------------------------------------------------------------------

  /** Row Flat(c) of the system is line c. */
  lemma BaseAtCell(geo: Geo, c: Cell)
    requires Valid(geo) && geo.Box(c)
    ensures 0 <= geo.Flat(c) < geo.Size() && BaseAt(geo, geo.Flat(c)) == Base(geo, c)
  {
    var nx, ny, nz := geo.x.N(), geo.y.N(), geo.Ext(2);
    IndexInRange(c, nx, ny, nz);
    CellOfInBox(geo.Flat(c), nx, ny, nz);
    IndexInjective(CellOf(geo.Flat(c), nx, ny), c, nx, ny, nz);
  }

  /** The claimed line is what its claimant wrote on the blank line, and the interior pass keeps it. */
  lemma ClaimedBase(geo: Geo, c: Cell)
    requires Valid(geo) && geo.Box(c) && Claimant(geo, c) < 4 * geo.dims
    ensures Base(geo, c) == FaceStep(geo, StageAt(geo.dims, Claimant(geo, c)), c, Blank(geo.Size()))
  {
    var t := Claimant(geo, c);
    FacesBy(geo, c);
    ClaimedAt(geo, c, t);
    AfterStep(geo, t, c);
    StencilSkips(geo, c, Faces(geo, c));
  }

  /** The line a Dirichlet pass writes on a blank line: d at m and nothing else. */
  lemma PinnedLine(geo: Geo, c: Cell, d: real, rhs: real, l: Line)
    requires Valid(geo) && geo.Box(c) && l == Line(SetCell(geo, Blank(geo.Size()).row, c, d), rhs)
    ensures 0 <= geo.Flat(c) < geo.Size() && l.row[geo.Flat(c)] == d
    ensures forall col :: 0 <= col < geo.Size() && col != geo.Flat(c) ==> l.row[col] == 0.0
  {
    IndexInRange(c, geo.x.N(), geo.y.N(), geo.Ext(2));
  }

  /** The line a gradient pass writes on a blank line: d at m, -d at the inward neighbour and nothing else. */
  lemma GradedLine(geo: Geo, c: Cell, c': Cell, d: real, rhs: real, l: Line)
    requires Valid(geo) && geo.Box(c) && geo.Box(c') && c' != c
    requires l == Line(SetCell(geo, SetCell(geo, Blank(geo.Size()).row, c, d), c', -d), rhs)
    ensures 0 <= geo.Flat(c) < geo.Size() && 0 <= geo.Flat(c') < geo.Size() && geo.Flat(c) != geo.Flat(c')
    ensures l.row[geo.Flat(c)] == d && l.row[geo.Flat(c')] == -d
    ensures forall col :: 0 <= col < geo.Size() && col != geo.Flat(c) && col != geo.Flat(c') ==> l.row[col] == 0.0
  {
    IndexInRange(c, geo.x.N(), geo.y.N(), geo.Ext(2));
    IndexInRange(c', geo.x.N(), geo.y.N(), geo.Ext(2));
    if geo.Flat(c') == geo.Flat(c) {
      IndexInjective(c', c, geo.x.N(), geo.y.N(), geo.Ext(2));
    }
  }

  /** A line set by a Dirichlet pass: the face diagonal alone, and b = value * diagonal. */
  lemma DirichletBase(geo: Geo, c: Cell)
    requires Valid(geo) && geo.Box(c) && Claimant(geo, c) < 4 * geo.dims
    requires !StageAt(geo.dims, Claimant(geo, c)).gradient
    ensures var st := StageAt(geo.dims, Claimant(geo, c));
      var d, m := FaceDiag(geo, st.axis, c), geo.Flat(c);
      0 <= m < geo.Size() && d > 0.0 && Base(geo, c).row[m] == d &&
      (forall col :: 0 <= col < geo.Size() && col != m ==> Base(geo, c).row[col] == 0.0) &&
      Base(geo, c).rhs == Prod([geo.Along(st.axis).Value(st.side), d])
  {
    var st := StageAt(geo.dims, Claimant(geo, c));
    var d := FaceDiag(geo, st.axis, c);
    assert ClaimedBy(geo, Claimant(geo, c), c);
    assert Claims(geo, st) && OnFace(geo, st, c);
    FaceDiagPositive(geo, st.axis, c);
    IndexInRange(c, geo.x.N(), geo.y.N(), geo.Ext(2));
    FaceStepPins(geo, st, c, Blank(geo.Size()));
    ClaimedBase(geo, c);
    PinnedLine(geo, c, d, Prod([geo.Along(st.axis).Value(st.side), d]), Base(geo, c));
  }

  /**
   * A line set by a Neumann or symmetry pass: the face diagonal, its
   * negation at the inward neighbour, and b = value * diagonal when the end
   * is Neumann (0 for symmetry).
   */
  lemma GradientBase(geo: Geo, c: Cell)
    requires Valid(geo) && geo.Box(c) && Claimant(geo, c) < 4 * geo.dims
    requires StageAt(geo.dims, Claimant(geo, c)).gradient
    ensures var st := StageAt(geo.dims, Claimant(geo, c));
      var d, m := FaceDiag(geo, st.axis, c), geo.Flat(c);
      var mi := geo.Flat(Inward(geo, st, c));
      0 <= m < geo.Size() && 0 <= mi < geo.Size() && m != mi && d > 0.0 &&
      Base(geo, c).row[m] == d && Base(geo, c).row[mi] == -d &&
      (forall col :: 0 <= col < geo.Size() && col != m && col != mi ==> Base(geo, c).row[col] == 0.0) &&
      Base(geo, c).rhs == if SetsRhs(geo, st) then Prod([geo.Along(st.axis).Value(st.side), d]) else 0.0
  {
    var st := StageAt(geo.dims, Claimant(geo, c));
    var d := FaceDiag(geo, st.axis, c);
    assert ClaimedBy(geo, Claimant(geo, c), c);
    assert Claims(geo, st) && OnFace(geo, st, c);
    FaceDiagPositive(geo, st.axis, c);
    IndexInRange(c, geo.x.N(), geo.y.N(), geo.Ext(2));
    FaceStepGrades(geo, st, c, Blank(geo.Size()));
    ClaimedBase(geo, c);
    GradedLine(geo, c, Inward(geo, st, c), d, Base(geo, c).rhs, Base(geo, c));
  }

  // ---------------------------------------------------------------------------
  // The equations of the assembled system
  // ---------------------------------------------------------------------------

  /** A pass claims only where its end is of its kind, so a Dirichlet claimant rules the fix out. */
  lemma DirichletStopsFix(geo: Geo, c: Cell)
    requires Valid(geo) && Claimant(geo, c) < 4 * geo.dims && !StageAt(geo.dims, Claimant(geo, c)).gradient
    ensures !Fixing(geo)
  {
    assert ClaimedBy(geo, Claimant(geo, c), c);
  }

  /** An equation whose row has the single positive entry d at r and right-hand side v*d pins x[r] to v. */
  lemma PinnedEquation(u: seq<real>, x: seq<real>, r: int, d: real, v: real, rhs: real)
    requires |u| == |x| && 0 <= r < |u| && u[r] == d > 0.0 && rhs == Prod([v, d])
    requires forall col :: 0 <= col < |u| && col != r ==> u[col] == 0.0
    ensures Dot(u, x) == rhs <==> x[r] == v
  {
    DotSingle(u, x, r);
    ProdTwo(v, d);
    Pin(d, x[r], v);
  }

  /** Outside the fixed row, row Flat(c) of the system and its right-hand side are line c. */
  lemma RowIsBase(geo: Geo, c: Cell)
    requires Valid(geo) && geo.Box(c)
    requires !(Fixing(geo) && geo.Flat(c) == FixRow(geo))
    ensures 0 <= geo.Flat(c) < geo.Size()
    ensures |Operator(geo)[geo.Flat(c)]| == geo.Size()
    ensures forall col :: 0 <= col < geo.Size() ==> Operator(geo)[geo.Flat(c)][col] == Base(geo, c).row[col]
    ensures RhsVector(geo)[geo.Flat(c)] == Base(geo, c).rhs
  {
    BaseAtCell(geo, c);
  }

  /**
   * A Dirichlet row: only its (positive) diagonal is nonzero, and its
   * equation holds exactly when x at the node is the boundary value.
   */
  lemma DirichletRow(geo: Geo, c: Cell, x: seq<real>)
    requires Valid(geo) && geo.Box(c) && |x| == geo.Size()
    requires Claimant(geo, c) < 4 * geo.dims && !StageAt(geo.dims, Claimant(geo, c)).gradient
    ensures var st := StageAt(geo.dims, Claimant(geo, c));
      var r := geo.Flat(c);
      0 <= r < geo.Size() && Operator(geo)[r][r] > 0.0 &&
      (forall col :: 0 <= col < geo.Size() && col != r ==> Operator(geo)[r][col] == 0.0) &&
      (Dot(Operator(geo)[r], x) == RhsVector(geo)[r] <==> x[r] == geo.Along(st.axis).Value(st.side))
  {
    var st := StageAt(geo.dims, Claimant(geo, c));
    var r, v, d := geo.Flat(c), geo.Along(st.axis).Value(st.side), FaceDiag(geo, st.axis, c);
    DirichletStopsFix(geo, c);
    RowIsBase(geo, c);
    DirichletBase(geo, c);
    PinnedEquation(Operator(geo)[r], x, r, d, v, RhsVector(geo)[r]);
  }

  /** A row with d at r and -d at ri only: it sums to 0 and its equation is x[r] - x[ri] = w. */
  lemma GradedEquation(u: seq<real>, x: seq<real>, r: int, ri: int, d: real, w: real, rhs: real)
    requires |u| == |x| && 0 <= r < |u| && 0 <= ri < |u| && r != ri
    requires u[r] == d > 0.0 && u[ri] == -d && rhs == Prod([w, d])
    requires forall col :: 0 <= col < |u| && col != r && col != ri ==> u[col] == 0.0
    ensures Sum(u) == 0.0
    ensures Dot(u, x) == rhs <==> x[r] - x[ri] == w
  {
    SumTwo(u, r, ri);
    DotDifference(u, x, r, ri);
    ProdTwo(w, d);
    PinSides(d, x[r] - x[ri], w, Dot(u, x), rhs);
  }

  /**
   * A Neumann or symmetry row that is not the fixed one: the positive
   * diagonal and its negation at the inward neighbour, a zero row sum, and
   * the equation x[m] - x[inward] = value (0 for symmetry).
   */
  lemma GradientRow(geo: Geo, c: Cell, x: seq<real>)
    requires Valid(geo) && geo.Box(c) && |x| == geo.Size()
    requires Claimant(geo, c) < 4 * geo.dims && StageAt(geo.dims, Claimant(geo, c)).gradient
    requires !(Fixing(geo) && geo.Flat(c) == FixRow(geo))
    ensures var st := StageAt(geo.dims, Claimant(geo, c));
      var r, ri := geo.Flat(c), geo.Flat(Inward(geo, st, c));
      0 <= r < geo.Size() && 0 <= ri < geo.Size() && r != ri &&
      Operator(geo)[r][r] > 0.0 && Operator(geo)[r][ri] == -Operator(geo)[r][r] &&
      (forall col :: 0 <= col < geo.Size() && col != r && col != ri ==> Operator(geo)[r][col] == 0.0) &&
      Sum(Operator(geo)[r]) == 0.0 &&
      (Dot(Operator(geo)[r], x) == RhsVector(geo)[r] <==>
         x[r] - x[ri] == if SetsRhs(geo, st) then geo.Along(st.axis).Value(st.side) else 0.0)
  {
    var st := StageAt(geo.dims, Claimant(geo, c));
    var r, ri := geo.Flat(c), geo.Flat(Inward(geo, st, c));
    var d := FaceDiag(geo, st.axis, c);
    var w := if SetsRhs(geo, st) then geo.Along(st.axis).Value(st.side) else 0.0;
    RowIsBase(geo, c);
    GradientBase(geo, c);
    ProdTwo(0.0, d);
    GradedEquation(Operator(geo)[r], x, r, ri, d, w, RhsVector(geo)[r]);
  }

  /**
   * The z-face pass of matvec_3d as written decides whether to set b from
   * the high end of the y axis: b = value * diagonal exactly when y's high
   * end is Neumann, whatever the z end itself is. So a Neumann z face with a
   * nonzero value keeps b = 0 when y's high end is not Neumann, and a
   * symmetry z face gets b = value * diagonal when it is.
   */
  lemma ZFaceAsWritten(geo: Geo, side: nat, c: Cell)
    requires Valid(geo) && geo.dims == 3 && side < 2 && geo.Box(c) && geo.reading == AsWritten
    requires Claims(geo, Stage(true, 2, side)) && OnFace(geo, Stage(true, 2, side), c)
    ensures var st, B := Stage(true, 2, side), Blank(geo.Size());
      var v, d := geo.z.Value(side), FaceDiag(geo, 2, c);
      FaceStep(geo, st, c, B).rhs == (if geo.y.bc.high == Neumann then Prod([v, d]) else 0.0) &&
      (geo.z.bc.At(side) == Neumann && geo.y.bc.high != Neumann && v != 0.0 ==> FaceStep(geo, st, c, B).rhs != Prod([v, d])) &&
      (geo.z.bc.At(side) == Symmetry && geo.y.bc.high == Neumann && v != 0.0 ==> FaceStep(geo, st, c, B).rhs != 0.0)
  {
    var st, B := Stage(true, 2, side), Blank(geo.Size());
    var v, d := geo.z.Value(side), FaceDiag(geo, 2, c);
    IndexInRange(c, geo.x.N(), geo.y.N(), geo.Ext(2));
    FaceDiagPositive(geo, 2, c);
    ProdTwo(v, d);
    assert Prod([v, d]) != 0.0 <==> v != 0.0;
    assert Diagonal(geo, B, c) == 0.0;
    FaceStepGrades(geo, st, c, B);
  }

  /**
   * Under the intended reading every Neumann or symmetry row states its own
   * end's condition: x[m] - x[inward] is the boundary value for N and 0 for S,
   * on the z faces as on the others.
   */
  lemma GradientRowIntended(geo: Geo, c: Cell, x: seq<real>)
    requires Valid(geo) && geo.Box(c) && |x| == geo.Size() && geo.reading == Intended
    requires Claimant(geo, c) < 4 * geo.dims && StageAt(geo.dims, Claimant(geo, c)).gradient
    requires !(Fixing(geo) && geo.Flat(c) == FixRow(geo))
    ensures var st := StageAt(geo.dims, Claimant(geo, c));
      var r, ri := geo.Flat(c), geo.Flat(Inward(geo, st, c));
      var t := geo.Along(st.axis).bc.At(st.side);
      0 <= r < geo.Size() && 0 <= ri < geo.Size() &&
      (t == Neumann || t == Symmetry) &&
      (Dot(Operator(geo)[r], x) == RhsVector(geo)[r] <==>
         x[r] - x[ri] == if t == Neumann then geo.Along(st.axis).Value(st.side) else 0.0)
  {
    assert ClaimedBy(geo, Claimant(geo, c), c);
    GradientRow(geo, c, x);
  }
}
