/**
 * The rows the interior pass of matvec_2d / matvec_3d (L-QLES/matvec.py)
 * writes, and the degeneracy fix: the negative couplings with the
 * neighbours, the positive diagonal that balances them (zero row sum),
 * and the equation left in the fixed row.
 */
module Stencil {
  import opened Bcs
  import opened Grid
  import opened Linear
  import opened Spacing
  import opened Assembly
  import opened Rows
  import opened Normalise

  predicate Distinct(cols: seq<int>) {
    forall t, u :: 0 <= t < u < |cols| ==> cols[t] != cols[u]
  }

  /** Overwriting one entry changes the sum by the difference. */
  lemma SumUpdate(s: seq<real>, i: int, v: real)
    requires 0 <= i < |s|
    ensures Sum(s[i := v]) == Sum(s) - s[i] + v
  {
    var s' := s[i := v];
    SumRemove(s, i);
    SumRemove(s', i);
    assert s'[..i] + s'[i + 1..] == s[..i] + s[i + 1..];
  }

  lemma {:induction false} SumNegative(s: seq<real>)
    requires |s| > 0 && forall k :: 0 <= k < |s| ==> s[k] < 0.0
    ensures Sum(s) < 0.0
  {
    if |s| > 1 {
      SumNegative(s[..|s| - 1]);
    } else {
      assert s[..0] == [];
    }
  }

  /** Writing ws at distinct columns: row holds ws[t] at cols[t] for t < n, and is untouched elsewhere. */
  lemma {:induction false} SpreadAt(row: seq<real>, cols: seq<int>, ws: seq<real>, n: nat)
    requires n <= |cols| == |ws| && (forall t :: 0 <= t < |cols| ==> 0 <= cols[t] < |row|) && Distinct(cols)
    ensures forall t :: 0 <= t < n ==> Spread(row, cols, ws, n)[cols[t]] == ws[t]
    ensures forall col :: 0 <= col < |row| && col !in cols[..n] ==> Spread(row, cols, ws, n)[col] == row[col]
  {
    if n > 0 {
      SpreadAt(row, cols, ws, n - 1);
      assert cols[..n] == cols[..n - 1] + [cols[n - 1]];
    }
  }

  /** Gathering a row at columns that hold ws adds up ws. */
  lemma {:induction false} GatheredSum(R: seq<real>, cols: seq<int>, ws: seq<real>, n: nat)
    requires n <= |cols| == |ws| && (forall t :: 0 <= t < |cols| ==> 0 <= cols[t] < |R|)
    requires forall t :: 0 <= t < |cols| ==> R[cols[t]] == ws[t]
    ensures Gathered(R, cols, n) == Sum(ws[..n])
  {
    if n > 0 {
      GatheredSum(R, cols, ws, n - 1);
      assert ws[..n][..n - 1] == ws[..n - 1];
    } else {
      assert ws[..0] == [];
    }
  }

  /** Spreading ws over zero entries at distinct columns adds Sum(ws) to the row sum. */
  lemma {:induction false} SumSpread(row: seq<real>, cols: seq<int>, ws: seq<real>, n: nat)
    requires n <= |cols| == |ws| && (forall t :: 0 <= t < |cols| ==> 0 <= cols[t] < |row|) && Distinct(cols)
    requires forall t :: 0 <= t < |cols| ==> row[cols[t]] == 0.0
    ensures Sum(Spread(row, cols, ws, n)) == Sum(row) + Sum(ws[..n])
  {
    if n > 0 {
      SumSpread(row, cols, ws, n - 1);
      SpreadAt(row, cols, ws, n - 1);
      assert cols[n - 1] !in cols[..n - 1];
      SumUpdate(Spread(row, cols, ws, n - 1), cols[n - 1], ws[n - 1]);
      assert ws[..n][..n - 1] == ws[..n - 1];
    } else {
      assert ws[..0] == [];
    }
  }

  /** R with the negated sum of its weights written at r, a column outside cols. */
  lemma Balanced(R: seq<real>, cols: seq<int>, ws: seq<real>, r: int, G: real, l: seq<real>)
    requires |cols| == |ws| > 0 && (forall t :: 0 <= t < |cols| ==> 0 <= cols[t] < |R|)
    requires 0 <= r < |R| && r !in cols && G == Sum(ws) < 0.0
    requires forall t :: 0 <= t < |cols| ==> R[cols[t]] == ws[t]
    requires forall col :: 0 <= col < |R| && col !in cols ==> R[col] == 0.0
    requires Sum(R) == G && l == R[r := -G]
    ensures |l| == |R|
    ensures forall t :: 0 <= t < |cols| ==> l[cols[t]] == ws[t]
    ensures l[r] == -Sum(ws) > 0.0
    ensures forall col :: 0 <= col < |l| && col != r && col !in cols ==> l[col] == 0.0
    ensures Sum(l) == 0.0
  {
    SumUpdate(R, r, -G);
  }

  /** The weights spread at distinct columns of a zero row: R holds ws[t] at cols[t] and zero elsewhere. */
  lemma SpreadEntries(row0: seq<real>, cols: seq<int>, ws: seq<real>, R: seq<real>)
    requires |cols| == |ws| && (forall t :: 0 <= t < |cols| ==> 0 <= cols[t] < |row0|) && Distinct(cols)
    requires forall col :: 0 <= col < |row0| ==> row0[col] == 0.0
    requires R == Spread(row0, cols, ws, |cols|)
    ensures |R| == |row0|
    ensures forall t :: 0 <= t < |cols| ==> R[cols[t]] == ws[t]
    ensures forall col :: 0 <= col < |R| && col !in cols ==> R[col] == 0.0
  {
    SpreadAt(row0, cols, ws, |cols|);
    assert cols[..|cols|] == cols;
  }

  /** Gathering negative weights back from their columns gives their sum, which is negative. */
  lemma GatheredNegative(R: seq<real>, cols: seq<int>, ws: seq<real>)
    requires |cols| == |ws| > 0 && (forall t :: 0 <= t < |cols| ==> 0 <= cols[t] < |R|)
    requires forall t :: 0 <= t < |cols| ==> R[cols[t]] == ws[t]
    requires forall t :: 0 <= t < |ws| ==> ws[t] < 0.0
    ensures Gathered(R, cols, |cols|) == Sum(ws) < 0.0
  {
    GatheredSum(R, cols, ws, |cols|);
    assert ws[..|ws|] == ws;
    SumNegative(ws);
  }

  /** Spreading the weights over a zero row at distinct columns: the row sums to the weights' sum. */
  lemma SpreadSum(row0: seq<real>, cols: seq<int>, ws: seq<real>, R: seq<real>)
    requires |cols| == |ws| && (forall t :: 0 <= t < |cols| ==> 0 <= cols[t] < |row0|) && Distinct(cols)
    requires forall col :: 0 <= col < |row0| ==> row0[col] == 0.0
    requires R == Spread(row0, cols, ws, |cols|)
    ensures Sum(R) == Sum(ws)
  {
    SumSpread(row0, cols, ws, |cols|);
    assert ws[..|ws|] == ws;
    SumZero(row0);
  }

  /**
   * An interior line on a zero row: the negative weights at distinct
   * columns and, at r, minus their sum, which is positive; the row sums to 0.
   */
  lemma InteriorLine(row0: seq<real>, cols: seq<int>, ws: seq<real>, r: int, R: seq<real>, G: real, l: seq<real>)
    requires |cols| == |ws| > 0 && (forall t :: 0 <= t < |cols| ==> 0 <= cols[t] < |row0|) && Distinct(cols)
    requires 0 <= r < |row0| && r !in cols
    requires forall col :: 0 <= col < |row0| ==> row0[col] == 0.0
    requires forall t :: 0 <= t < |ws| ==> ws[t] < 0.0
    requires R == Spread(row0, cols, ws, |cols|) && G == Gathered(R, cols, |cols|) && l == R[r := -G]
    ensures |l| == |row0|
    ensures forall t :: 0 <= t < |cols| ==> l[cols[t]] == ws[t]
    ensures l[r] == -Sum(ws) > 0.0
    ensures forall col :: 0 <= col < |l| && col != r && col !in cols ==> l[col] == 0.0
    ensures Sum(l) == 0.0
  {
    SpreadEntries(row0, cols, ws, R);
    GatheredNegative(R, cols, ws);
    SpreadSum(row0, cols, ws, R);
    Balanced(R, cols, ws, r, G, l);
  }

  /**
   * A cell no face pass claims lies strictly inside every axis that does
   * not repeat: both ends of such an axis are D, N or S, and the pass of
   * that type claims the whole face.
   */
  lemma UnclaimedInside(geo: Geo, c: Cell, a: int)
    requires Valid(geo) && geo.Box(c) && 0 <= a < geo.dims
    requires Claimant(geo, c) == 4 * geo.dims && !geo.Along(a).bc.Periodic()
    ensures 0 < Coord(c, a) < geo.Ext(a) - 1
  {
    var bc := geo.Along(a).bc;
    assert AxisOk(geo.Along(a));
    assert bc.low != Repeating && bc.high != Repeating;
    if Coord(c, a) == 0 {
      var s := if bc.low == Dirichlet then 2 * a else 2 * geo.dims + 2 * a;
      assert StageAt(geo.dims, s) == Stage(bc.low != Dirichlet, a, 0);
      assert ClaimedBy(geo, s, c);
      Precedence(geo, c, s);
      assert false;
    }
    if Coord(c, a) == geo.Ext(a) - 1 {
      var s := if bc.high == Dirichlet then 2 * a + 1 else 2 * geo.dims + 2 * a + 1;
      assert StageAt(geo.dims, s) == Stage(bc.high != Dirichlet, a, 1);
      assert ClaimedBy(geo, s, c);
      Precedence(geo, c, s);
      assert false;
    }
  }

  /** A cell may step along axis a without hitting the trap: the axis repeats or the cell is inside it. */
  predicate Free(geo: Geo, c: Cell, a: int)
    requires Valid(geo) && geo.Box(c) && 0 <= a < geo.dims
  {
    geo.Along(a).bc.Periodic() || 0 < Coord(c, a) < geo.Ext(a) - 1
  }

  /** Both steps along a free axis move the cell along that axis only, to two different nodes. */
  lemma NeighboursMove(geo: Geo, c: Cell, a: int)
    requires Valid(geo) && geo.Box(c) && 0 <= a < geo.dims && Free(geo, c, a)
    ensures Coord(Neighbour(geo, c, a, -1), a) != Coord(c, a)
    ensures Coord(Neighbour(geo, c, a, 1), a) != Coord(c, a)
    ensures Coord(Neighbour(geo, c, a, -1), a) != Coord(Neighbour(geo, c, a, 1), a)
    ensures forall b :: 0 <= b < 3 && b != a ==>
      Coord(Neighbour(geo, c, a, -1), b) == Coord(c, b) && Coord(Neighbour(geo, c, a, 1), b) == Coord(c, b)
  {
    assert AxisOk(geo.Along(a));
  }

  /** Distinct steps from a cell free on their axes reach distinct cells, none of them the cell itself. */
  lemma NeighbourApart(geo: Geo, c: Cell, a: int, da: int, b: int, db: int)
    requires Valid(geo) && geo.Box(c) && 0 <= a < geo.dims && 0 <= b < geo.dims
    requires (da == -1 || da == 1) && (db == -1 || db == 1) && (a != b || da != db)
    requires Free(geo, c, a) && Free(geo, c, b)
    ensures Neighbour(geo, c, a, da) != c && Neighbour(geo, c, a, da) != Neighbour(geo, c, b, db)
  {
    NeighboursMove(geo, c, a);
    if a != b {
      NeighboursMove(geo, c, b);
      assert Coord(Neighbour(geo, c, a, da), b) == Coord(c, b) != Coord(Neighbour(geo, c, b, db), b);
    }
  }

  /** Different cells of the box have different flat indices. */
  lemma FlatApart(geo: Geo, c: Cell, d: Cell)
    requires Valid(geo) && geo.Box(c) && geo.Box(d) && c != d
    ensures geo.Flat(c) != geo.Flat(d)
  {
    if geo.Flat(c) == geo.Flat(d) {
      IndexInjective(c, d, geo.x.N(), geo.y.N(), geo.Ext(2));
    }
  }

  /** Column t of Around is the neighbour along axis t/2, downwards for even t. */
  lemma AroundAt(geo: Geo, c: Cell, t: int)
    requires Valid(geo) && geo.Box(c) && 0 <= t < 2 * geo.dims
    ensures Around(geo, c)[t] == geo.Flat(Neighbour(geo, c, t / 2, 2 * (t % 2) - 1))
  {
  }

  /** Every axis of the grid is free for c. */
  predicate AllFree(geo: Geo, c: Cell)
    requires Valid(geo) && geo.Box(c)
  {
    forall a :: 0 <= a < geo.dims ==> Free(geo, c, a)
  }

  lemma UnclaimedFree(geo: Geo, c: Cell)
    requires Valid(geo) && geo.Box(c) && Claimant(geo, c) == 4 * geo.dims
    ensures AllFree(geo, c)
  {
    forall a | 0 <= a < geo.dims
      ensures Free(geo, c, a)
    {
      if !geo.Along(a).bc.Periodic() {
        UnclaimedInside(geo, c, a);
      }
    }
  }

  /** No column of Around is the cell's own. */
  lemma ColumnOff(geo: Geo, c: Cell, t: int)
    requires Valid(geo) && geo.Box(c) && AllFree(geo, c) && 0 <= t < 2 * geo.dims
    ensures Around(geo, c)[t] != geo.Flat(c)
  {
    AroundAt(geo, c, t);
    var a, da := t / 2, 2 * (t % 2) - 1;
    NeighbourApart(geo, c, a, da, a, -da);
    FlatApart(geo, Neighbour(geo, c, a, da), c);
  }

  /** Two different columns of Around differ. */
  lemma ColumnsApart(geo: Geo, c: Cell, t: int, u: int)
    requires Valid(geo) && geo.Box(c) && AllFree(geo, c) && 0 <= t < u < 2 * geo.dims
    ensures Around(geo, c)[t] != Around(geo, c)[u]
  {
    AroundAt(geo, c, t);
    AroundAt(geo, c, u);
    var a, da, b, db := t / 2, 2 * (t % 2) - 1, u / 2, 2 * (u % 2) - 1;
    NeighbourApart(geo, c, a, da, b, db);
    FlatApart(geo, Neighbour(geo, c, a, da), Neighbour(geo, c, b, db));
  }

  /** The columns the interior pass writes for an unclaimed cell are distinct and miss the cell's own column. */
  lemma AroundDistinct(geo: Geo, c: Cell)
    requires Valid(geo) && geo.Box(c) && Claimant(geo, c) == 4 * geo.dims
    ensures Distinct(Around(geo, c)) && geo.Flat(c) !in Around(geo, c)
  {
    UnclaimedFree(geo, c);
    var cols := Around(geo, c);
    forall t, u | 0 <= t < u < |cols|
      ensures cols[t] != cols[u]
    {
      ColumnsApart(geo, c, t, u);
    }
    forall t | 0 <= t < |cols|
      ensures cols[t] != geo.Flat(c)
    {
      ColumnOff(geo, c, t);
    }
  }

  lemma {:induction false} ProdPositive(s: seq<real>)
    requires forall k :: 0 <= k < |s| ==> s[k] > 0.0
    ensures Prod(s) > 0.0
  {
    if |s| > 0 {
      ProdPositive(s[1..]);
      assert s[0] * Prod(s[1..]) > 0.0;
    }
  }

  lemma Couplings2Negative(ax: real, ay: real, gx0: real, gx1: real, gy0: real, gy1: real)
    requires ax > 0.0 && ay > 0.0 && gx0 > 0.0 && gx1 > 0.0 && gy0 > 0.0 && gy1 > 0.0
    ensures forall t :: 0 <= t < 4 ==> Couplings2(ax, ay, gx0, gx1, gy0, gy1)[t] < 0.0
  {
    ProdPositive([ay, gx0]);
    ProdPositive([ay, gx1]);
    ProdPositive([ax, gy0]);
    ProdPositive([ax, gy1]);
  }

  lemma Couplings3Negative(ax: real, ay: real, az: real, gx0: real, gx1: real, gy0: real, gy1: real, gz0: real, gz1: real)
    requires ax > 0.0 && ay > 0.0 && az > 0.0
    requires gx0 > 0.0 && gx1 > 0.0 && gy0 > 0.0 && gy1 > 0.0 && gz0 > 0.0 && gz1 > 0.0
    ensures forall t :: 0 <= t < 6 ==> Couplings3(ax, ay, az, gx0, gx1, gy0, gy1, gz0, gz1)[t] < 0.0
  {
    ProdPositive([ay, az, gx0]);
    ProdPositive([ay, az, gx1]);
    ProdPositive([ax, az, gy0]);
    ProdPositive([ax, az, gy1]);
    ProdPositive([ax, ay, gz0]);
    ProdPositive([ax, ay, gz1]);
  }

  /** The spacings and reciprocals the interior pass reads, wrapped or not, are positive. */
  lemma WrapPositive(ax: Axis)
    requires AxisOk(ax)
    ensures AllPositive(WrapD(ax)) && AllPositive(WrapG(ax))
  {
    if ax.bc.Periodic() {
      WrappedPositive(ax.d);
      WrappedPositive(ax.g);
    }
  }

  lemma WidthPositive(geo: Geo, c: Cell, a: int)
    requires Valid(geo) && geo.Box(c) && 0 <= a < geo.dims
    ensures Width(geo, c, a) > 0.0
  {
    assert AxisOk(geo.Along(a));
    WrapPositive(geo.Along(a));
  }

  /** Every coupling of the interior pass is negative. */
  lemma WeightsNegative(geo: Geo, c: Cell)
    requires Valid(geo) && geo.Box(c)
    ensures forall t :: 0 <= t < |Weights(geo, c)| ==> Weights(geo, c)[t] < 0.0
  {
    WrapPositive(geo.x);
    WrapPositive(geo.y);
    WidthPositive(geo, c, 0);
    WidthPositive(geo, c, 1);
    var xg, yg := WrapG(geo.x), WrapG(geo.y);
    var ax, ay := Width(geo, c, 0), Width(geo, c, 1);
    assert xg[c.i] > 0.0 && xg[c.i + 1] > 0.0 && yg[c.j] > 0.0 && yg[c.j + 1] > 0.0;
    if geo.dims == 2 {
      Couplings2Negative(ax, ay, xg[c.i], xg[c.i + 1], yg[c.j], yg[c.j + 1]);
    } else {
      WrapPositive(geo.z);
      WidthPositive(geo, c, 2);
      var zg := WrapG(geo.z);
      assert zg[c.k] > 0.0 && zg[c.k + 1] > 0.0;
      Couplings3Negative(ax, ay, Width(geo, c, 2), xg[c.i], xg[c.i + 1], yg[c.j], yg[c.j + 1], zg[c.k], zg[c.k + 1]);
    }
  }

  /**
   * The line of a cell no face pass claims, after the interior pass: the
   * negative couplings at its neighbours' columns, their negated sum
   * (positive) on the diagonal and zero elsewhere, so the row sums to 0;
   * b = f times the control volume.
   */
  lemma InteriorBase(geo: Geo, c: Cell)
    requires Valid(geo) && geo.Box(c) && Claimant(geo, c) == 4 * geo.dims
    ensures var cols, ws, r := Around(geo, c), Weights(geo, c), geo.Flat(c);
      0 <= r < geo.Size() &&
      (forall t :: 0 <= t < |cols| ==> Base(geo, c).row[cols[t]] == ws[t] < 0.0) &&
      Base(geo, c).row[r] == -Sum(ws) > 0.0 &&
      (forall col :: 0 <= col < geo.Size() && col != r && col !in cols ==> Base(geo, c).row[col] == 0.0) &&
      Sum(Base(geo, c).row) == 0.0 &&
      Base(geo, c).rhs == Prod([geo.f, Volume(geo, c)])
  {
    var cols, ws, r := Around(geo, c), Weights(geo, c), geo.Flat(c);
    IndexInRange(c, geo.x.N(), geo.y.N(), geo.Ext(2));
    SizePositive(geo);
    AroundDistinct(geo, c);
    WeightsNegative(geo, c);
    var B := Blank(geo.Size());
    FacesBy(geo, c);
    assert Faces(geo, c) == B;
    StencilRow(geo, c, B);
    StencilRhs(geo, c, B);
    var R := Spread(B.row, cols, ws, |cols|);
    InteriorLine(B.row, cols, ws, r, R, Gathered(R, cols, |cols|), Base(geo, c).row);
  }

  /**
   * An interior row that is not the fixed one: the couplings with the
   * neighbours are negative, the diagonal is minus their sum, the row sums
   * to 0 and b = f times the control volume.
   */
  lemma InteriorRow(geo: Geo, c: Cell)
    requires Valid(geo) && geo.Box(c) && Claimant(geo, c) == 4 * geo.dims
    requires !(Fixing(geo) && geo.Flat(c) == FixRow(geo))
    ensures var cols, ws, r := Around(geo, c), Weights(geo, c), geo.Flat(c);
      0 <= r < geo.Size() &&
      (forall t :: 0 <= t < |cols| ==> Operator(geo)[r][cols[t]] == ws[t] < 0.0) &&
      Operator(geo)[r][r] == -Sum(ws) > 0.0 &&
      (forall col :: 0 <= col < geo.Size() && col != r && col !in cols ==> Operator(geo)[r][col] == 0.0) &&
      Sum(Operator(geo)[r]) == 0.0 &&
      RhsVector(geo)[r] == Prod([geo.f, Volume(geo, c)])
  {
    var r := geo.Flat(c);
    RowIsBase(geo, c);
    InteriorBase(geo, c);
    assert Operator(geo)[r] == Base(geo, c).row;
  }

  /** The degeneracy fix never clears the diagonal of its own row: every cleared column is 1, nx or nx*ny away. */
  lemma FixKeepsDiagonal(geo: Geo)
    requires Valid(geo) && Fixing(geo)
    ensures FixRow(geo) !in Cleared(geo)
  {
    var nx, ny := geo.x.N(), geo.y.N();
    ReachBounds(geo);
    if geo.dims == 2 {
      Grid.MulMono(nx, 2, ny);
    } else {
      Grid.MulMono(nx * ny, 2, geo.Ext(2));
    }
    assert Reach(geo) < geo.Size();
  }

  /** Line c after the interior pass has a positive diagonal, whichever pass set it. */
  lemma BaseDiagonalPositive(geo: Geo, c: Cell)
    requires Valid(geo) && geo.Box(c)
    ensures 0 <= geo.Flat(c) < geo.Size() && Base(geo, c).row[geo.Flat(c)] > 0.0
  {
    IndexInRange(c, geo.x.N(), geo.y.N(), geo.Ext(2));
    var t := Claimant(geo, c);
    if t == 4 * geo.dims {
      InteriorBase(geo, c);
    } else if StageAt(geo.dims, t).gradient {
      GradientBase(geo, c);
    } else {
      DirichletBase(geo, c);
    }
  }

  /** Every diagonal entry of the assembled matrix is positive, the fixed row's included. */
  lemma DiagonalPositive(geo: Geo, r: int)
    requires Valid(geo) && 0 <= r < geo.Size()
    ensures Operator(geo)[r][r] > 0.0
  {
    var nx, ny := geo.x.N(), geo.y.N();
    CellOfInBox(r, nx, ny, geo.Ext(2));
    var c := CellOf(r, nx, ny);
    if Fixing(geo) {
      FixKeepsDiagonal(geo);
    }
    assert !FixedEntry(geo, r, r);
    BaseDiagonalPositive(geo, c);
  }

  /** amax, the largest entry of the assembled matrix, is positive, so the scaling divides by a positive number. */
  lemma MaxPositive(geo: Geo)
    requires Valid(geo)
    ensures geo.Size() > 0 && MaxEntry(Operator(geo), geo.Size()) > 0.0
  {
    SizePositive(geo);
    DiagonalPositive(geo, 0);
  }

  /** c is off every face: strictly inside each axis in use. */
  predicate Inside(geo: Geo, c: Cell)
    requires Valid(geo)
  {
    forall a :: 0 <= a < geo.dims ==> 0 < Coord(c, a) < geo.Ext(a) - 1
  }

  /**
   * No face pass claims a cell off every face of the non-repeating axes
   * (the ends of a repeating axis are left to the wrapped stencil).
   */
  lemma InsideUnclaimed(geo: Geo, c: Cell)
    requires Valid(geo) && geo.Box(c)
    requires forall a :: 0 <= a < geo.dims && !geo.Along(a).bc.Periodic() ==> 0 < Coord(c, a) < geo.Ext(a) - 1
    ensures Claimant(geo, c) == 4 * geo.dims
  {
    var t := Claimant(geo, c);
    if t < 4 * geo.dims {
      assert false;
    }
  }

  /** The node the degeneracy fix names: (i, j) in 2D, (i, j, k) in 3D. */
  function FixCell(geo: Geo): Cell {
    Cell(geo.x.fix, geo.y.fix, if geo.dims == 3 then geo.z.fix else 0)
  }

  /** The fix node is in the box when it is off every face; then its row is its flat index. */
  lemma FixCellRow(geo: Geo)
    requires Valid(geo) && Fixing(geo) && Inside(geo, FixCell(geo))
    ensures geo.Box(FixCell(geo)) && geo.Flat(FixCell(geo)) == FixFlat(geo) == FixRow(geo)
  {
    var c := FixCell(geo);
    assert Coord(c, 0) == c.i && Coord(c, 1) == c.j;
    assert geo.dims == 3 ==> Coord(c, 2) == c.k;
    IndexInRange(c, geo.x.N(), geo.y.N(), geo.Ext(2));
  }

  /** For a fix node off every face, the columns the fix clears are exactly those the interior pass wrote. */
  lemma ClearedIsAround(geo: Geo)
    requires Valid(geo) && Fixing(geo) && Inside(geo, FixCell(geo))
    ensures geo.Box(FixCell(geo)) && Cleared(geo) == Around(geo, FixCell(geo))
  {
    var c := FixCell(geo);
    FixCellRow(geo);
    InsideNeighbours(geo, c);
    MijkShifts(c.i, c.j, c.k, geo.x.N(), geo.y.N());
  }

  /** Off every face, the steps of the interior pass go to the adjacent nodes: no wrap and no clamp. */
  lemma InsideNeighbours(geo: Geo, c: Cell)
    requires Valid(geo) && geo.Box(c) && Inside(geo, c)
    ensures Neighbour(geo, c, 0, -1) == Cell(c.i - 1, c.j, c.k) && Neighbour(geo, c, 0, 1) == Cell(c.i + 1, c.j, c.k)
    ensures Neighbour(geo, c, 1, -1) == Cell(c.i, c.j - 1, c.k) && Neighbour(geo, c, 1, 1) == Cell(c.i, c.j + 1, c.k)
    ensures geo.dims == 3 ==>
      Neighbour(geo, c, 2, -1) == Cell(c.i, c.j, c.k - 1) && Neighbour(geo, c, 2, 1) == Cell(c.i, c.j, c.k + 1)
  {
    assert 0 < Coord(c, 0) < geo.Ext(0) - 1 && 0 < Coord(c, 1) < geo.Ext(1) - 1;
    if geo.dims == 3 {
      assert 0 < Coord(c, 2) < geo.Ext(2) - 1;
    }
  }

  /**
   * The fixed row, for a fix node off every face: only its positive
   * diagonal is left, and b was multiplied by it, so the equation pins x at
   * the node to f times its control volume.
   */
  lemma FixedRowPins(geo: Geo, x: seq<real>)
    requires Valid(geo) && Fixing(geo) && Inside(geo, FixCell(geo)) && |x| == geo.Size()
    ensures var c, r := FixCell(geo), FixRow(geo);
      geo.Box(c) && r == geo.Flat(c) &&
      Operator(geo)[r][r] == -Sum(Weights(geo, c)) > 0.0 &&
      (forall col :: 0 <= col < geo.Size() && col != r ==> Operator(geo)[r][col] == 0.0) &&
      (Dot(Operator(geo)[r], x) == RhsVector(geo)[r] <==> x[r] == Prod([geo.f, Volume(geo, c)]))
  {
    var c, r := FixCell(geo), FixRow(geo);
    FixCellRow(geo);
    ClearedIsAround(geo);
    FixKeepsDiagonal(geo);
    InsideUnclaimed(geo, c);
    BaseAtCell(geo, c);
    InteriorBase(geo, c);
    var d := -Sum(Weights(geo, c));
    assert Operator(geo)[r][r] == d;
    assert RhsVector(geo)[r] == Prod([Prod([geo.f, Volume(geo, c)]), d]);
    PinnedEquation(Operator(geo)[r], x, r, d, Prod([geo.f, Volume(geo, c)]), RhsVector(geo)[r]);
  }
}
