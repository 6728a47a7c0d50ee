/**
 * matvec_1d in L-QLES/matvec.py: the finite-difference Laplacian on one
 * axis with boundary rows for Dirichlet, Neumann, symmetry or repeating
 * ends, the optional fix of the degenerate (all-Neumann) case, and the
 * final division by the largest entry.
 *
 * The assembled operator is given here in closed form (Entry, Rhs); Fill
 * fills the arrays in the order the source does and is proved to produce
 * it; the lemmas below state what its rows mean.
 */
module MatVec1D {
  import opened Bcs
  import opened Grid
  import opened Linear
  import opened Spacing
  import opened Normalise

  /**
   * The inputs of matvec_1d once the tokens are validated and the spacing
   * array d = SpacingOf(x) is built: n = |d| - 1 nodes. The entries are
   * stated over g, the reciprocals 1/dx[i] the source divides by
   * (Measured links the two). The reading decides the high-end symmetry row.
   */
  datatype Problem = Problem(d: seq<real>, g: seq<real>, bc: BcPair, low: real, high: real, f: real, degen: bool, fix: int,
                             reading: Reading) {
    function N(): int { |d| - 1 }
  }

  /** The degeneracy fix runs: degen is off and neither end is Dirichlet. */
  predicate Fixing(p: Problem) {
    !p.degen && !p.bc.HasDirichlet()
  }

  /**
   * What the source needs to run without an index error or a division by
   * zero: two or more nodes with positive spacings (a strictly increasing
   * axis), three or more unless the axis is repeating (two non-repeating
   * nodes give a zero matrix and amax = 0), and a degfix index whose
   * neighbours Python can index.
   */
  predicate Valid(p: Problem) {
    p.N() >= 2 && AllPositive(p.d) && |p.g| == |p.d| && AllPositive(p.g) && Consistent(p.bc) &&
    (p.N() >= 3 || p.bc.Periodic()) &&
    (Fixing(p) ==> -p.N() <= p.fix - 1 && p.fix + 1 < p.N())
  }

  /** g holds the reciprocals of the spacings. */
  predicate Measured(p: Problem) {
    AllPositive(p.d) && p.g == Reciprocals(p.d)
  }

  /** The diagonal an interior row i gets: g[i] + g[i+1] = 1/dx[i] + 1/dx[i+1]; 0 on the end rows. */
  function Diag(g: seq<real>, n: int, i: int): real
    requires |g| == n + 1
  {
    if 0 < i < n - 1 then g[i] + g[i + 1] else 0.0
  }

  /** Row i of the interior stencil: -1/dx[i], the diagonal, -1/dx[i+1]. */
  function InteriorEntry(g: seq<real>, n: int, i: int, c: int): real
    requires |g| == n + 1 && 0 < i < n - 1
  {
    if c == i - 1 then -g[i]
    else if c == i + 1 then -g[i + 1]
    else if c == i then Diag(g, n, i)
    else 0.0
  }

  /** The value a[0][1] holds in the repeating case (a[0][n-1] overwrites it when n = 2). */
  function WrapLow(g: seq<real>, n: int): real
    requires n >= 2 && |g| == n + 1
  {
    if n == 2 then -g[n] else -g[0]
  }

  function WrapHigh(g: seq<real>, n: int): real
    requires n >= 2 && |g| == n + 1
  {
    -g[n]
  }

  /** The diagonal of both end rows in the repeating case. */
  function WrapDiag(g: seq<real>, n: int): real
    requires n >= 2 && |g| == n + 1
  {
    -WrapLow(g, n) - WrapHigh(g, n)
  }

  /** Row 0 after the boundary step. */
  function FirstRow(g: seq<real>, n: int, bc: BcPair, c: int): real
    requires n >= 2 && |g| == n + 1
  {
    if bc.Periodic() then
      (if c == 0 then WrapDiag(g, n)
       else if c == n - 1 then WrapHigh(g, n)
       else if c == 1 then WrapLow(g, n)
       else 0.0)
    else if bc.low == Dirichlet then
      (if c == 0 then Diag(g, n, 1) else 0.0)
    else if bc.low == Neumann || bc.low == Symmetry then
      (if c == 0 then Diag(g, n, 1) else if c == 1 then -Diag(g, n, 1) else 0.0)
    else 0.0
  }

  /**
   * Row n-1 after the boundary step under the intended reading: a high-end
   * symmetry is the zero-gradient Neumann case it is at the low end.
   */
  function LastRow(g: seq<real>, n: int, bc: BcPair, c: int): real
    requires n >= 2 && |g| == n + 1
  {
    if bc.Periodic() then
      (if c == n - 1 then WrapDiag(g, n)
       else if c == 0 then WrapLow(g, n)
       else if c == n - 2 then WrapHigh(g, n)
       else 0.0)
    else if bc.high == Dirichlet then
      (if c == n - 1 then Diag(g, n, n - 2) else 0.0)
    else if bc.high == Neumann || bc.high == Symmetry then
      (if c == n - 1 then Diag(g, n, n - 2) else if c == n - 2 then -Diag(g, n, n - 2) else 0.0)
    else 0.0
  }

  /** Row n-1 as matvec_1d writes it: a high-end symmetry gets the Dirichlet row. */
  function LastRowAsWritten(g: seq<real>, n: int, bc: BcPair, c: int): real
    requires n >= 2 && |g| == n + 1
  {
    if bc.Periodic() then LastRow(g, n, bc, c)
    else if bc.high == Dirichlet || bc.high == Symmetry then
      (if c == n - 1 then Diag(g, n, n - 2) else 0.0)
    else LastRow(g, n, bc, c)
  }

  /** Row n-1 under the given reading. */
  function EndRow(g: seq<real>, n: int, bc: BcPair, reading: Reading, c: int): real
    requires n >= 2 && |g| == n + 1
  {
    if reading == AsWritten then LastRowAsWritten(g, n, bc, c) else LastRow(g, n, bc, c)
  }

  /** The matrix before the degeneracy fix. */
  function BaseEntry(p: Problem, r: int, c: int): real
    requires Valid(p)
  {
    var n, g := p.N(), p.g;
    if 0 < r < n - 1 then InteriorEntry(g, n, r, c)
    else if r == 0 then FirstRow(g, n, p.bc, c)
    else EndRow(g, n, p.bc, p.reading, c)
  }

  /** The right-hand side before the fix: value times diagonal at the ends (none for symmetry), f inside. */
  function BaseRhs(p: Problem, r: int): real
    requires Valid(p)
  {
    var n := p.N();
    if r == 0 then (if p.bc.low != Symmetry then p.low * BaseEntry(p, 0, 0) else 0.0)
    else if r == n - 1 then (if p.bc.high != Symmetry then p.high * BaseEntry(p, n - 1, n - 1) else 0.0)
    else p.f
  }

  /** The row the fix rewrites and the two columns it clears, read as Python indices. */
  function FixRow(p: Problem): int
    requires Valid(p) && Fixing(p)
  {
    PyIndex(p.fix, p.N())
  }

  predicate FixedEntry(p: Problem, r: int, c: int)
    requires Valid(p)
  {
    Fixing(p) && r == FixRow(p) &&
    (c == PyIndex(p.fix - 1, p.N()) || c == PyIndex(p.fix + 1, p.N()))
  }

  /** The assembled (unscaled) matrix entry a[r][c]. */
  function Entry(p: Problem, r: int, c: int): real
    requires Valid(p)
  {
    if FixedEntry(p, r, c) then 0.0 else BaseEntry(p, r, c)
  }

  /** The assembled (unscaled) right-hand side b[r]. */
  function Rhs(p: Problem, r: int): real
    requires Valid(p)
  {
    if Fixing(p) && r == FixRow(p) then BaseRhs(p, r) * BaseEntry(p, r, r) else BaseRhs(p, r)
  }

  function Operator(p: Problem): (A: Matrix)
    requires Valid(p)
    ensures IsMatrix(A, p.N(), p.N())
  {
    seq(p.N(), r requires 0 <= r < p.N() => seq(p.N(), c requires 0 <= c < p.N() => Entry(p, r, c)))
  }

  function RhsVector(p: Problem): (b: seq<real>)
    requires Valid(p)
    ensures |b| == p.N()
  {
    seq(p.N(), r requires 0 <= r < p.N() => Rhs(p, r))
  }

  // ---------------------------------------------------------------------------
  // The assembly loops
  // ---------------------------------------------------------------------------

  /** The interior loop: rows 1..n-2 get the three-point stencil. */
  method InteriorRows(a: array2<real>, d: seq<real>, g: seq<real>, n: int)
    requires n >= 2 && a.Length0 == n && a.Length1 == n && |d| == n + 1 && AllPositive(d) && g == Reciprocals(d)
    requires forall r, c :: 0 <= r < n && 0 <= c < n ==> a[r, c] == 0.0
    modifies a
    ensures forall r, c :: 0 <= r < n && 0 <= c < n ==>
      a[r, c] == if 0 < r < n - 1 then InteriorEntry(g, n, r, c) else 0.0
  {
    for i := 1 to n - 1
      invariant forall r, c :: 0 <= r < n && 0 <= c < n ==>
        a[r, c] == if 0 < r < i then InteriorEntry(g, n, r, c) else 0.0
    {
      ReciprocalAt(d, i);
      ReciprocalAt(d, i + 1);
      a[i, i - 1] := -1.0 / d[i];
      a[i, i + 1] := -1.0 / d[i + 1];
      a[i, i] := -a[i, i - 1] - a[i, i + 1];
    }
  }

  /** The boundary rows, read off the interior rows next to them. */
  method EndRows(a: array2<real>, d: seq<real>, g: seq<real>, n: int, bc: BcPair, reading: Reading)
    requires n >= 2 && a.Length0 == n && a.Length1 == n && |d| == n + 1 && AllPositive(d) && g == Reciprocals(d)
    requires n >= 3 || bc.Periodic()
    requires forall r, c :: 0 <= r < n && 0 <= c < n ==>
      a[r, c] == if 0 < r < n - 1 then InteriorEntry(g, n, r, c) else 0.0
    modifies a
    ensures forall r, c :: 0 <= r < n && 0 <= c < n ==>
      a[r, c] == if 0 < r < n - 1 then InteriorEntry(g, n, r, c)
                 else if r == 0 then FirstRow(g, n, bc, c)
                 else EndRow(g, n, bc, reading, c)
  {
    if bc.Periodic() {
      ReciprocalAt(d, 0);
      ReciprocalAt(d, n);
      a[0, 1] := -1.0 / d[0];
      a[0, n - 1] := -1.0 / d[n];
      a[0, 0] := -a[0, 1] - a[0, n - 1];
      a[n - 1, n - 1] := a[0, 0];
      a[n - 1, n - 2] := a[0, n - 1];
      a[n - 1, 0] := a[0, 1];
    } else {
      LowEnd(a, g, n, bc);
      HighEnd(a, g, n, bc, reading);
    }
  }

  /** Row 0 of a non-repeating axis: a[1][1] copied to the diagonal, and its negation beside it for N or S. */
  method LowEnd(a: array2<real>, g: seq<real>, n: int, bc: BcPair)
    requires n >= 3 && a.Length0 == n && a.Length1 == n && |g| == n + 1 && !bc.Periodic()
    requires a[1, 1] == Diag(g, n, 1)
    requires forall c :: 0 <= c < n ==> a[0, c] == 0.0
    modifies a
    ensures forall r, c :: 0 <= r < n && 0 <= c < n ==>
      a[r, c] == if r == 0 then FirstRow(g, n, bc, c) else old(a[r, c])
  {
    if bc.low == Dirichlet {
      a[0, 0] := a[1, 1];
    } else if bc.low == Neumann || bc.low == Symmetry {
      a[0, 0] := a[1, 1];
      a[0, 1] := -a[0, 0];
    }
  }

  /**
   * Row n-1 of a non-repeating axis: a[n-2][n-2] copied to the diagonal,
   * and its negation beside it for N, and for S under the intended reading.
   */
  method HighEnd(a: array2<real>, g: seq<real>, n: int, bc: BcPair, reading: Reading)
    requires n >= 3 && a.Length0 == n && a.Length1 == n && |g| == n + 1 && !bc.Periodic()
    requires a[n - 2, n - 2] == Diag(g, n, n - 2)
    requires forall r, c :: n - 1 <= r < n && 0 <= c < n ==> a[r, c] == 0.0
    modifies a
    ensures forall r, c :: 0 <= r < n && 0 <= c < n ==>
      a[r, c] == if r == n - 1 then EndRow(g, n, bc, reading, c) else old(a[r, c])
  {
    if bc.high == Dirichlet || (bc.high == Symmetry && reading == AsWritten) {
      a[n - 1, n - 1] := a[n - 2, n - 2];
    } else if bc.high == Neumann || bc.high == Symmetry {
      a[n - 1, n - 1] := a[n - 2, n - 2];
      a[n - 1, n - 2] := -a[n - 1, n - 1];
    }
  }

  /** The right-hand side: boundary values times the end diagonals (none for symmetry), f inside. */
  method RhsEntries(b: array<real>, a: array2<real>, p: Problem)
    requires Valid(p) && b.Length == p.N() && a.Length0 == p.N() && a.Length1 == p.N()
    requires a[0, 0] == BaseEntry(p, 0, 0) && a[p.N() - 1, p.N() - 1] == BaseEntry(p, p.N() - 1, p.N() - 1)
    requires forall r :: 0 <= r < p.N() ==> b[r] == 0.0
    modifies b
    ensures forall r :: 0 <= r < p.N() ==> b[r] == BaseRhs(p, r)
  {
    var n := p.N();
    if p.bc.low != Symmetry {
      b[0] := p.low * a[0, 0];
    }
    if p.bc.high != Symmetry {
      b[n - 1] := p.high * a[n - 1, n - 1];
    }
    assert b[0] == BaseRhs(p, 0) && b[n - 1] == BaseRhs(p, n - 1);
    for i := 1 to n - 1
      invariant b[0] == BaseRhs(p, 0) && b[n - 1] == BaseRhs(p, n - 1)
      invariant forall r :: 0 < r < i ==> b[r] == p.f
    {
      b[i] := p.f;
    }
  }

  /** The fixed row's right-hand side: its old value times its diagonal. */
  lemma RhsFixed(p: Problem, b0r: real, a0rr: real, br: real, r: int)
    requires Valid(p) && Fixing(p) && r == FixRow(p)
    requires b0r == BaseRhs(p, r) && a0rr == BaseEntry(p, r, r) && br == b0r * a0rr
    ensures br == Rhs(p, r)
  {
  }

  /** The degeneracy fix: clear the two neighbours of row fix and scale its right-hand side. */
  method FixDegenerate(a: array2<real>, b: array<real>, p: Problem, ghost A0: Matrix, ghost b0: seq<real>)
    requires Valid(p) && b.Length == p.N() && a.Length0 == p.N() && a.Length1 == p.N()
    requires A0 == Contents(a) && b0 == b[..]
    requires forall r :: 0 <= r < p.N() ==> b0[r] == BaseRhs(p, r)
    requires forall r :: 0 <= r < p.N() ==> A0[r][r] == BaseEntry(p, r, r)
    modifies a, b
    ensures forall r, c :: 0 <= r < p.N() && 0 <= c < p.N() ==>
      a[r, c] == if FixedEntry(p, r, c) then 0.0 else A0[r][c]
    ensures forall r :: 0 <= r < p.N() ==> b[r] == Rhs(p, r)
  {
    var n := p.N();
    if !p.degen {
      if p.bc.low != Dirichlet && p.bc.high != Dirichlet {
        var i := p.fix;
        var row := PyIndex(i, n);
        assert b[row] == b0[row] && a[row, row] == A0[row][row];
        a[row, PyIndex(i - 1, n)] := 0.0;
        a[row, PyIndex(i + 1, n)] := 0.0;
        var v, w := b[row], a[row, row];
        b[row] := v * w;
        RhsFixed(p, v, w, b[row], row);
      }
    }
  }

  /** The rows the boundary step leaves are the matrix before the fix. */
  lemma BaseMatches(p: Problem, A0: Matrix)
    requires Valid(p) && IsMatrix(A0, p.N(), p.N())
    requires forall r, c :: 0 <= r < p.N() && 0 <= c < p.N() ==>
      A0[r][c] == if 0 < r < p.N() - 1 then InteriorEntry(p.g, p.N(), r, c)
                  else if r == 0 then FirstRow(p.g, p.N(), p.bc, c)
                  else EndRow(p.g, p.N(), p.bc, p.reading, c)
    ensures forall r, c :: 0 <= r < p.N() && 0 <= c < p.N() ==> A0[r][c] == BaseEntry(p, r, c)
  {
  }

  /** The assembled matrix: the base entries with the fixed ones cleared. */
  lemma MatrixFixed(p: Problem, A0: Matrix, A: Matrix)
    requires Valid(p) && IsMatrix(A0, p.N(), p.N()) && IsMatrix(A, p.N(), p.N())
    requires forall r, c :: 0 <= r < p.N() && 0 <= c < p.N() ==> A0[r][c] == BaseEntry(p, r, c)
    requires forall r, c :: 0 <= r < p.N() && 0 <= c < p.N() ==>
      A[r][c] == if FixedEntry(p, r, c) then 0.0 else A0[r][c]
    ensures A == Operator(p)
  {
    MatrixEqual(A, Operator(p), p.N());
  }

  /** The stencil and the boundary rows: the matrix before the fix. */
  method FillMatrix(p: Problem) returns (a: array2<real>)
    requires Valid(p) && Measured(p)
    ensures fresh(a) && a.Length0 == p.N() && a.Length1 == p.N()
    ensures forall r, c :: 0 <= r < p.N() && 0 <= c < p.N() ==> a[r, c] == BaseEntry(p, r, c)
  {
    var n := p.N();
    a := new real[n, n]((_, _) => 0.0);
    InteriorRows(a, p.d, p.g, n);
    EndRows(a, p.d, p.g, n, p.bc, p.reading);
    BaseMatches(p, Contents(a));
  }

  /** The right-hand side and the degeneracy fix, on the matrix FillMatrix leaves. */
  method Finish(p: Problem, a: array2<real>) returns (A: Matrix, b: seq<real>)
    requires Valid(p) && a.Length0 == p.N() && a.Length1 == p.N()
    requires forall r, c :: 0 <= r < p.N() && 0 <= c < p.N() ==> a[r, c] == BaseEntry(p, r, c)
    modifies a
    ensures A == Operator(p) && b == RhsVector(p)
  {
    var n := p.N();
    ghost var A0 := Contents(a);
    assert forall r, c :: 0 <= r < n && 0 <= c < n ==> A0[r][c] == BaseEntry(p, r, c);
    var bv := new real[n](_ => 0.0);
    RhsEntries(bv, a, p);
    FixDegenerate(a, bv, p, A0, bv[..]);
    A := Contents(a);
    b := bv[..];
    MatrixFixed(p, A0, A);
    assert forall r :: 0 <= r < n ==> b[r] == RhsVector(p)[r];
  }

  /** Assembly of a and b in the order of matvec_1d, before the scaling. */
  method Fill(p: Problem) returns (A: Matrix, b: seq<real>)
    requires Valid(p) && Measured(p)
    ensures A == Operator(p) && b == RhsVector(p)
  {
    var a := FillMatrix(p);
    A, b := Finish(p, a);
  }

  // ---------------------------------------------------------------------------
  // What the rows of the assembled system say
  // ---------------------------------------------------------------------------

  /** Every diagonal entry is positive: the fix clears off-diagonal entries only. */
  lemma DiagonalPositive(p: Problem, r: int)
    requires Valid(p) && 0 <= r < p.N()
    ensures Operator(p)[r][r] == BaseEntry(p, r, r) > 0.0
  {
  }

  /**
   * An interior row that is not the fixed one sums to zero (constants solve
   * the homogeneous stencil), keeps a positive diagonal and non-positive
   * neighbours, and couples only the two adjacent nodes.
   */
  lemma InteriorRow(p: Problem, r: int)
    requires Valid(p) && 0 < r < p.N() - 1 && !(Fixing(p) && r == FixRow(p))
    ensures Sum(Operator(p)[r]) == 0.0
    ensures forall c :: 0 <= c < p.N() && c != r ==> Operator(p)[r][c] <= 0.0
    ensures forall c :: 0 <= c < p.N() && c != r - 1 && c != r && c != r + 1 ==> Operator(p)[r][c] == 0.0
  {
    SumThree(Operator(p)[r], r - 1, r, r + 1);
  }

  /** A Dirichlet low end: the first equation holds exactly when x[0] is the boundary value. */
  lemma DirichletLow(p: Problem, x: seq<real>)
    requires Valid(p) && |x| == p.N() && p.bc.low == Dirichlet
    ensures Dot(Operator(p)[0], x) == RhsVector(p)[0] <==> x[0] == p.low
  {
    var a00 := Operator(p)[0][0];
    DiagonalPositive(p, 0);
    DotSingle(Operator(p)[0], x, 0);
    Pin(a00, x[0], p.low);
  }

  /** A Dirichlet high end: the last equation holds exactly when x[n-1] is the boundary value. */
  lemma DirichletHigh(p: Problem, x: seq<real>)
    requires Valid(p) && |x| == p.N() && p.bc.high == Dirichlet
    ensures Dot(Operator(p)[p.N() - 1], x) == RhsVector(p)[p.N() - 1] <==> x[p.N() - 1] == p.high
  {
    var n := p.N();
    var ann := Operator(p)[n - 1][n - 1];
    DiagonalPositive(p, n - 1);
    DotSingle(Operator(p)[n - 1], x, n - 1);
    Pin(ann, x[n - 1], p.high);
  }

  /**
   * A Neumann or symmetry low end: the first equation is the one-sided
   * difference x[0] - x[1] = value (0 for symmetry), a zero row sum.
   */
  lemma GradientLow(p: Problem, x: seq<real>)
    requires Valid(p) && |x| == p.N() && (p.bc.low == Neumann || p.bc.low == Symmetry)
    requires !(Fixing(p) && FixRow(p) == 0)
    ensures Sum(Operator(p)[0]) == 0.0
    ensures Dot(Operator(p)[0], x) == RhsVector(p)[0] <==>
      x[0] - x[1] == if p.bc.low == Neumann then p.low else 0.0
  {
    var u := Operator(p)[0];
    DiagonalPositive(p, 0);
    SumTwo(u, 0, 1);
    DotDifference(u, x, 0, 1);
    Pin(u[0], x[0] - x[1], if p.bc.low == Neumann then p.low else 0.0);
  }

  /** The same at the high end: x[n-1] - x[n-2] = value (0 for symmetry). */
  lemma GradientHigh(p: Problem, x: seq<real>)
    requires Valid(p) && |x| == p.N()
    requires p.bc.high == Neumann || (p.bc.high == Symmetry && p.reading == Intended)
    requires !(Fixing(p) && FixRow(p) == p.N() - 1)
    ensures Sum(Operator(p)[p.N() - 1]) == 0.0
    ensures Dot(Operator(p)[p.N() - 1], x) == RhsVector(p)[p.N() - 1] <==>
      x[p.N() - 1] - x[p.N() - 2] == if p.bc.high == Neumann then p.high else 0.0
  {
    var n := p.N();
    var u := Operator(p)[n - 1];
    DiagonalPositive(p, n - 1);
    SumTwo(u, n - 1, n - 2);
    DotDifference(u, x, n - 1, n - 2);
    Pin(u[n - 1], x[n - 1] - x[n - 2], if p.bc.high == Neumann then p.high else 0.0);
  }

  /**
   * matvec_1d as written: with a high-end symmetry the last row holds only
   * its diagonal and the right-hand side is 0, so the equation forces
   * x[n-1] = 0 instead of a zero gradient; a constant x of ones fails it.
   */
  lemma HighSymmetryAsWritten(p: Problem, x: seq<real>)
    requires Valid(p) && |x| == p.N() && p.bc.high == Symmetry && p.reading == AsWritten
    requires !(Fixing(p) && FixRow(p) == p.N() - 1)
    ensures var u := Operator(p)[p.N() - 1]; forall c :: 0 <= c < |u| - 1 ==> u[c] == 0.0
    ensures Operator(p)[p.N() - 1][p.N() - 1] > 0.0 && RhsVector(p)[p.N() - 1] == 0.0
    ensures Dot(Operator(p)[p.N() - 1], x) == RhsVector(p)[p.N() - 1] <==> x[p.N() - 1] == 0.0
    ensures (forall k :: 0 <= k < |x| ==> x[k] == 1.0) ==> Dot(Operator(p)[p.N() - 1], x) != RhsVector(p)[p.N() - 1]
  {
    var n := p.N();
    var u := Operator(p)[n - 1];
    DiagonalPositive(p, n - 1);
    SingleEntry(u, x, n - 1, 0.0, 0.0);
  }

  /** The intended row accepts every constant: x[n-1] = x[n-2] is all it asks. */
  lemma HighSymmetryCorrected(p: Problem, x: seq<real>)
    requires Valid(p) && |x| == p.N() && p.bc.high == Symmetry && p.reading == Intended
    requires !(Fixing(p) && FixRow(p) == p.N() - 1)
    ensures Sum(Operator(p)[p.N() - 1]) == 0.0
    ensures Dot(Operator(p)[p.N() - 1], x) == RhsVector(p)[p.N() - 1] <==> x[p.N() - 1] == x[p.N() - 2]
  {
    GradientHigh(p, x);
  }

  /**
   * A repeating axis of three or more nodes: both end rows couple across
   * the wrap, share one diagonal and sum to zero.
   */
  lemma PeriodicRows(p: Problem)
    requires Valid(p) && p.bc.Periodic() && p.N() >= 3
    requires !(Fixing(p) && (FixRow(p) == 0 || FixRow(p) == p.N() - 1))
    ensures Sum(Operator(p)[0]) == 0.0 && Sum(Operator(p)[p.N() - 1]) == 0.0
    ensures Operator(p)[p.N() - 1][p.N() - 1] == Operator(p)[0][0]
    ensures Operator(p)[0][p.N() - 1] < 0.0 && Operator(p)[p.N() - 1][0] < 0.0
  {
    var n := p.N();
    SumThree(Operator(p)[0], 0, 1, n - 1);
    SumThree(Operator(p)[n - 1], n - 1, 0, n - 2);
  }

  /**
   * The fixed row keeps only its diagonal, so its equation pins x at that
   * node to the value the row had before the fix (f inside, the boundary
   * value at a Neumann end).
   */
  lemma FixedRowPins(p: Problem, x: seq<real>)
    requires Valid(p) && Fixing(p) && |x| == p.N()
    ensures forall c :: 0 <= c < p.N() && c != FixRow(p) ==> Operator(p)[FixRow(p)][c] == 0.0
    ensures Dot(Operator(p)[FixRow(p)], x) == RhsVector(p)[FixRow(p)] <==> x[FixRow(p)] == BaseRhs(p, FixRow(p))
  {
    var r := FixRow(p);
    var u := Operator(p)[r];
    DiagonalPositive(p, r);
    var v, rhs := BaseRhs(p, r), RhsVector(p)[r];
    assert rhs == v * u[r];
    SingleEntry(u, x, r, v, rhs);
  }

  /** A row whose only nonzero entry is a positive u[r], with right-hand side v * u[r], pins x[r] to v. */
  lemma SingleEntry(u: seq<real>, x: seq<real>, r: int, v: real, rhs: real)
    requires |u| == |x| && 0 <= r < |u| && u[r] > 0.0 && rhs == v * u[r]
    requires forall c :: 0 <= c < |u| && c != r ==> u[c] == 0.0
    ensures Dot(u, x) == rhs <==> x[r] == v
  {
    DotSingle(u, x, r);
    Pin(u[r], x[r], v);
  }

  /** The largest entry is positive, so the scaling is defined. */
  lemma MaxPositive(p: Problem)
    requires Valid(p)
    ensures MaxEntry(Operator(p), p.N()) > 0.0
  {
    DiagonalPositive(p, 0);
  }

  // ---------------------------------------------------------------------------
  // matvec_1d
  // ---------------------------------------------------------------------------

  /**
   * What matvec_1d needs of its inputs once the tokens are valid: a strictly
   * increasing axis of two or more nodes, three or more unless it repeats,
   * and, when the fix runs, a degfix whose neighbours Python can index.
   */
  predicate Admissible(x: seq<real>, bc: BcPair, degen: bool, fix: int) {
    |x| >= 2 && Increasing(x) && (|x| >= 3 || bc.Periodic()) &&
    (!degen && !bc.HasDirichlet() ==> -|x| <= fix - 1 && fix + 1 < |x|)
  }

  /** The problem matvec_1d sets up from the coordinates and the validated tokens. */
  function ProblemOf(x: seq<real>, bc: BcPair, low: real, high: real, f: real, degen: bool, fix: int, reading: Reading): (p: Problem)
    requires Admissible(x, bc, degen, fix) && Consistent(bc)
    ensures Valid(p) && Measured(p) && p.N() == |x| && p.d == SpacingOf(x)
  {
    var d := SpacingOf(x);
    SpacingPositive(d, x);
    ReciprocalsPositive(d);
    Problem(d, Reciprocals(d), bc, low, high, f, degen, fix, reading)
  }

  /**
   * matvec_1d: a token error from check_bcs, or the assembled system
   * divided by its largest entry.
   */
  method MatVec1D(x: seq<real>, lowTok: string, highTok: string, low: real, high: real, f: real, degen: bool, fix: int,
                  reading: Reading)
    returns (res: Result<(Matrix, seq<real>)>)
    requires CheckBcs(lowTok, highTok, "x").Ok? ==> Admissible(x, CheckBcs(lowTok, highTok, "x").value, degen, fix)
    ensures CheckBcs(lowTok, highTok, "x").Err? ==> res == Err(CheckBcs(lowTok, highTok, "x").error)
    ensures CheckBcs(lowTok, highTok, "x").Ok? ==>
      var p := ProblemOf(x, CheckBcs(lowTok, highTok, "x").value, low, high, f, degen, fix, reading);
      var amax := MaxEntry(Operator(p), p.N());
      amax > 0.0 && res == Ok((ScaleMatrix(Operator(p), amax), ScaleVector(RhsVector(p), amax)))
  {
    var check := CheckBcs(lowTok, highTok, "x");
    if check.Err? {
      return Err(check.error);
    }
    CheckBcsAccepts(lowTok, highTok, "x");
    var bc := check.value;
    var d := Spacings(x);
    SpacingPositive(d, x);
    var p := Problem(d, Reciprocals(d), bc, low, high, f, degen, fix, reading);
    assert p == ProblemOf(x, bc, low, high, f, degen, fix, reading);
    var A, b := Fill(p);
    MaxPositive(p);
    var amax := MaxEntry(A, p.N());
    res := Ok((ScaleMatrix(A, amax), ScaleVector(b, amax)));
  }
}
