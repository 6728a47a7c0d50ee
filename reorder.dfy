/**
 * Closest-neighbour reordering of a structured-grid linear system
 * (reorder in L-QLES/reorder.py).
 *
 * Cells are numbered outward from the origin cell, one sweep at a time: each
 * sweep expands the cells numbered by the previous sweep into their 2x2x2
 * blocks of higher neighbours. The numbering is then turned into permutation
 * matrices P and Q, and the system A x = b into (P A Q) y = P b, whose solution
 * gives back x = Q y.
 */
module Reorder {
  import opened Grid
  import opened Linear

  predicate Dims(ni: int, nj: int, nk: int) {
    ni > 0 && nj > 0 && nk > 0
  }

  function Max(a: int, b: int): int {
    if a >= b then a else b
  }

  /** The largest coordinate of cell c: the sweep after which it is numbered. */
  function Shell(c: int, ni: int, nj: int, nk: int): int
    requires Dims(ni, nj, nk) && 0 <= c < ni * nj * nk
  {
    var x := CellOf(c, ni, nj);
    Max(x.i, Max(x.j, x.k))
  }

  /** The cells numbered once s sweeps are complete. */
  ghost function Done(s: int, ni: int, nj: int, nk: int): set<int>
    requires Dims(ni, nj, nk)
  {
    if s <= 0 then {} else set c | 0 <= c < ni * nj * nk && Shell(c, ni, nj, nk) <= s
  }

  /** Offsets 0 and 1 along an axis of two or more nodes, offset 0 alone otherwise. */
  function Width(n: int): int {
    Min(2, n)
  }

  function Offsets(ni: int, nj: int, nk: int): (w: int)
    requires Dims(ni, nj, nk)
    ensures w >= 1
  {
    var wi, wj, wk := Width(ni), Width(nj), Width(nk);
    assert wi * wj >= 1 by { MulMono(wi, 1, wj); }
    assert wi * wj * wk >= 1 by { MulMono(wi * wj, 1, wk); }
    wi * wj * wk
  }

  /**
   * The o-th cell of the block of p, in the order of the three offset loops
   * (first axis fastest), each coordinate clamped to its last node.
   */
  function Offset(p: int, o: int, ni: int, nj: int, nk: int): (mn: int)
    requires Dims(ni, nj, nk) && 0 <= p < ni * nj * nk && 0 <= o < Offsets(ni, nj, nk)
    ensures 0 <= mn < ni * nj * nk
  {
    CellOfInBox(p, ni, nj, nk);
    CellOfInBox(o, Width(ni), Width(nj), Width(nk));
    var c := CellOf(p, ni, nj);
    var d := CellOf(o, Width(ni), Width(nj));
    Clamped(c.i + d.i, c.j + d.j, c.k + d.k, ni, nj, nk)
  }

  // ---------------------------------------------------------------------------
  // Geometry of shells and blocks
  // ---------------------------------------------------------------------------

  /** The grid indices 0..n-1. */
  function Range(n: int): (R: set<int>)
    ensures forall c :: c in R <==> 0 <= c < n
    ensures n >= 0 ==> |R| == n
  {
    if n <= 0 then {} else Range(n - 1) + {n - 1}
  }

  lemma ShellOfCell(x: Cell, ni: int, nj: int, nk: int)
    requires Dims(ni, nj, nk) && InBox(x, ni, nj, nk)
    ensures 0 <= Index(x, ni, nj) < ni * nj * nk
    ensures Shell(Index(x, ni, nj), ni, nj, nk) == Max(x.i, Max(x.j, x.k))
  {
    IndexInRange(x, ni, nj, nk);
  }

  /** The origin cell: index 0, shell 0, and the first cell of its own block. */
  lemma Origin(ni: int, nj: int, nk: int)
    requires Dims(ni, nj, nk)
    ensures CellOf(0, ni, nj) == Cell(0, 0, 0)
    ensures Shell(0, ni, nj, nk) == 0
    ensures Offset(0, 0, ni, nj, nk) == 0
  {
    IndexInRange(Cell(0, 0, 0), ni, nj, nk);
    IndexInRange(Cell(0, 0, 0), Width(ni), Width(nj), Width(nk));
  }

  /** Shells are non-negative and only the origin cell lies in shell 0. */
  lemma ShellZero(c: int, ni: int, nj: int, nk: int)
    requires Dims(ni, nj, nk) && 0 <= c < ni * nj * nk
    ensures Shell(c, ni, nj, nk) >= 0
    ensures Shell(c, ni, nj, nk) == 0 <==> c == 0
  {
    CellOfInBox(c, ni, nj, nk);
    Origin(ni, nj, nk);
  }

  /** A block cell lies in the shell of its corner or the next one. */
  lemma OffsetShell(p: int, o: int, ni: int, nj: int, nk: int)
    requires Dims(ni, nj, nk) && 0 <= p < ni * nj * nk && 0 <= o < Offsets(ni, nj, nk)
    ensures Shell(p, ni, nj, nk) <= Shell(Offset(p, o, ni, nj, nk), ni, nj, nk) <= Shell(p, ni, nj, nk) + 1
  {
    CellOfInBox(p, ni, nj, nk);
    CellOfInBox(o, Width(ni), Width(nj), Width(nk));
    var c := CellOf(p, ni, nj);
    var d := CellOf(o, Width(ni), Width(nj));
    assert Offset(p, o, ni, nj, nk) == Clamped(c.i + d.i, c.j + d.j, c.k + d.k, ni, nj, nk);
    ClampedShell(c, d, ni, nj, nk);
  }

  /** Clamping a cell of the box plus a 0/1 offset moves its largest coordinate up by at most one. */
  lemma ClampedShell(c: Cell, d: Cell, ni: int, nj: int, nk: int)
    requires Dims(ni, nj, nk) && InBox(c, ni, nj, nk) && InBox(d, Width(ni), Width(nj), Width(nk))
    ensures var m := Clamped(c.i + d.i, c.j + d.j, c.k + d.k, ni, nj, nk);
      Max(c.i, Max(c.j, c.k)) <= Shell(m, ni, nj, nk) <= Max(c.i, Max(c.j, c.k)) + 1
  {
    var y := Cell(Min(c.i + d.i, ni - 1), Min(c.j + d.j, nj - 1), Min(c.k + d.k, nk - 1));
    ShellOfCell(y, ni, nj, nk);
    assert c.i <= y.i <= c.i + 1 && c.j <= y.j <= c.j + 1 && c.k <= y.k <= c.k + 1;
    MaxBounds(c, y);
  }

  lemma MaxBounds(c: Cell, y: Cell)
    requires c.i <= y.i <= c.i + 1 && c.j <= y.j <= c.j + 1 && c.k <= y.k <= c.k + 1
    ensures Max(c.i, Max(c.j, c.k)) <= Max(y.i, Max(y.j, y.k)) <= Max(c.i, Max(c.j, c.k)) + 1
  {
  }

  /** The origin is reached only as the first cell of its own block. */
  lemma OffsetZero(p: int, o: int, ni: int, nj: int, nk: int)
    requires Dims(ni, nj, nk) && 0 <= p < ni * nj * nk && 0 <= o < Offsets(ni, nj, nk)
    requires Offset(p, o, ni, nj, nk) == 0
    ensures p == 0 && o == 0
  {
    CellOfInBox(p, ni, nj, nk);
    CellOfInBox(o, Width(ni), Width(nj), Width(nk));
    var c := CellOf(p, ni, nj);
    var d := CellOf(o, Width(ni), Width(nj));
    assert Offset(p, o, ni, nj, nk) == Clamped(c.i + d.i, c.j + d.j, c.k + d.k, ni, nj, nk);
    ClampedZero(c, d, ni, nj, nk);
    assert p == Index(c, ni, nj) && o == Index(d, Width(ni), Width(nj));
  }

  /** Only the origin with offset zero clamps to the origin. */
  lemma ClampedZero(c: Cell, d: Cell, ni: int, nj: int, nk: int)
    requires Dims(ni, nj, nk) && InBox(c, ni, nj, nk) && InBox(d, Width(ni), Width(nj), Width(nk))
    requires Clamped(c.i + d.i, c.j + d.j, c.k + d.k, ni, nj, nk) == 0
    ensures c == Cell(0, 0, 0) && d == Cell(0, 0, 0)
  {
    var y := Cell(Min(c.i + d.i, ni - 1), Min(c.j + d.j, nj - 1), Min(c.k + d.k, nk - 1));
    assert InBox(y, ni, nj, nk);
    IndexInjective(y, Cell(0, 0, 0), ni, nj, nk);
    ZeroCoord(c.i, d.i, ni);
    ZeroCoord(c.j, d.j, nj);
    ZeroCoord(c.k, d.k, nk);
  }

  lemma ZeroCoord(a: int, b: int, n: int)
    requires 0 <= a < n && 0 <= b < Width(n) && Min(a + b, n - 1) == 0
    ensures a == 0 && b == 0
  {
  }

  /** Every cell outside the origin is in the block of a cell one shell further in. */
  lemma Predecessor(c: int, ni: int, nj: int, nk: int) returns (p: int, o: int)
    requires Dims(ni, nj, nk) && 0 <= c < ni * nj * nk && Shell(c, ni, nj, nk) >= 1
    ensures 0 <= p < ni * nj * nk && 0 <= o < Offsets(ni, nj, nk)
    ensures Shell(p, ni, nj, nk) == Shell(c, ni, nj, nk) - 1
    ensures Offset(p, o, ni, nj, nk) == c
  {
    CellOfInBox(c, ni, nj, nk);
    var x := CellOf(c, ni, nj);
    var pc := Cell(Max(x.i - 1, 0), Max(x.j - 1, 0), Max(x.k - 1, 0));
    var d := Cell(x.i - pc.i, x.j - pc.j, x.k - pc.k);
    IndexInRange(pc, ni, nj, nk);
    IndexInRange(d, Width(ni), Width(nj), Width(nk));
    ShellOfCell(pc, ni, nj, nk);
    p := Index(pc, ni, nj);
    o := Index(d, Width(ni), Width(nj));
    assert Cell(Min(pc.i + d.i, ni - 1), Min(pc.j + d.j, nj - 1), Min(pc.k + d.k, nk - 1)) == x;
  }

  /** A cell first numbered in sweep s+1 is in the block of a cell of shell s. */
  lemma Reached(c: int, s: int, ni: int, nj: int, nk: int) returns (p: int, o: int)
    requires Dims(ni, nj, nk) && s >= 0 && c in Done(s + 1, ni, nj, nk) && c !in Done(s, ni, nj, nk)
    ensures 0 <= p < ni * nj * nk && 0 <= o < Offsets(ni, nj, nk)
    ensures Shell(p, ni, nj, nk) == s && Offset(p, o, ni, nj, nk) == c
  {
    ShellZero(c, ni, nj, nk);
    if c == 0 {
      p, o := 0, 0;
      Origin(ni, nj, nk);
    } else {
      p, o := Predecessor(c, ni, nj, nk);
    }
  }

  /** After one or more sweeps the origin is numbered. */
  lemma DoneOrigin(s: int, ni: int, nj: int, nk: int)
    requires Dims(ni, nj, nk) && s >= 1
    ensures 0 in Done(s, ni, nj, nk)
  {
    Origin(ni, nj, nk);
  }

  /** Done(s) never has more cells than the grid. */
  lemma DoneBound(s: int, ni: int, nj: int, nk: int)
    requires Dims(ni, nj, nk)
    ensures |Done(s, ni, nj, nk)| <= ni * nj * nk
  {
    var all, D := Range(ni * nj * nk), Done(s, ni, nj, nk);
    assert all == D + (all - D);
  }

  /** A subset of the grid with as many cells as the grid is the whole grid. */
  lemma Full(N: set<int>, ni: int, nj: int, nk: int)
    requires Dims(ni, nj, nk)
    requires forall c :: c in N ==> 0 <= c < ni * nj * nk
    requires |N| >= ni * nj * nk
    ensures forall c :: 0 <= c < ni * nj * nk ==> c in N
  {
    var all := Range(ni * nj * nk);
    assert all == N + (all - N);
    assert |all - N| == 0;
  }

  /** A cell outside shell s+1 clamps to one of shell s+1. */
  lemma ClampShell(e: int, s: int, ni: int, nj: int, nk: int) returns (c: int)
    requires Dims(ni, nj, nk) && s >= 0 && 0 <= e < ni * nj * nk && Shell(e, ni, nj, nk) > s
    ensures 0 <= c < ni * nj * nk && Shell(c, ni, nj, nk) == s + 1
  {
    CellOfInBox(e, ni, nj, nk);
    var x := CellOf(e, ni, nj);
    var y := Cell(Min(x.i, s + 1), Min(x.j, s + 1), Min(x.k, s + 1));
    ShellOfCell(y, ni, nj, nk);
    c := Index(y, ni, nj);
  }

  lemma Grow(D0: set<int>, D1: set<int>, c: int)
    requires D0 <= D1 && c in D1 && c !in D0
    ensures |D0| < |D1|
  {
    assert D1 == D0 + (D1 - D0);
    assert c in D1 - D0;
  }

  lemma SubsetCard(A: set<int>, B: set<int>)
    requires A <= B
    ensures |A| <= |B|
  {
    assert B == A + (B - A);
  }

  lemma Missing(A: set<int>, B: set<int>)
    requires |A| < |B|
    ensures exists e :: e in B && e !in A
  {
    if forall e :: e in B ==> e in A {
      assert B <= A;
      SubsetCard(B, A);
      assert false;
    }
  }

  /** While cells remain, each sweep numbers at least one more. */
  lemma DoneGrows(s: int, ni: int, nj: int, nk: int)
    requires Dims(ni, nj, nk) && s >= 0
    requires |Done(s, ni, nj, nk)| < ni * nj * nk
    ensures |Done(s, ni, nj, nk)| < |Done(s + 1, ni, nj, nk)|
  {
    var D0, D1 := Done(s, ni, nj, nk), Done(s + 1, ni, nj, nk);
    if s == 0 {
      Origin(ni, nj, nk);
      Grow(D0, D1, 0);
    } else {
      var all := Range(ni * nj * nk);
      Missing(D0, all);
      var e :| e in all && e !in D0;
      var c := ClampShell(e, s, ni, nj, nk);
      Grow(D0, D1, c);
    }
  }

  // ---------------------------------------------------------------------------
  // The numbering state r, with its ghost inverse
  // ---------------------------------------------------------------------------

  /**
   * rs numbers exactly the cells of N with 0..|inv|-1, inv lists them by
   * number, every other cell still reads 0, and the origin has number 0.
   */
  ghost predicate Numbered(rs: seq<int>, N: set<int>, inv: seq<int>, na: int) {
    |rs| == na && |inv| == |N| &&
    (forall c :: 0 <= c < na && c !in N ==> rs[c] == 0) &&
    (forall c :: c in N ==> 0 <= c < na && 0 <= rs[c] < |inv| && inv[rs[c]] == c) &&
    (forall v :: 0 <= v < |inv| ==> inv[v] in N && rs[inv[v]] == v) &&
    (|inv| > 0 ==> inv[0] == 0)
  }

  /** Numbers never decrease in shell: cells are numbered from the origin outward. */
  ghost predicate Outward(inv: seq<int>, ni: int, nj: int, nk: int)
    requires Dims(ni, nj, nk)
  {
    (forall v :: 0 <= v < |inv| ==> 0 <= inv[v] < ni * nj * nk) &&
    forall v, w :: 0 <= v < w < |inv| ==>
      Shell(inv[v], ni, nj, nk) <= Shell(inv[w], ni, nj, nk)
  }

  /** The numbering state during sweep s+1. */
  ghost predicate Progress(rs: seq<int>, N: set<int>, inv: seq<int>, n: int, s: int, ni: int, nj: int, nk: int) {
    Dims(ni, nj, nk) &&
    Done(s, ni, nj, nk) <= N <= Done(s + 1, ni, nj, nk) &&
    Numbered(rs, N, inv, ni * nj * nk) && Outward(inv, ni, nj, nk) && n == |inv|
  }

  /** The test r[mn] == 0 tells an unnumbered cell, except for the origin once numbered. */
  lemma ZeroIffFresh(rs: seq<int>, N: set<int>, inv: seq<int>, na: int, mn: int)
    requires Numbered(rs, N, inv, na) && 0 <= mn < na
    requires mn != 0 || N == {}
    ensures rs[mn] == 0 <==> mn !in N
  {
    if mn in N {
      assert inv[rs[mn]] == mn;
    }
  }

  lemma NumberAdd(rs: seq<int>, N: set<int>, inv: seq<int>, na: int, mn: int)
    requires Numbered(rs, N, inv, na) && 0 <= mn < na && mn !in N
    requires |inv| == 0 ==> mn == 0
    ensures Numbered(rs[mn := |inv|], N + {mn}, inv + [mn], na)
  {
    var rs', N', inv' := rs[mn := |inv|], N + {mn}, inv + [mn];
    forall c | c in N'
      ensures 0 <= c < na && 0 <= rs'[c] < |inv'| && inv'[rs'[c]] == c
    {
    }
    forall v | 0 <= v < |inv'|
      ensures inv'[v] in N' && rs'[inv'[v]] == v
    {
      if v < |inv| {
        assert inv'[v] == inv[v] && inv[v] != mn;
      }
    }
  }

  lemma OutwardAdd(inv: seq<int>, mn: int, ni: int, nj: int, nk: int)
    requires Dims(ni, nj, nk) && Outward(inv, ni, nj, nk) && 0 <= mn < ni * nj * nk
    requires forall v :: 0 <= v < |inv| ==> Shell(inv[v], ni, nj, nk) <= Shell(mn, ni, nj, nk)
    ensures Outward(inv + [mn], ni, nj, nk)
  {
    var inv' := inv + [mn];
    forall v, w | 0 <= v < w < |inv'|
      ensures Shell(inv'[v], ni, nj, nk) <= Shell(inv'[w], ni, nj, nk)
    {
      assert inv'[v] == inv[v];
    }
  }

  /** A cell numbered in sweep s+1 lies in shell s+1, outside every numbered cell's shell. */
  lemma FreshShell(mn: int, s: int, N: set<int>, inv: seq<int>, rs: seq<int>, ni: int, nj: int, nk: int)
    requires Dims(ni, nj, nk) && s >= 0 && 0 <= mn < ni * nj * nk
    requires Numbered(rs, N, inv, ni * nj * nk)
    requires Done(s, ni, nj, nk) <= N <= Done(s + 1, ni, nj, nk)
    requires mn !in N && Shell(mn, ni, nj, nk) <= s + 1 && (mn == 0 ==> N == {})
    ensures mn in Done(s + 1, ni, nj, nk)
    ensures forall v :: 0 <= v < |inv| ==> Shell(inv[v], ni, nj, nk) <= Shell(mn, ni, nj, nk)
  {
    ShellZero(mn, ni, nj, nk);
    forall v | 0 <= v < |inv|
      ensures Shell(inv[v], ni, nj, nk) <= Shell(mn, ni, nj, nk)
    {
      assert inv[v] in Done(s + 1, ni, nj, nk);
    }
  }

  /** The facts a visit of a block cell needs: a cell reading 0 is unnumbered, and lies in shell s+1. */
  lemma VisitTest(rs: seq<int>, N: set<int>, inv: seq<int>, p: int, o: int, s: int, ni: int, nj: int, nk: int)
    requires Dims(ni, nj, nk) && 0 <= p < ni * nj * nk && 0 <= o < Offsets(ni, nj, nk)
    requires s >= 0 && Shell(p, ni, nj, nk) == s
    requires Done(s, ni, nj, nk) <= N
    requires N == {} <==> p == 0 && o == 0
    requires Numbered(rs, N, inv, ni * nj * nk)
    ensures rs[Offset(p, o, ni, nj, nk)] == 0 <==> Offset(p, o, ni, nj, nk) !in N
    ensures Offset(p, o, ni, nj, nk) == 0 <==> N == {}
    ensures Shell(Offset(p, o, ni, nj, nk), ni, nj, nk) <= s + 1
  {
    var mn := Offset(p, o, ni, nj, nk);
    if mn == 0 {
      OffsetZero(p, o, ni, nj, nk);
    }
    Origin(ni, nj, nk);
    OffsetShell(p, o, ni, nj, nk);
    ZeroIffFresh(rs, N, inv, ni * nj * nk, mn);
  }

  /** Numbering an unnumbered block cell keeps the numbering state. */
  lemma VisitAdd(rs: seq<int>, N: set<int>, inv: seq<int>, mn: int, s: int, ni: int, nj: int, nk: int)
    requires Dims(ni, nj, nk) && 0 <= mn < ni * nj * nk && s >= 0
    requires Done(s, ni, nj, nk) <= N <= Done(s + 1, ni, nj, nk)
    requires Numbered(rs, N, inv, ni * nj * nk) && Outward(inv, ni, nj, nk)
    requires mn !in N && Shell(mn, ni, nj, nk) <= s + 1 && (mn == 0 <==> N == {})
    ensures mn in Done(s + 1, ni, nj, nk)
    ensures Numbered(rs[mn := |inv|], N + {mn}, inv + [mn], ni * nj * nk)
    ensures Outward(inv + [mn], ni, nj, nk)
  {
    FreshShell(mn, s, N, inv, rs, ni, nj, nk);
    NumberAdd(rs, N, inv, ni * nj * nk, mn);
    OutwardAdd(inv, mn, ni, nj, nk);
  }

  /** The first k cells of the block of p are numbered. */
  ghost predicate Covered(p: int, k: int, N: set<int>, ni: int, nj: int, nk: int)
    requires Dims(ni, nj, nk) && 0 <= p < ni * nj * nk && k <= Offsets(ni, nj, nk)
  {
    forall o :: 0 <= o < k ==> Offset(p, o, ni, nj, nk) in N
  }

  lemma CoveredStep(p: int, k: int, N: set<int>, N': set<int>, ni: int, nj: int, nk: int)
    requires Dims(ni, nj, nk) && 0 <= p < ni * nj * nk && 0 <= k < Offsets(ni, nj, nk)
    requires Covered(p, k, N, ni, nj, nk) && N <= N' && Offset(p, k, ni, nj, nk) in N'
    ensures Covered(p, k + 1, N', ni, nj, nk)
  {
  }

  /** Every cell of shell s before mp has its whole block numbered. */
  ghost predicate Expanded(mp: int, s: int, N: set<int>, ni: int, nj: int, nk: int)
    requires Dims(ni, nj, nk) && mp <= ni * nj * nk
  {
    forall q :: 0 <= q < mp && Shell(q, ni, nj, nk) == s ==> Covered(q, Offsets(ni, nj, nk), N, ni, nj, nk)
  }

  lemma ExpandedStep(mp: int, s: int, N: set<int>, N': set<int>, ni: int, nj: int, nk: int)
    requires Dims(ni, nj, nk) && 0 <= mp < ni * nj * nk
    requires Expanded(mp, s, N, ni, nj, nk) && N <= N'
    requires Shell(mp, ni, nj, nk) == s ==> Covered(mp, Offsets(ni, nj, nk), N', ni, nj, nk)
    ensures Expanded(mp + 1, s, N', ni, nj, nk)
  {
    forall q | 0 <= q < mp + 1 && Shell(q, ni, nj, nk) == s
      ensures Covered(q, Offsets(ni, nj, nk), N', ni, nj, nk)
    {
      if q < mp {
        assert Covered(q, Offsets(ni, nj, nk), N, ni, nj, nk);
      }
    }
  }

  /** The flags during a sweep at cell mp, for shell s and the cells N0 numbered before it. */
  ghost predicate Flags(fs: seq<int>, mp: int, s: int, N: set<int>, N0: set<int>, ni: int, nj: int, nk: int)
    requires Dims(ni, nj, nk)
  {
    |fs| == ni * nj * nk &&
    forall c :: 0 <= c < ni * nj * nk ==>
      fs[c] == (if Shell(c, ni, nj, nk) == s then (if c < mp then 0 else -1)
                else if c in N && c !in N0 then 1 else 0)
  }

  /** Expanding cell mp of shell s and clearing its flag keeps the flags in step. */
  lemma FlagsStep(fs: seq<int>, fs': seq<int>, mp: int, s: int, N: set<int>, N': set<int>, N0: set<int>,
                  ni: int, nj: int, nk: int)
    requires Dims(ni, nj, nk) && 0 <= mp < ni * nj * nk && s >= 0 && Shell(mp, ni, nj, nk) == s
    requires Flags(fs, mp, s, N, N0, ni, nj, nk) && N0 == Done(s, ni, nj, nk) && N0 <= N <= N'
    requires s == 0 && mp > 0 ==> 0 in N
    requires |fs'| == ni * nj * nk
    requires forall c :: 0 <= c < ni * nj * nk ==>
      fs'[c] == (if c == mp then 0 else if c in N' && c !in N then 1 else fs[c])
    ensures Flags(fs', mp + 1, s, N', N0, ni, nj, nk)
  {
    forall c | 0 <= c < ni * nj * nk && c != mp && Shell(c, ni, nj, nk) == s
      ensures c in N
    {
      ShellZero(c, ni, nj, nk);
    }
  }

  /** At the end of sweep s+1 the flags mark exactly shell s+1. */
  lemma FlagsDone(fs: seq<int>, s: int, ni: int, nj: int, nk: int)
    requires Dims(ni, nj, nk) && s >= 0
    requires Flags(fs, ni * nj * nk, s, Done(s + 1, ni, nj, nk), Done(s, ni, nj, nk), ni, nj, nk)
    ensures forall c :: 0 <= c < ni * nj * nk ==> fs[c] == if Shell(c, ni, nj, nk) == s + 1 then 1 else 0
  {
    forall c | 0 <= c < ni * nj * nk
      ensures fs[c] == if Shell(c, ni, nj, nk) == s + 1 then 1 else 0
    {
      ShellZero(c, ni, nj, nk);
    }
  }

  // ---------------------------------------------------------------------------
  // The traversal
  // ---------------------------------------------------------------------------

  /** f = -f */
  method Negate(f: array<int>)
    modifies f
    ensures forall c :: 0 <= c < f.Length ==> f[c] == -old(f[c])
  {
    var c := 0;
    while c < f.Length
      invariant 0 <= c <= f.Length
      invariant forall e :: 0 <= e < c ==> f[e] == -old(f[e])
      invariant forall e :: c <= e < f.Length ==> f[e] == old(f[e])
    {
      f[c] := -f[c];
      c := c + 1;
    }
  }

  /** Before a block is expanded nothing is numbered exactly when it is the origin's block. */
  lemma EmptyAtOrigin(p: int, s: int, N0: set<int>, ni: int, nj: int, nk: int)
    requires Dims(ni, nj, nk) && 0 <= p < ni * nj * nk && s >= 0 && Shell(p, ni, nj, nk) == s
    requires Done(s, ni, nj, nk) <= N0
    requires p == 0 ==> N0 == {}
    ensures N0 == {} <==> p == 0
  {
    if N0 == {} {
      if s > 0 {
        DoneOrigin(s, ni, nj, nk);
      }
      ShellZero(p, ni, nj, nk);
    }
  }

  /** The body of the offset loops: an unnumbered cell gets the next number and is flagged. */
  method Visit(r: array<int>, f: array<int>, mn: int, ni: int, nj: int, nk: int, n0: int,
               ghost s: int, ghost N0: set<int>, ghost inv0: seq<int>)
    returns (n: int, ghost N: set<int>, ghost inv: seq<int>)
    requires Dims(ni, nj, nk) && r != f && r.Length == ni * nj * nk && f.Length == ni * nj * nk
    requires 0 <= mn < ni * nj * nk && s >= 0
    requires Progress(r[..], N0, inv0, n0, s, ni, nj, nk)
    requires r[mn] == 0 <==> mn !in N0
    requires mn !in N0 ==> Shell(mn, ni, nj, nk) <= s + 1 && (mn == 0 <==> N0 == {})
    modifies r, f
    ensures N == N0 + {mn}
    ensures Progress(r[..], N, inv, n, s, ni, nj, nk)
    ensures forall c :: 0 <= c < ni * nj * nk ==> f[c] == if c == mn && mn !in N0 then 1 else old(f[c])
  {
    n, N, inv := n0, N0, inv0;
    if r[mn] == 0 {
      VisitAdd(r[..], N, inv, mn, s, ni, nj, nk);
      r[mn] := n;
      f[mn] := 1;
      n := n + 1;
      N := N + {mn};
      inv := inv + [mn];
    }
  }

  /**
   * The three offset loops for one cell p of shell s: every unnumbered cell
   * of its block gets the next number and is flagged for the next sweep.
   */
  method ExpandBlock(r: array<int>, f: array<int>, p: int, ni: int, nj: int, nk: int, n0: int,
                     ghost s: int, ghost N0: set<int>, ghost inv0: seq<int>)
    returns (n: int, ghost N: set<int>, ghost inv: seq<int>)
    requires Dims(ni, nj, nk) && r != f && r.Length == ni * nj * nk && f.Length == ni * nj * nk
    requires 0 <= p < ni * nj * nk && s >= 0 && Shell(p, ni, nj, nk) == s
    requires Progress(r[..], N0, inv0, n0, s, ni, nj, nk)
    requires p == 0 ==> N0 == {}
    modifies r, f
    ensures Progress(r[..], N, inv, n, s, ni, nj, nk) && N0 <= N
    ensures Covered(p, Offsets(ni, nj, nk), N, ni, nj, nk)
    ensures forall c :: 0 <= c < ni * nj * nk ==> f[c] == if c in N && c !in N0 then 1 else old(f[c])
  {
    n, N, inv := n0, N0, inv0;
    EmptyAtOrigin(p, s, N0, ni, nj, nk);
    var o := 0;
    while o < Offsets(ni, nj, nk)
      invariant 0 <= o <= Offsets(ni, nj, nk)
      invariant Progress(r[..], N, inv, n, s, ni, nj, nk) && N0 <= N
      invariant o == 0 ==> N == N0
      invariant N == {} <==> p == 0 && o == 0
      invariant Covered(p, o, N, ni, nj, nk)
      invariant forall c :: 0 <= c < ni * nj * nk ==> f[c] == if c in N && c !in N0 then 1 else old(f[c])
    {
      var mn := Offset(p, o, ni, nj, nk);
      ghost var Nb := N;
      VisitTest(r[..], N, inv, p, o, s, ni, nj, nk);
      n, N, inv := Visit(r, f, mn, ni, nj, nk, n, s, N, inv);
      CoveredStep(p, o, Nb, N, ni, nj, nk);
      o := o + 1;
    }
  }

  /** The body of the cell loops at cell mp: a flagged cell expands its block and is cleared. */
  method SweepCell(r: array<int>, f: array<int>, mp: int, ni: int, nj: int, nk: int, n0: int,
                   ghost s: int, ghost Nb: set<int>, ghost N0: set<int>, ghost inv0: seq<int>)
    returns (n: int, ghost N: set<int>, ghost inv: seq<int>)
    requires Dims(ni, nj, nk) && r != f && r.Length == ni * nj * nk && f.Length == ni * nj * nk
    requires 0 <= mp < ni * nj * nk && s >= 0 && N0 == Done(s, ni, nj, nk)
    requires Progress(r[..], Nb, inv0, n0, s, ni, nj, nk)
    requires mp == 0 ==> Nb == N0
    requires s == 0 && mp > 0 ==> 0 in Nb
    requires Expanded(mp, s, Nb, ni, nj, nk)
    requires Flags(f[..], mp, s, Nb, N0, ni, nj, nk)
    modifies r, f
    ensures Progress(r[..], N, inv, n, s, ni, nj, nk)
    ensures s == 0 ==> 0 in N
    ensures Expanded(mp + 1, s, N, ni, nj, nk)
    ensures Flags(f[..], mp + 1, s, N, N0, ni, nj, nk)
  {
    n, N, inv := n0, Nb, inv0;
    ghost var fs := f[..];
    Origin(ni, nj, nk);
    if f[mp] < 0 {
      n, N, inv := ExpandBlock(r, f, mp, ni, nj, nk, n, s, N, inv);
      f[mp] := 0;
      FlagsStep(fs, f[..], mp, s, Nb, N, N0, ni, nj, nk);
    }
    ExpandedStep(mp, s, Nb, N, ni, nj, nk);
  }

  /**
   * One pass of the three cell loops: every cell flagged by the previous
   * sweep (f < 0) expands its block and is then cleared.
   */
  method Sweep(r: array<int>, f: array<int>, ni: int, nj: int, nk: int, n0: int,
               ghost s: int, ghost N0: set<int>, ghost inv0: seq<int>)
    returns (n: int, ghost N: set<int>, ghost inv: seq<int>)
    requires Dims(ni, nj, nk) && r != f && r.Length == ni * nj * nk && f.Length == ni * nj * nk
    requires s >= 0 && N0 == Done(s, ni, nj, nk)
    requires Progress(r[..], N0, inv0, n0, s, ni, nj, nk)
    requires forall c :: 0 <= c < ni * nj * nk ==> f[c] == if Shell(c, ni, nj, nk) == s then -1 else 0
    modifies r, f
    ensures N == Done(s + 1, ni, nj, nk)
    ensures Numbered(r[..], N, inv, ni * nj * nk) && Outward(inv, ni, nj, nk) && n == |inv|
    ensures forall c :: 0 <= c < ni * nj * nk ==> f[c] == if Shell(c, ni, nj, nk) == s + 1 then 1 else 0
  {
    n, N, inv := n0, N0, inv0;
    Origin(ni, nj, nk);
    assert Flags(f[..], 0, s, N, N0, ni, nj, nk);
    var mp := 0;
    while mp < ni * nj * nk
      invariant 0 <= mp <= ni * nj * nk
      invariant Progress(r[..], N, inv, n, s, ni, nj, nk)
      invariant mp == 0 ==> N == N0
      invariant s == 0 && mp > 0 ==> 0 in N
      invariant Expanded(mp, s, N, ni, nj, nk)
      invariant Flags(f[..], mp, s, N, N0, ni, nj, nk)
    {
      n, N, inv := SweepCell(r, f, mp, ni, nj, nk, n, s, N, N0, inv);
      mp := mp + 1;
    }
    forall c | c in Done(s + 1, ni, nj, nk)
      ensures c in N
    {
      if c !in Done(s, ni, nj, nk) {
        var p, o := Reached(c, s, ni, nj, nk);
        assert Covered(p, Offsets(ni, nj, nk), N, ni, nj, nk);
      }
    }
    FlagsDone(f[..], s, ni, nj, nk);
  }

  /**
   * The numbering loop of reorder: rank[c] is the number given to cell c and
   * order[v] the cell numbered v. Numbering starts at the origin and never
   * moves inward.
   */
  method Number(ni: int, nj: int, nk: int) returns (rank: seq<int>, ghost order: seq<int>)
    requires Dims(ni, nj, nk)
    ensures Inverse(rank, order, ni * nj * nk)
    ensures order[0] == 0
    ensures Outward(order, ni, nj, nk)
  {
    var na := ni * nj * nk;
    var r := new int[na](_ => 0);
    var f := new int[na](_ => 0);
    r[0] := 0;
    f[0] := 1;
    var n := 0;
    ghost var s := 0;
    ghost var N: set<int> := {};
    ghost var inv: seq<int> := [];
    forall c | 0 <= c < na
      ensures f[c] == if Shell(c, ni, nj, nk) == 0 then 1 else 0
    {
      ShellZero(c, ni, nj, nk);
    }
    while n < na
      invariant s >= 0 && N == Done(s, ni, nj, nk)
      invariant Numbered(r[..], N, inv, na) && Outward(inv, ni, nj, nk) && n == |inv| && n <= na
      invariant forall c :: 0 <= c < na ==> f[c] == if Shell(c, ni, nj, nk) == s then 1 else 0
      decreases na - n
    {
      Negate(f);
      DoneGrows(s, ni, nj, nk);
      n, N, inv := Sweep(r, f, ni, nj, nk, n, s, N, inv);
      s := s + 1;
      DoneBound(s, ni, nj, nk);
    }
    Full(N, ni, nj, nk);
    rank := r[..];
    order := inv;
  }

  /**
   * What Number's contract means for rank alone: rank is a bijection onto 0..n-1 that gives
   * the origin 0, and a cell of an outer shell gets a larger number.
   */
  lemma RankOutward(rank: seq<int>, order: seq<int>, ni: int, nj: int, nk: int)
    requires Dims(ni, nj, nk) && Inverse(rank, order, ni * nj * nk) && Outward(order, ni, nj, nk) && order[0] == 0
    ensures |rank| == ni * nj * nk && rank[0] == 0
    ensures forall c :: 0 <= c < |rank| ==> 0 <= rank[c] < |rank|
    ensures forall c, e :: 0 <= c < e < |rank| ==> rank[c] != rank[e]
    ensures forall c, e :: 0 <= c < |rank| && 0 <= e < |rank| && Shell(c, ni, nj, nk) < Shell(e, ni, nj, nk) ==>
      rank[c] < rank[e]
  {
    forall c, e | 0 <= c < |rank| && 0 <= e < |rank|
      ensures rank[c] == rank[e] ==> c == e
      ensures rank[e] < rank[c] ==> Shell(e, ni, nj, nk) <= Shell(c, ni, nj, nk)
    {
      assert order[rank[c]] == c && order[rank[e]] == e;
    }
  }

  /** The numbering read backwards, as in the inversion loop: ma[r[i]] = i. */
  method Invert(rank: seq<int>, ghost order: seq<int>) returns (ma: seq<int>)
    requires Inverse(rank, order, |rank|)
    ensures Inverse(ma, rank, |rank|)
  {
    var na := |rank|;
    var m := new int[na](_ => 0);
    var n := 0;
    for i := 0 to na
      invariant n == i
      invariant forall e :: 0 <= e < i ==> m[rank[e]] == e
    {
      m[rank[i]] := n;
      n := n + 1;
    }
    ma := m[..];
    forall j | 0 <= j < na
      ensures 0 <= ma[j] < na && rank[ma[j]] == j
    {
      assert ma[j] == m[rank[order[j]]];
    }
  }

  /** Two inverses of one permutation agree. */
  lemma InverseUnique(rank: seq<int>, order: seq<int>, ma: seq<int>, n: nat)
    requires Inverse(rank, order, n) && Inverse(ma, rank, n)
    ensures ma == order
  {
    forall j | 0 <= j < n
      ensures ma[j] == order[j]
    {
      assert order[rank[ma[j]]] == ma[j];
    }
  }

  /** The permutation matrices: p[i][ma[i]] = 1 and q[ma[i]][i] = 1, all else 0. */
  method Permutations(ma: seq<int>) returns (p: Matrix, q: Matrix)
    requires forall i :: 0 <= i < |ma| ==> 0 <= ma[i] < |ma|
    ensures IsMatrix(p, |ma|, |ma|) && IsMatrix(q, |ma|, |ma|)
    ensures RowPermutation(p, ma, |ma|)
    ensures ColumnPermutation(q, ma, |ma|)
  {
    var na := |ma|;
    p := seq(na, _ => seq(na, _ => 0.0));
    q := seq(na, _ => seq(na, _ => 0.0));
    for i := 0 to na
      invariant IsMatrix(p, na, na) && IsMatrix(q, na, na)
      invariant forall x, y :: 0 <= x < na && 0 <= y < na ==>
        p[x][y] == if x < i && y == ma[x] then 1.0 else 0.0
      invariant forall x, y :: 0 <= x < na && 0 <= y < na ==>
        q[x][y] == if y < i && x == ma[y] then 1.0 else 0.0
    {
      p := p[i := p[i][ma[i] := 1.0]];
      q := q[ma[i] := q[ma[i]][i := 1.0]];
    }
  }

  /** Read by rows, the column permutation of ma is the row permutation of its inverse. */
  lemma ColumnsAsRows(q: Matrix, ma: seq<int>, rank: seq<int>, n: nat)
    requires Inverse(ma, rank, n) && IsMatrix(q, n, n) && ColumnPermutation(q, ma, n)
    ensures RowPermutation(q, rank, n)
  {
    forall u, v | 0 <= u < n && 0 <= v < n
      ensures q[u][v] == if v == rank[u] then 1.0 else 0.0
    {
      assert rank[ma[v]] == v;
    }
  }

  /** q is the transpose of p. */
  lemma PermutationsTranspose(p: Matrix, q: Matrix, ma: seq<int>, n: nat)
    requires IsMatrix(p, n, n) && IsMatrix(q, n, n) && |ma| == n
    requires RowPermutation(p, ma, n) && ColumnPermutation(q, ma, n)
    ensures forall u, v :: 0 <= u < n && 0 <= v < n ==> q[u][v] == p[v][u]
  {
  }

  /** p q is the identity: q undoes p. */
  lemma PQIdentity(p: Matrix, q: Matrix, ma: seq<int>, rank: seq<int>, n: nat)
    requires Inverse(ma, rank, n) && IsMatrix(p, n, n) && IsMatrix(q, n, n)
    requires RowPermutation(p, ma, n) && ColumnPermutation(q, ma, n)
    ensures MatMul(p, q, n, n, n) == Identity(n)
  {
    PermuteRows(p, q, ma, n);
    var C := MatMul(p, q, n, n, n);
    forall i, j | 0 <= i < n && 0 <= j < n
      ensures C[i][j] == Identity(n)[i][j]
    {
      assert C[i][j] == q[ma[i]][j];
      assert rank[ma[i]] == i && rank[ma[j]] == j;
    }
    MatrixEqual(C, Identity(n), n);
  }

  /** q p is the identity: p undoes q. */
  lemma QPIdentity(p: Matrix, q: Matrix, ma: seq<int>, rank: seq<int>, n: nat)
    requires Inverse(ma, rank, n) && IsMatrix(p, n, n) && IsMatrix(q, n, n)
    requires RowPermutation(p, ma, n) && ColumnPermutation(q, ma, n)
    ensures MatMul(q, p, n, n, n) == Identity(n)
  {
    ColumnsAsRows(q, ma, rank, n);
    PermuteRows(q, p, rank, n);
    var C := MatMul(q, p, n, n, n);
    forall i, j | 0 <= i < n && 0 <= j < n
      ensures C[i][j] == Identity(n)[i][j]
    {
      assert C[i][j] == p[rank[i]][j];
      assert ma[rank[i]] == i;
    }
    MatrixEqual(C, Identity(n), n);
  }

  /**
   * reorder: number the cells, invert the numbering, build P and Q and return
   * Q, P A Q and P b. Row i of the new system is the equation of cell ma[i],
   * with its unknowns renumbered the same way.
   */
  method Reorder(a: Matrix, b: seq<real>, ni: int, nj: int, nk: int)
    returns (q: Matrix, paq: Matrix, pb: seq<real>, ghost ma: seq<int>, ghost rank: seq<int>)
    requires Dims(ni, nj, nk) && IsMatrix(a, ni * nj * nk, ni * nj * nk) && |b| == ni * nj * nk
    ensures Inverse(ma, rank, ni * nj * nk)
    ensures ma[0] == 0 && Outward(ma, ni, nj, nk)
    ensures IsMatrix(q, ni * nj * nk, ni * nj * nk) && ColumnPermutation(q, ma, ni * nj * nk)
    ensures IsMatrix(paq, ni * nj * nk, ni * nj * nk) && |pb| == ni * nj * nk
    ensures forall i, j :: 0 <= i < ni * nj * nk && 0 <= j < ni * nj * nk ==> paq[i][j] == a[ma[i]][ma[j]]
    ensures forall i :: 0 <= i < ni * nj * nk ==> pb[i] == b[ma[i]]
  {
    var na := ni * nj * nk;
    var r;
    ghost var order;
    r, order := Number(ni, nj, nk);
    var m := Invert(r, order);
    InverseUnique(r, order, m, na);
    var p;
    p, q := Permutations(m);
    var aq := MatMul(a, q, na, na, na);
    paq := MatMul(p, aq, na, na, na);
    pb := MatVec(p, b, na);
    PermuteColumns(a, q, m, na);
    PermuteRows(p, aq, m, na);
    PermuteVector(p, b, m, na);
    ma, rank := m, r;
  }

  /** Applying q to y reads y through the inverse numbering. */
  lemma ApplyQ(q: Matrix, ma: seq<int>, rank: seq<int>, n: nat, y: seq<real>)
    requires Inverse(ma, rank, n) && |y| == n && IsMatrix(q, n, n) && ColumnPermutation(q, ma, n)
    ensures forall v :: 0 <= v < n ==> MatVec(q, y, n)[v] == y[rank[v]]
  {
    ColumnsAsRows(q, ma, rank, n);
    PermuteVector(q, y, rank, n);
  }

  /** Row i of the reordered product is row ma[i] of the original product. */
  lemma RowReordered(a: Matrix, paq: Matrix, ma: seq<int>, rank: seq<int>, n: nat,
                     x: seq<real>, y: seq<real>, i: int)
    requires Inverse(ma, rank, n) && IsMatrix(a, n, n) && IsMatrix(paq, n, n)
    requires |x| == n && |y| == n && 0 <= i < n
    requires forall j :: 0 <= j < n ==> paq[i][j] == a[ma[i]][ma[j]]
    requires forall v :: 0 <= v < n ==> x[v] == y[rank[v]]
    ensures Dot(paq[i], y) == Dot(a[ma[i]], x)
  {
    var H := Products(a[ma[i]], x);
    forall j | 0 <= j < n
      ensures Permuted(H, ma)[j] == Products(paq[i], y)[j]
    {
      assert x[ma[j]] == y[rank[ma[j]]] == y[j];
    }
    assert Permuted(H, ma) == Products(paq[i], y);
    SumPermuted(H, ma, rank);
  }

  /**
   * Solving the reordered system recovers the original solution: y solves
   * (P A Q) y = P b exactly when x = Q y solves A x = b.
   */
  lemma Recover(a: Matrix, b: seq<real>, q: Matrix, paq: Matrix, pb: seq<real>,
                ma: seq<int>, rank: seq<int>, n: nat, y: seq<real>)
    requires Inverse(ma, rank, n) && IsMatrix(a, n, n) && |b| == n && |y| == n
    requires IsMatrix(q, n, n) && ColumnPermutation(q, ma, n)
    requires IsMatrix(paq, n, n) && |pb| == n
    requires forall i, j :: 0 <= i < n && 0 <= j < n ==> paq[i][j] == a[ma[i]][ma[j]]
    requires forall i :: 0 <= i < n ==> pb[i] == b[ma[i]]
    ensures MatVec(paq, y, n) == pb <==> MatVec(a, MatVec(q, y, n), n) == b
  {
    var x := MatVec(q, y, n);
    ApplyQ(q, ma, rank, n, y);
    var z, w := MatVec(paq, y, n), MatVec(a, x, n);
    forall i | 0 <= i < n
      ensures z[i] == w[ma[i]]
    {
      RowReordered(a, paq, ma, rank, n, x, y, i);
    }
    if z == pb {
      forall u | 0 <= u < n
        ensures w[u] == b[u]
      {
        assert z[rank[u]] == pb[rank[u]];
      }
    }
    if w == b {
      forall i | 0 <= i < n
        ensures z[i] == pb[i]
      {
      }
    }
  }
}
