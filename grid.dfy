/**
 * Flattening of structured-grid coordinates (mij/mijk in L-QLES/matvec.py and
 * the clamping index m in L-QLES/reorder.py). The first axis varies fastest.
 */
module Grid {

  /** mij: flat index of (i, j) on a grid with ni nodes along the first axis. */
  function Mij(i: int, j: int, ni: int): int {
    i + ni * j
  }

  /** mijk: flat index of (i, j, k). */
  function Mijk(i: int, j: int, k: int, ni: int, nj: int): int {
    i + ni * j + ni * nj * k
  }

  lemma MijIsMijk(i: int, j: int, ni: int, nj: int)
    ensures Mij(i, j, ni) == Mijk(i, j, 0, ni, nj)
  {
  }

  /** The neighbours of (i, j, k) one step along each axis are 1, ni and ni*nj away. */
  lemma MijkShifts(i: int, j: int, k: int, ni: int, nj: int)
    ensures Mijk(i - 1, j, k, ni, nj) == Mijk(i, j, k, ni, nj) - 1
    ensures Mijk(i + 1, j, k, ni, nj) == Mijk(i, j, k, ni, nj) + 1
    ensures Mijk(i, j - 1, k, ni, nj) == Mijk(i, j, k, ni, nj) - ni
    ensures Mijk(i, j + 1, k, ni, nj) == Mijk(i, j, k, ni, nj) + ni
    ensures Mijk(i, j, k - 1, ni, nj) == Mijk(i, j, k, ni, nj) - ni * nj
    ensures Mijk(i, j, k + 1, ni, nj) == Mijk(i, j, k, ni, nj) + ni * nj
  {
    assert ni * (j + 1) == ni * j + ni && ni * (j - 1) == ni * j - ni;
    assert ni * nj * (k + 1) == ni * nj * k + ni * nj && ni * nj * (k - 1) == ni * nj * k - ni * nj;
  }

  /** The node (i, j, k) of a grid, as the inverse of Mijk. */
  datatype Cell = Cell(i: int, j: int, k: int)

  predicate InBox(c: Cell, ni: int, nj: int, nk: int) {
    0 <= c.i < ni && 0 <= c.j < nj && 0 <= c.k < nk
  }

  function Index(c: Cell, ni: int, nj: int): int {
    Mijk(c.i, c.j, c.k, ni, nj)
  }

  /** Inverse flattening: the cell whose flat index is m. */
  function CellOf(m: int, ni: int, nj: int): Cell
    requires ni > 0 && nj > 0
  {
    Cell(m % ni, (m / ni) % nj, m / (ni * nj))
  }

  lemma DivModUnique(x: int, d: int, q: int, r: int)
    requires d > 0 && 0 <= r < d && x == d * q + r
    ensures q == x / d && r == x % d
  {
    var q', r' := x / d, x % d;
    assert x == d * q' + r';
    if q' > q {
      assert d * q' >= d * (q + 1) by { MulMono(d, q + 1, q'); }
    } else if q' < q {
      assert d * q >= d * (q' + 1) by { MulMono(d, q' + 1, q); }
    }
  }

  lemma MulMono(d: int, a: int, b: int)
    requires d >= 0 && a <= b
    ensures d * a <= d * b
  {
  }

  lemma MulBound(a: int, b: int, c: int, d: int)
    requires 0 <= a < c && 0 <= b < d
    ensures a * b <= (c - 1) * (d - 1)
  {
    MulMono(b, a, c - 1);
    MulMono(c - 1, b, d - 1);
  }

  /** Flattening a cell of the box gives an index in [0, ni*nj*nk), and CellOf recovers the cell. */
  lemma IndexInRange(c: Cell, ni: int, nj: int, nk: int)
    requires InBox(c, ni, nj, nk)
    ensures 0 <= Index(c, ni, nj) < ni * nj * nk
    ensures CellOf(Index(c, ni, nj), ni, nj) == c
  {
    var m := Index(c, ni, nj);
    assert ni * nj * c.k >= 0 && ni * c.j >= 0;
    assert ni * c.j <= ni * (nj - 1) by { MulMono(ni, c.j, nj - 1); }
    assert ni * nj * c.k <= ni * nj * (nk - 1) by { MulMono(ni * nj, c.k, nk - 1); }
    assert m < ni * nj * nk;
    var lo := c.i + ni * c.j;
    assert 0 <= lo < ni * nj;
    assert m == (ni * nj) * c.k + lo;
    DivModUnique(m, ni * nj, c.k, lo);
    assert m == ni * (c.j + nj * c.k) + c.i;
    DivModUnique(m, ni, c.j + nj * c.k, c.i);
    DivModUnique(c.j + nj * c.k, nj, c.k, c.j);
  }

  /** Every index of the box is the flattening of exactly the cell CellOf gives. */
  lemma CellOfInBox(m: int, ni: int, nj: int, nk: int)
    requires ni > 0 && nj > 0 && nk > 0 && 0 <= m < ni * nj * nk
    ensures InBox(CellOf(m, ni, nj), ni, nj, nk)
    ensures Index(CellOf(m, ni, nj), ni, nj) == m
  {
    var c := CellOf(m, ni, nj);
    var q := m / ni;
    DivDiv(m, ni, nj);
    var k := q / nj;
    assert c.k == k;
    assert c.j == q % nj;
    assert m == ni * q + c.i;
    assert q == nj * k + c.j;
    Distrib(ni, nj, k, c.j);
    assert ni * q == ni * c.j + ni * nj * k;
    KBound(m, ni, nj, nk, k);
  }

  lemma Distrib(a: int, b: int, k: int, j: int)
    ensures a * (b * k + j) == a * j + a * b * k
  {
  }

  lemma KBound(m: int, ni: int, nj: int, nk: int, k: int)
    requires ni > 0 && nj > 0 && nk > 0 && 0 <= m < ni * nj * nk
    requires k == m / (ni * nj)
    ensures 0 <= k < nk
  {
    assert m == (ni * nj) * k + m % (ni * nj);
    if k >= nk {
      MulMono(ni * nj, nk, k);
      assert false;
    }
  }

  lemma DivDiv(m: int, a: int, b: int)
    requires m >= 0 && a > 0 && b > 0
    ensures (m / a) / b == m / (a * b)
  {
    var q := m / a;
    var k := q / b;
    assert q == b * k + q % b;
    assert m == a * q + m % a;
    assert m == (a * b) * k + (a * (q % b) + m % a) by {
      assert a * q == a * (b * k) + a * (q % b);
    }
    assert 0 <= a * (q % b) + m % a < a * b by {
      MulMono(a, q % b, b - 1);
    }
    DivModUnique(m, a * b, k, a * (q % b) + m % a);
  }

  /** Flattening is injective on the box. */
  lemma IndexInjective(c: Cell, d: Cell, ni: int, nj: int, nk: int)
    requires InBox(c, ni, nj, nk) && InBox(d, ni, nj, nk)
    requires Index(c, ni, nj) == Index(d, ni, nj)
    ensures c == d
  {
    IndexInRange(c, ni, nj, nk);
    IndexInRange(d, ni, nj, nk);
  }

  function Min(a: int, b: int): int {
    if a <= b then a else b
  }

  /**
   * The index used by the reordering: each coordinate is first clamped to
   * the last node of its axis.
   */
  function Clamped(i: nat, j: nat, k: nat, ni: int, nj: int, nk: int): (m: int)
    requires ni > 0 && nj > 0 && nk > 0
    ensures 0 <= m < ni * nj * nk
    ensures m == Index(Cell(Min(i, ni - 1), Min(j, nj - 1), Min(k, nk - 1)), ni, nj)
    ensures i < ni && j < nj && k < nk ==> m == Mijk(i, j, k, ni, nj)
  {
    IndexInRange(Cell(Min(i, ni - 1), Min(j, nj - 1), Min(k, nk - 1)), ni, nj, nk);
    Min(i, ni - 1) + ni * Min(j, nj - 1) + ni * nj * Min(k, nk - 1)
  }

  /** How Python reads index k of a sequence of length n: negative indices count from the end. */
  function PyIndex(k: int, n: int): (r: int)
    requires -n <= k < n
    ensures 0 <= r < n
  {
    if k < 0 then k + n else k
  }
}
