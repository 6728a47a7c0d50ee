/**
 * Dense real vectors and matrices, and the products numpy's matmul computes
 * on them (used by the reordering in L-QLES/reorder.py).
 */
module Linear {

  /** A dense matrix as a sequence of rows. */
  type Matrix = seq<seq<real>>

  predicate IsMatrix(A: Matrix, rows: nat, cols: nat) {
    |A| == rows && forall i :: 0 <= i < rows ==> |A[i]| == cols
  }

  /** The sum of the entries, last entry added last. */
  function Sum(s: seq<real>): real {
    if |s| == 0 then 0.0 else Sum(s[..|s| - 1]) + s[|s| - 1]
  }

  lemma {:induction false} SumConcat(a: seq<real>, b: seq<real>)
    ensures Sum(a + b) == Sum(a) + Sum(b)
  {
    if |b| == 0 {
      assert a + b == a;
    } else {
      assert (a + b)[..|a + b| - 1] == a + b[..|b| - 1];
      assert (a + b)[|a + b| - 1] == b[|b| - 1];
      SumConcat(a, b[..|b| - 1]);
    }
  }

  /** Taking one term out of a sum. */
  lemma SumRemove(G: seq<real>, k: int)
    requires 0 <= k < |G|
    ensures Sum(G) == Sum(G[..k] + G[k + 1..]) + G[k]
  {
    var A, x, B := G[..k], [G[k]], G[k + 1..];
    assert Sum(x) == G[k] by {
      assert x[..0] == [];
    }
    var Ax := A + x;
    SumConcat(A, x);
    assert G == Ax + B;
    SumConcat(Ax, B);
    SumConcat(A, B);
  }

  /** A sum whose terms vanish except at position y is that term. */
  lemma {:induction false} SumUnit(s: seq<real>, y: int)
    requires 0 <= y < |s|
    requires forall k :: 0 <= k < |s| && k != y ==> s[k] == 0.0
    ensures Sum(s) == s[y]
  {
    if y < |s| - 1 {
      SumUnit(s[..|s| - 1], y);
    } else {
      SumZero(s[..|s| - 1]);
    }
  }

  lemma {:induction false} SumZero(s: seq<real>)
    requires forall k :: 0 <= k < |s| ==> s[k] == 0.0
    ensures Sum(s) == 0.0
  {
    if |s| > 0 {
      SumZero(s[..|s| - 1]);
    }
  }

  /** pi is a permutation of 0..n-1 and rho is its inverse. */
  predicate Inverse(pi: seq<int>, rho: seq<int>, n: nat) {
    |pi| == n && |rho| == n &&
    (forall j :: 0 <= j < n ==> 0 <= pi[j] < n && rho[pi[j]] == j) &&
    (forall v :: 0 <= v < n ==> 0 <= rho[v] < n && pi[rho[v]] == v)
  }

  /** H read through the permutation pi. */
  function Permuted(H: seq<real>, pi: seq<int>): (G: seq<real>)
    requires forall j :: 0 <= j < |pi| ==> 0 <= pi[j] < |H|
    ensures |G| == |pi| && forall j :: 0 <= j < |pi| ==> G[j] == H[pi[j]]
  {
    seq(|pi|, j requires 0 <= j < |pi| => H[pi[j]])
  }

  /** pi with position k removed and the remaining values kept. */
  function RemoveAt(pi: seq<int>, k: int): (pi': seq<int>)
    requires 0 <= k < |pi|
    ensures |pi'| == |pi| - 1
    ensures forall j :: 0 <= j < |pi'| ==> pi'[j] == (if j < k then pi[j] else pi[j + 1])
  {
    pi[..k] + pi[k + 1..]
  }

  /** The inverse of RemoveAt(pi, rho[n-1]) on 0..n-2. */
  function ShiftDown(rho: seq<int>, k: int): (rho': seq<int>)
    requires |rho| > 0
    ensures |rho'| == |rho| - 1
    ensures forall v :: 0 <= v < |rho'| ==> rho'[v] == (if rho[v] < k then rho[v] else rho[v] - 1)
  {
    seq(|rho| - 1, v requires 0 <= v < |rho| - 1 => if rho[v] < k then rho[v] else rho[v] - 1)
  }

  lemma RemoveLast(pi: seq<int>, rho: seq<int>, n: nat)
    requires n > 0 && Inverse(pi, rho, n)
    ensures Inverse(RemoveAt(pi, rho[n - 1]), ShiftDown(rho, rho[n - 1]), n - 1)
  {
    var k := rho[n - 1];
    var pi', rho' := RemoveAt(pi, k), ShiftDown(rho, k);
    forall j | 0 <= j < n - 1
      ensures 0 <= pi'[j] < n - 1 && rho'[pi'[j]] == j
    {
      var j0 := if j < k then j else j + 1;
      assert pi'[j] == pi[j0] && rho[pi[j0]] == j0;
      assert pi[j0] != n - 1;
    }
    forall v | 0 <= v < n - 1
      ensures 0 <= rho'[v] < n - 1 && pi'[rho'[v]] == v
    {
      assert rho[v] != k;
    }
  }

  /** Removing the term that reads H[n-1] leaves H[..n-1] read through the shortened permutation. */
  lemma PermutedRemove(H: seq<real>, pi: seq<int>, rho: seq<int>)
    requires |H| > 0 && Inverse(pi, rho, |H|)
    requires Inverse(RemoveAt(pi, rho[|H| - 1]), ShiftDown(rho, rho[|H| - 1]), |H| - 1)
    ensures
      Permuted(H[..|H| - 1], RemoveAt(pi, rho[|H| - 1])) ==
      Permuted(H, pi)[..rho[|H| - 1]] + Permuted(H, pi)[rho[|H| - 1] + 1..]
  {
  }

  /** Reordering the terms of a sum by a permutation does not change it. */
  lemma {:induction false} SumPermuted(H: seq<real>, pi: seq<int>, rho: seq<int>)
    requires Inverse(pi, rho, |H|)
    ensures Sum(Permuted(H, pi)) == Sum(H)
    decreases |H|
  {
    var n := |H|;
    if n > 0 {
      var k := rho[n - 1];
      var G := Permuted(H, pi);
      var H', pi', rho' := H[..n - 1], RemoveAt(pi, k), ShiftDown(rho, k);
      assert Inverse(pi', rho', n - 1) by {
        RemoveLast(pi, rho, n);
      }
      var G' := Permuted(H', pi');
      assert Sum(G') == Sum(H') by {
        SumPermuted(H', pi', rho');
      }
      assert G' == G[..k] + G[k + 1..] by {
        PermutedRemove(H, pi, rho);
      }
      assert G[k] == H[n - 1];
      SumRemove(G, k);
    }
  }

  /** The terms of the inner product of u and v. */
  function Products(u: seq<real>, v: seq<real>): (t: seq<real>)
    requires |u| == |v|
    ensures |t| == |u| && forall k :: 0 <= k < |u| ==> t[k] == u[k] * v[k]
  {
    seq(|u|, k requires 0 <= k < |u| => u[k] * v[k])
  }

  function Dot(u: seq<real>, v: seq<real>): real
    requires |u| == |v|
  {
    Sum(Products(u, v))
  }

  /** Column j of B. */
  function Column(B: Matrix, j: int, l: nat): (c: seq<real>)
    requires IsMatrix(B, |B|, l) && 0 <= j < l
    ensures |c| == |B| && forall k :: 0 <= k < |B| ==> c[k] == B[k][j]
  {
    seq(|B|, k requires 0 <= k < |B| => B[k][j])
  }

  /** np.matmul of an n-by-m and an m-by-l matrix. */
  function MatMul(A: Matrix, B: Matrix, n: nat, m: nat, l: nat): (C: Matrix)
    requires IsMatrix(A, n, m) && IsMatrix(B, m, l)
    ensures IsMatrix(C, n, l)
  {
    seq(n, i requires 0 <= i < n =>
      seq(l, j requires 0 <= j < l => Dot(A[i], Column(B, j, l))))
  }

  /** np.matmul of an n-by-m matrix and a vector of length m. */
  function MatVec(A: Matrix, x: seq<real>, n: nat): (y: seq<real>)
    requires IsMatrix(A, n, |x|)
    ensures |y| == n
  {
    seq(n, i requires 0 <= i < n => Dot(A[i], x))
  }

  /** The inner product with a unit vector picks one entry. */
  lemma DotUnit(u: seq<real>, e: seq<real>, y: int)
    requires |u| == |e| && 0 <= y < |u|
    requires forall k :: 0 <= k < |e| ==> e[k] == (if k == y then 1.0 else 0.0)
    ensures Dot(u, e) == u[y]
  {
    SumUnit(Products(u, e), y);
  }

  lemma DotUnitLeft(e: seq<real>, u: seq<real>, y: int)
    requires |u| == |e| && 0 <= y < |u|
    requires forall k :: 0 <= k < |e| ==> e[k] == (if k == y then 1.0 else 0.0)
    ensures Dot(e, u) == u[y]
  {
    SumUnit(Products(e, u), y);
  }

  function Identity(n: nat): (I: Matrix)
    ensures IsMatrix(I, n, n)
    ensures forall i, j :: 0 <= i < n && 0 <= j < n ==> I[i][j] == if i == j then 1.0 else 0.0
  {
    seq(n, i requires 0 <= i < n => seq(n, j requires 0 <= j < n => if i == j then 1.0 else 0.0))
  }

  /** Q has a single 1 in each column j, in row pi[j]. */
  predicate ColumnPermutation(Q: Matrix, pi: seq<int>, n: nat)
    requires IsMatrix(Q, n, n) && |pi| == n
  {
    forall u, v :: 0 <= u < n && 0 <= v < n ==> Q[u][v] == if u == pi[v] then 1.0 else 0.0
  }

  /** P has a single 1 in each row i, in column pi[i]. */
  predicate RowPermutation(P: Matrix, pi: seq<int>, n: nat)
    requires IsMatrix(P, n, n) && |pi| == n
  {
    forall i, j :: 0 <= i < n && 0 <= j < n ==> P[i][j] == if j == pi[i] then 1.0 else 0.0
  }

  /** Multiplying on the right by a column permutation moves column pi[j] to j. */
  lemma PermuteColumns(A: Matrix, Q: Matrix, pi: seq<int>, n: nat)
    requires IsMatrix(A, n, n) && IsMatrix(Q, n, n) && |pi| == n
    requires forall j :: 0 <= j < n ==> 0 <= pi[j] < n
    requires ColumnPermutation(Q, pi, n)
    ensures forall x, j :: 0 <= x < n && 0 <= j < n ==> MatMul(A, Q, n, n, n)[x][j] == A[x][pi[j]]
  {
    forall x, j | 0 <= x < n && 0 <= j < n
      ensures MatMul(A, Q, n, n, n)[x][j] == A[x][pi[j]]
    {
      DotUnit(A[x], Column(Q, j, n), pi[j]);
    }
  }

  /** Multiplying on the left by a row permutation moves row pi[i] to i. */
  lemma PermuteRows(P: Matrix, B: Matrix, pi: seq<int>, n: nat)
    requires IsMatrix(P, n, n) && IsMatrix(B, n, n) && |pi| == n
    requires forall i :: 0 <= i < n ==> 0 <= pi[i] < n
    requires RowPermutation(P, pi, n)
    ensures forall i, j :: 0 <= i < n && 0 <= j < n ==> MatMul(P, B, n, n, n)[i][j] == B[pi[i]][j]
  {
    forall i, j | 0 <= i < n && 0 <= j < n
      ensures MatMul(P, B, n, n, n)[i][j] == B[pi[i]][j]
    {
      DotUnitLeft(P[i], Column(B, j, n), pi[i]);
    }
  }

  /** A row permutation applied to a vector reads entry pi[i] into i. */
  lemma PermuteVector(P: Matrix, b: seq<real>, pi: seq<int>, n: nat)
    requires IsMatrix(P, n, n) && |b| == n && |pi| == n
    requires forall i :: 0 <= i < n ==> 0 <= pi[i] < n
    requires RowPermutation(P, pi, n)
    ensures forall i :: 0 <= i < n ==> MatVec(P, b, n)[i] == b[pi[i]]
  {
    forall i | 0 <= i < n
      ensures MatVec(P, b, n)[i] == b[pi[i]]
    {
      DotUnitLeft(P[i], b, pi[i]);
    }
  }

  /** Changing one term changes the sum by the difference. */
  lemma {:induction false} SumUpdate(s: seq<real>, p: int, v: real)
    requires 0 <= p < |s|
    ensures Sum(s[p := v]) == Sum(s) - s[p] + v
  {
    var t := s[p := v];
    if p < |s| - 1 {
      assert t[..|t| - 1] == s[..|s| - 1][p := v];
      SumUpdate(s[..|s| - 1], p, v);
    } else {
      assert t[..|t| - 1] == s[..|s| - 1];
    }
  }

  /** The terms of s at the positions ps, added in order. */
  function SumAt(s: seq<real>, ps: seq<int>): real
    requires forall k :: 0 <= k < |ps| ==> 0 <= ps[k] < |s|
  {
    if |ps| == 0 then 0.0 else SumAt(s, ps[..|ps| - 1]) + s[ps[|ps| - 1]]
  }

  lemma {:induction false} SumAtFrame(s: seq<real>, ps: seq<int>, p: int, v: real)
    requires 0 <= p < |s| && forall k :: 0 <= k < |ps| ==> 0 <= ps[k] < |s| && ps[k] != p
    ensures SumAt(s[p := v], ps) == SumAt(s, ps)
  {
    if |ps| > 0 {
      SumAtFrame(s, ps[..|ps| - 1], p, v);
    }
  }

  /** A sum whose terms vanish outside the distinct positions ps is the sum of the terms at ps. */
  lemma {:induction false} SumPoints(s: seq<real>, ps: seq<int>)
    requires forall k :: 0 <= k < |ps| ==> 0 <= ps[k] < |s|
    requires forall k, l :: 0 <= k < l < |ps| ==> ps[k] != ps[l]
    requires forall c :: 0 <= c < |s| && c !in ps ==> s[c] == 0.0
    ensures Sum(s) == SumAt(s, ps)
    decreases |ps|
  {
    if |ps| == 0 {
      SumZero(s);
    } else {
      var p, qs := ps[|ps| - 1], ps[..|ps| - 1];
      var t := s[p := 0.0];
      forall c | 0 <= c < |t| && c !in qs
        ensures t[c] == 0.0
      {
        assert ps == qs + [p];
      }
      SumPoints(t, qs);
      SumUpdate(s, p, 0.0);
      SumAtFrame(s, qs, p, 0.0);
    }
  }

  /** Dividing every term divides the sum. */
  lemma {:induction false} SumScale(s: seq<real>, d: real)
    requires d != 0.0
    ensures Sum(seq(|s|, k requires 0 <= k < |s| => s[k] / d)) == Sum(s) / d
  {
    var t := seq(|s|, k requires 0 <= k < |s| => s[k] / d);
    if |s| > 0 {
      var s', t' := s[..|s| - 1], t[..|t| - 1];
      assert t' == seq(|s'|, k requires 0 <= k < |s'| => s'[k] / d);
      SumScale(s', d);
      assert Sum(t) == Sum(s') / d + s[|s| - 1] / d;
    }
  }

  /** Matrices agreeing entry by entry are equal. */
  lemma MatrixEqual(A: Matrix, B: Matrix, n: nat)
    requires IsMatrix(A, n, n) && IsMatrix(B, n, n)
    requires forall i, j :: 0 <= i < n && 0 <= j < n ==> A[i][j] == B[i][j]
    ensures A == B
  {
    forall i | 0 <= i < n
      ensures A[i] == B[i]
    {
      assert |A[i]| == |B[i]| == n;
    }
  }

  /** A row with nonzero terms at two distinct positions only. */
  lemma SumTwo(s: seq<real>, i: int, j: int)
    requires 0 <= i < |s| && 0 <= j < |s| && i != j
    requires forall c :: 0 <= c < |s| && c != i && c != j ==> s[c] == 0.0
    ensures Sum(s) == s[i] + s[j]
  {
    SumPoints(s, [i, j]);
    assert [i, j][..1] == [i] && [i][..0] == [];
    assert SumAt(s, [i]) == s[i];
    assert SumAt(s, [i, j]) == SumAt(s, [i]) + s[j];
  }

  /** A row with nonzero terms at three distinct positions only. */
  lemma SumThree(s: seq<real>, i: int, j: int, k: int)
    requires 0 <= i < |s| && 0 <= j < |s| && 0 <= k < |s| && i != j && j != k && i != k
    requires forall c :: 0 <= c < |s| && c != i && c != j && c != k ==> s[c] == 0.0
    ensures Sum(s) == s[i] + s[j] + s[k]
  {
    SumPoints(s, [i, j, k]);
    assert [i, j, k][..2] == [i, j] && [i, j][..1] == [i] && [i][..0] == [];
    assert SumAt(s, [i]) == s[i];
    assert SumAt(s, [i, j]) == SumAt(s, [i]) + s[j];
    assert SumAt(s, [i, j, k]) == SumAt(s, [i, j]) + s[k];
  }

  /** The product of x with a row whose only nonzero term is at y. */
  lemma DotSingle(u: seq<real>, x: seq<real>, y: int)
    requires |u| == |x| && 0 <= y < |u|
    requires forall k :: 0 <= k < |u| && k != y ==> u[k] == 0.0
    ensures Dot(u, x) == u[y] * x[y]
  {
    SumUnit(Products(u, x), y);
  }

  /** The product of x with a row holding d at i and -d at j: d times x[i] - x[j]. */
  lemma DotDifference(u: seq<real>, x: seq<real>, i: int, j: int)
    requires |u| == |x| && 0 <= i < |u| && 0 <= j < |u| && i != j && u[j] == -u[i]
    requires forall c :: 0 <= c < |u| && c != i && c != j ==> u[c] == 0.0
    ensures Dot(u, x) == u[i] * (x[i] - x[j])
  {
    SumTwo(Products(u, x), i, j);
  }

  /** An equation d * u = v * d with d > 0 fixes u to v. */
  lemma Pin(d: real, u: real, v: real)
    requires d > 0.0
    ensures d * u == v * d <==> u == v
  {
    if d * u == v * d {
      assert d * (u - v) == 0.0;
    }
  }

  /** Pin for an equation a == b whose sides are the products d * u and v * d. */
  lemma PinSides(d: real, u: real, v: real, a: real, b: real)
    requires d > 0.0 && a == d * u && b == v * d
    ensures a == b <==> u == v
  {
    Pin(d, u, v);
  }

  /**
   * The product of the factors s, kept as a recursive function so that the
   * solver multiplies out only the products a proof asks for.
   */
  function Prod(s: seq<real>): real
    decreases |s|
  {
    if |s| == 0 then 1.0 else s[0] * Prod(s[1..])
  }

  lemma ProdTwo(x: real, y: real)
    ensures Prod([x, y]) == x * y
  {
    assert [x, y][1..] == [y] && [y][1..] == [];
    assert Prod([y]) == y;
  }

  lemma ProdThree(x: real, y: real, z: real)
    ensures Prod([x, y, z]) == x * y * z
  {
    assert [x, y, z][1..] == [y, z];
    ProdTwo(y, z);
  }

  /** The array contents as a matrix value. */
  function Contents(a: array2<real>): (A: Matrix)
    reads a
    ensures IsMatrix(A, a.Length0, a.Length1)
    ensures forall r, c :: 0 <= r < a.Length0 && 0 <= c < a.Length1 ==> A[r][c] == a[r, c]
  {
    seq(a.Length0, r requires 0 <= r < a.Length0 reads a =>
      seq(a.Length1, c requires 0 <= c < a.Length1 reads a => a[r, c]))
  }
}
