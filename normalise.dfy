/**
 * The final scaling of L-QLES/matvec.py: a and b are both divided by
 * amax = np.amax(a), the largest entry of a (not the largest magnitude).
 */
module Normalise {
  import opened Linear

  function MaxOf(s: seq<real>): (m: real)
    requires |s| > 0
    ensures forall k :: 0 <= k < |s| ==> s[k] <= m
    ensures exists k :: 0 <= k < |s| && s[k] == m
  {
    if |s| == 1 then s[0]
    else
      var r := MaxOf(s[..|s| - 1]);
      if s[|s| - 1] > r then s[|s| - 1] else r
  }

  /** np.amax of a square matrix: an entry that no entry exceeds. */
  function MaxEntry(A: Matrix, n: nat): (m: real)
    requires n > 0 && IsMatrix(A, n, n)
    ensures forall i, j :: 0 <= i < n && 0 <= j < n ==> A[i][j] <= m
    ensures exists i, j :: 0 <= i < n && 0 <= j < n && A[i][j] == m
  {
    var rows := seq(n, i requires 0 <= i < n => MaxOf(A[i]));
    var m := MaxOf(rows);
    assert forall i :: 0 <= i < n ==> rows[i] == MaxOf(A[i]);
    m
  }

  /** a / amax */
  function ScaleMatrix(A: Matrix, s: real): (B: Matrix)
    requires s != 0.0
    ensures |B| == |A|
    ensures forall i :: 0 <= i < |A| ==> |B[i]| == |A[i]|
    ensures forall i, j :: 0 <= i < |A| && 0 <= j < |A[i]| ==> B[i][j] == A[i][j] / s
  {
    seq(|A|, i requires 0 <= i < |A| => seq(|A[i]|, j requires 0 <= j < |A[i]| => A[i][j] / s))
  }

  /** b / amax */
  function ScaleVector(b: seq<real>, s: real): (c: seq<real>)
    requires s != 0.0
    ensures |c| == |b| && forall i :: 0 <= i < |b| ==> c[i] == b[i] / s
  {
    seq(|b|, i requires 0 <= i < |b| => b[i] / s)
  }

  /** Scaling by a positive amax makes the largest entry exactly 1. */
  lemma ScaledMax(A: Matrix, n: nat)
    requires n > 0 && IsMatrix(A, n, n) && MaxEntry(A, n) > 0.0
    ensures MaxEntry(ScaleMatrix(A, MaxEntry(A, n)), n) == 1.0
  {
    var M := MaxEntry(A, n);
    var B := ScaleMatrix(A, M);
    var i, j :| 0 <= i < n && 0 <= j < n && A[i][j] == M;
    DivBound(A[i][j], M);
    assert B[i][j] == 1.0;
    var p, q :| 0 <= p < n && 0 <= q < n && B[p][q] == MaxEntry(B, n);
    DivBound(A[p][q], M);
  }

  lemma DivBound(a: real, M: real)
    requires M > 0.0 && a <= M
    ensures a / M <= 1.0 && (a == M ==> a / M == 1.0)
  {
  }

  /** One row of the scaled product is the scaled row product. */
  lemma DotScaled(u: seq<real>, x: seq<real>, s: real)
    requires |u| == |x| && s != 0.0
    ensures Dot(seq(|u|, k requires 0 <= k < |u| => u[k] / s), x) == Dot(u, x) / s
  {
    var v := seq(|u|, k requires 0 <= k < |u| => u[k] / s);
    var P := Products(u, x);
    forall k | 0 <= k < |u|
      ensures Products(v, x)[k] == P[k] / s
    {
      assert v[k] * x[k] == (u[k] * x[k]) / s;
    }
    assert Products(v, x) == seq(|P|, k requires 0 <= k < |P| => P[k] / s);
    SumScale(P, s);
  }

  /** Dividing a and b by the same nonzero amax leaves the solutions of a x = b unchanged. */
  lemma ScaledSolutions(A: Matrix, b: seq<real>, x: seq<real>, n: nat, s: real)
    requires IsMatrix(A, n, |x|) && |b| == n && s != 0.0
    ensures MatVec(A, x, n) == b <==> MatVec(ScaleMatrix(A, s), x, n) == ScaleVector(b, s)
  {
    var B := ScaleMatrix(A, s);
    var y, z := MatVec(A, x, n), MatVec(B, x, n);
    forall i | 0 <= i < n
      ensures z[i] == y[i] / s
    {
      assert B[i] == seq(|A[i]|, k requires 0 <= k < |A[i]| => A[i][k] / s);
      DotScaled(A[i], x, s);
    }
    if z == ScaleVector(b, s) {
      forall i | 0 <= i < n
        ensures y[i] == b[i]
      {
        assert y[i] / s == b[i] / s;
      }
    }
  }
}
