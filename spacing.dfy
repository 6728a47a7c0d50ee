/**
 * Node spacings of one axis, as the assembly routines of L-QLES/matvec.py
 * build them: dx[i] = x[i] - x[i-1] between nodes, and one extra spacing
 * beyond each end that copies the spacing next to it.
 */
module Spacing {

  /** Strictly increasing coordinates, as generate_mesh produces. */
  predicate Increasing(x: seq<real>) {
    forall i :: 0 < i < |x| ==> x[i - 1] < x[i]
  }

  /** d is the spacing array of the coordinates x. */
  predicate IsSpacing(d: seq<real>, x: seq<real>) {
    |x| >= 1 && |d| == |x| + 1 &&
    (forall i :: 0 < i < |x| ==> d[i] == x[i] - x[i - 1]) &&
    d[0] == d[1] && d[|x|] == d[|x| - 1] &&
    (|x| == 1 ==> d[0] == 0.0)
  }

  /** The spacing array of x, written out. */
  function SpacingOf(x: seq<real>): (d: seq<real>)
    requires |x| >= 1
    ensures IsSpacing(d, x)
  {
    var n := |x|;
    seq(n + 1, i requires 0 <= i <= n =>
      if 0 < i < n then x[i] - x[i - 1]
      else if n == 1 then 0.0
      else if i == 0 then x[1] - x[0]
      else x[n - 1] - x[n - 2])
  }

  /** The spacing array is determined by the coordinates. */
  lemma SpacingUnique(d: seq<real>, e: seq<real>, x: seq<real>)
    requires IsSpacing(d, x) && IsSpacing(e, x)
    ensures d == e
  {
    forall i | 0 <= i < |d|
      ensures d[i] == e[i]
    {
      if |x| == 1 {
        assert d[0] == d[1] && e[0] == e[1];
      } else {
        var k := if i == 0 then 1 else if i == |x| then |x| - 1 else i;
        assert 0 < k < |x|;
        assert d[i] == d[k] && e[i] == e[k];
        assert d[k] == x[k] - x[k - 1] == e[k];
      }
    }
  }

  /** The spacing loop: fill dx[1..n-1], then copy the end spacings outward. */
  method Spacings(x: seq<real>) returns (d: seq<real>)
    requires |x| >= 1
    ensures d == SpacingOf(x)
  {
    var n := |x|;
    var dx := new real[n + 1](_ => 0.0);
    for i := 1 to n
      invariant forall k :: 0 < k < i ==> dx[k] == x[k] - x[k - 1]
      invariant forall k :: i <= k <= n ==> dx[k] == 0.0
    {
      dx[i] := x[i] - x[i - 1];
    }
    dx[0] := dx[1];
    dx[n] := dx[n - 1];
    d := dx[..];
    SpacingUnique(d, SpacingOf(x), x);
  }

  predicate AllPositive(d: seq<real>) {
    forall i :: 0 <= i < |d| ==> d[i] > 0.0
  }

  /** On a strictly increasing axis of two or more nodes every spacing is positive. */
  lemma SpacingPositive(d: seq<real>, x: seq<real>)
    requires IsSpacing(d, x) && |x| >= 2 && Increasing(x)
    ensures AllPositive(d)
  {
    forall i | 0 <= i < |d|
      ensures d[i] > 0.0
    {
      var k := if i == 0 then 1 else if i == |x| then |x| - 1 else i;
      assert d[i] == d[k] == x[k] - x[k - 1];
    }
  }

  /**
   * The spacings of a repeating axis: beyond the low end lies the last
   * interval of the axis and beyond the high end the first one.
   */
  function Wrapped(d: seq<real>): (w: seq<real>)
    requires |d| >= 3
    ensures |w| == |d| && w[0] == d[|d| - 2] && w[|d| - 1] == d[1]
    ensures forall i :: 0 < i < |d| - 1 ==> w[i] == d[i]
  {
    d[0 := d[|d| - 2]][|d| - 1 := d[1]]
  }

  /** Wrapping keeps every spacing one of the original ones. */
  lemma WrappedPositive(d: seq<real>)
    requires |d| >= 3 && AllPositive(d)
    ensures AllPositive(Wrapped(d))
  {
    var w := Wrapped(d);
    forall i | 0 <= i < |w|
      ensures w[i] > 0.0
    {
      if i == 0 {
        assert w[i] == d[|d| - 2];
      } else if i == |d| - 1 {
        assert w[i] == d[1];
      }
    }
  }

  /**
   * The reciprocals 1/d[i] the assembly divides by, built one element at a
   * time so that the solver unfolds them only on demand.
   */
  function Reciprocals(d: seq<real>): (g: seq<real>)
    requires AllPositive(d)
    ensures |g| == |d|
    decreases |d|
  {
    if |d| == 0 then [] else [1.0 / d[0]] + Reciprocals(d[1..])
  }

  lemma {:induction false} ReciprocalAt(d: seq<real>, i: int)
    requires AllPositive(d) && 0 <= i < |d|
    ensures Reciprocals(d)[i] == 1.0 / d[i]
    decreases i
  {
    if i > 0 {
      ReciprocalAt(d[1..], i - 1);
    }
  }

  /** Positive spacings have positive reciprocals. */
  lemma ReciprocalsPositive(d: seq<real>)
    requires AllPositive(d)
    ensures AllPositive(Reciprocals(d))
  {
    forall i | 0 <= i < |d|
      ensures Reciprocals(d)[i] > 0.0
    {
      ReciprocalAt(d, i);
    }
  }
}
