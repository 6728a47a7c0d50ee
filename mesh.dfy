/**
 * Clustered coordinates along one axis (generate_mesh in L-QLES/mesh.py).
 *
 * The axis [0, L] gets nt nodes: nc-1 geometrically growing steps d, d*r, ...,
 * then nu-1 uniform steps D, and, for cluster type 2, the geometric steps
 * mirrored at the far end. Cluster type -1 reflects the whole axis.
 * Coordinates are modelled as exact reals, not as floating point.
 */
module Mesh {

  /** pow(r, e) for a natural exponent. */
  function Pow(r: real, e: nat): real {
    if e == 0 then 1.0 else r * Pow(r, e - 1)
  }

  /** The geometric sum 1 + r + ... + r^(n-1). */
  function Geo(r: real, n: nat): real {
    if n == 0 then 0.0 else Geo(r, n - 1) + Pow(r, n - 1)
  }

  /** The top u terms r^(m-u) + ... + r^(m-1) of the geometric sum of m terms. */
  function GeoTail(r: real, m: nat, u: nat): real
    requires u <= m
  {
    Geo(r, m) - Geo(r, m - u)
  }

  lemma {:induction false} PowPositive(r: real, e: nat)
    requires r > 0.0
    ensures Pow(r, e) > 0.0
  {
    if e > 0 {
      PowPositive(r, e - 1);
    }
  }

  lemma {:induction false} PowOne(e: nat)
    ensures Pow(1.0, e) == 1.0
  {
    if e > 0 {
      PowOne(e - 1);
    }
  }

  /** With r = 1 every term of the sum is 1. */
  lemma {:induction false} GeoOne(n: nat)
    ensures Geo(1.0, n) == n as real
  {
    if n > 0 {
      GeoOne(n - 1);
      PowOne(n - 1);
    }
  }

  lemma GeoStep(r: real, g: real, q: real)
    requires (r - 1.0) * g == q - 1.0
    ensures (r - 1.0) * (g + q) == r * q - 1.0
  {
    assert (r - 1.0) * (g + q) == (r - 1.0) * g + (r - 1.0) * q;
  }

  /** The closed form of the geometric series: (r - 1)(1 + ... + r^(n-1)) = r^n - 1. */
  lemma {:induction false} GeoClosed(r: real, n: nat)
    ensures (r - 1.0) * Geo(r, n) == Pow(r, n) - 1.0
  {
    if n > 0 {
      GeoClosed(r, n - 1);
      GeoStep(r, Geo(r, n - 1), Pow(r, n - 1));
    }
  }

  lemma {:induction false} GeoPositive(r: real, n: nat)
    requires r > 0.0
    ensures Geo(r, n) >= 0.0
    ensures n > 0 ==> Geo(r, n) > 0.0
  {
    if n > 0 {
      GeoPositive(r, n - 1);
      PowPositive(r, n - 1);
    }
  }

  lemma GeoTailStep(r: real, m: nat, u: nat)
    requires 0 < u <= m
    ensures GeoTail(r, m, u) == GeoTail(r, m, u - 1) + Pow(r, m - u)
  {
    assert Geo(r, m - u + 1) == Geo(r, m - u) + Pow(r, m - u);
  }

  lemma Distrib(d: real, a: real, b: real)
    ensures d * (a + b) == d * a + d * b
  {
  }

  lemma DivExact(a: real, b: real, g: real)
    requires b != 0.0 && b * g == a
    ensures a / b == g
  {
  }

  lemma DivPositive(a: real, b: real)
    requires a > 0.0 && b > 0.0
    ensures a / b > 0.0
  {
  }

  /** The numeric fields of one axis: length, cluster ratio, total nodes, cluster nodes, cluster type. */
  datatype Params = Params(L: int, r: real, nt: int, nc: int, ct: int)

  /** fc: the number of clustered ends. */
  function Fc(p: Params): int {
    if p.ct == 2 then 2 else 1
  }

  /** nu: the number of nodes of the uniform middle part. */
  function Nu(p: Params): (nu: int)
    ensures nu == p.nt - Fc(p) * (p.nc - 1)
  {
    if p.ct == 2 then p.nt - 2 * (p.nc - 1) else p.nt - (p.nc - 1)
  }

  /**
   * What generate_mesh needs so that every index it writes is in range and no
   * denominator vanishes: at least two nodes, at least one cluster node,
   * a uniform part of at least one node, and a positive ratio.
   */
  predicate Valid(p: Params) {
    p.nt >= 2 && p.nc >= 1 && Nu(p) >= 1 && p.r > 0.0
  }

  /** The denominator f1 + f2 of the clustering equations (r /= 1), or nt - 1 (r = 1). */
  function Denominator(p: Params): real
    requires Valid(p)
  {
    if p.r == 1.0 then (p.nt - 1) as real
    else RatioDenominator((Nu(p) - 1) as real, Pow(p.r, p.nc - 1), Fc(p) as real, p.r)
  }

  /** f1 + f2 with f1 = (nu-1)*rc and f2 = fc*(rc-1)/(r-1), where rc = r^(nc-1). */
  function RatioDenominator(nu1: real, rc: real, fc: real, r: real): real
    requires r != 1.0
  {
    var f1 := nu1 * rc;
    var f2 := fc * (rc - 1.0) / (r - 1.0);
    f1 + f2
  }

  /** The source's f2 = fc*(rc-1)/(r-1) is fc times the geometric sum, on plain numbers. */
  lemma DenominatorAlgebra(nu1: real, rc: real, fc: real, r: real, g: real)
    requires r != 1.0 && (r - 1.0) * g == rc - 1.0
    requires nu1 >= 0.0 && rc > 0.0 && fc > 0.0 && g >= 0.0 && (nu1 > 0.0 || g > 0.0)
    ensures RatioDenominator(nu1, rc, fc, r) == nu1 * rc + fc * g
    ensures nu1 * rc + fc * g > 0.0
  {
    assert (r - 1.0) * (fc * g) == fc * (rc - 1.0);
    DivExact(fc * (rc - 1.0), r - 1.0, fc * g);
    assert nu1 * rc >= 0.0 && fc * g >= 0.0;
    if nu1 > 0.0 {
      assert nu1 * rc > 0.0;
    } else {
      assert fc * g > 0.0;
    }
  }

  /** The denominator is the geometric form (nu-1)*r^(nc-1) + fc*(1 + ... + r^(nc-2)), and it is positive. */
  lemma DenominatorFacts(p: Params)
    requires Valid(p)
    ensures p.r != 1.0 ==>
      Denominator(p) == ((Nu(p) - 1) as real) * Pow(p.r, p.nc - 1) + (Fc(p) as real) * Geo(p.r, p.nc - 1)
    ensures Denominator(p) > 0.0
  {
    if p.r != 1.0 {
      PowPositive(p.r, p.nc - 1);
      GeoPositive(p.r, p.nc - 1);
      GeoClosed(p.r, p.nc - 1);
      DenominatorAlgebra((Nu(p) - 1) as real, Pow(p.r, p.nc - 1), Fc(p) as real, p.r, Geo(p.r, p.nc - 1));
    }
  }

  /** The first step d, the uniform step D and the clustered length C. */
  datatype Clustering = Clustering(d: real, D: real, C: real)

  /** The r = 1 branch: d = D = L/(nt-1), C = (nc-1)*d. */
  function UnitSolution(L: real, n1: real, nc1: real): Clustering
    requires n1 != 0.0
  {
    var d := L / n1;
    Clustering(d, d, nc1 * d)
  }

  /** The r /= 1 branch: d = L/(f1+f2), D = r^(nc-1)*d, C = (L - (nu-1)*D)/fc. */
  function RatioSolution(L: real, rc: real, den: real, nu1: real, fc: real): Clustering
    requires den != 0.0 && fc != 0.0
  {
    var d := L / den;
    var D := rc * d;
    Clustering(d, D, (L - nu1 * D) / fc)
  }

  /** The clustering equations solved as generate_mesh solves them, branch by branch. */
  function Solve(p: Params): Clustering
    requires Valid(p)
  {
    if p.r == 1.0 then
      UnitSolution(p.L as real, (p.nt - 1) as real, (p.nc - 1) as real)
    else
      DenominatorFacts(p);
      RatioSolution(p.L as real, Pow(p.r, p.nc - 1), Denominator(p), (Nu(p) - 1) as real, Fc(p) as real)
  }

  /**
   * The clustering equations on plain numbers: the uniform step continues the
   * geometric growth (D = rc*d), the cluster spans C = d*g, and nu-1 uniform
   * steps plus fc clusters fill the length.
   */
  predicate Balanced(L: real, rc: real, g: real, nu1: real, fc: real, s: Clustering) {
    s.D == rc * s.d && s.C == s.d * g && nu1 * s.D + fc * s.C == L
  }

  /** s solves the clustering equations of axis p. */
  predicate Solves(p: Params, s: Clustering)
    requires p.nc >= 1
  {
    Balanced(p.L as real, Pow(p.r, p.nc - 1), Geo(p.r, p.nc - 1), (Nu(p) - 1) as real, Fc(p) as real, s)
  }

  lemma UnitBalanced(L: real, n1: real, nu1: real, fc: real, nc1: real)
    requires n1 == nu1 + fc * nc1 && n1 > 0.0
    ensures Balanced(L, 1.0, nc1, nu1, fc, UnitSolution(L, n1, nc1))
  {
    var d := L / n1;
    assert d * n1 == L;
    assert nu1 * d + fc * (nc1 * d) == (nu1 + fc * nc1) * d;
  }

  lemma RatioBalanced(L: real, rc: real, den: real, nu1: real, fc: real, g: real)
    requires den == nu1 * rc + fc * g && den > 0.0 && fc > 0.0
    ensures Balanced(L, rc, g, nu1, fc, RatioSolution(L, rc, den, nu1, fc))
  {
    var d := L / den;
    var D := rc * d;
    assert d * den == L;
    assert L - nu1 * D == fc * (d * g) by {
      assert d * den == nu1 * (rc * d) + fc * (d * g);
    }
    DivExact(L - nu1 * D, fc, d * g);
  }

  lemma SolveUnitFacts(p: Params)
    requires Valid(p) && p.r == 1.0
    ensures Solves(p, Solve(p))
  {
    PowOne(p.nc - 1);
    GeoOne(p.nc - 1);
    UnitBalanced(p.L as real, (p.nt - 1) as real, (Nu(p) - 1) as real, Fc(p) as real, (p.nc - 1) as real);
  }

  /** The r /= 1 branch solves the clustering equations, on plain numbers. */
  lemma RatioSolves(L: real, nu1: real, rc: real, fc: real, r: real, g: real)
    requires r != 1.0 && (r - 1.0) * g == rc - 1.0
    requires nu1 >= 0.0 && rc > 0.0 && fc > 0.0 && g >= 0.0 && (nu1 > 0.0 || g > 0.0)
    ensures RatioDenominator(nu1, rc, fc, r) > 0.0
    ensures Balanced(L, rc, g, nu1, fc, RatioSolution(L, rc, RatioDenominator(nu1, rc, fc, r), nu1, fc))
  {
    DenominatorAlgebra(nu1, rc, fc, r, g);
    RatioBalanced(L, rc, RatioDenominator(nu1, rc, fc, r), nu1, fc, g);
  }

  lemma SolveRatioFacts(p: Params)
    requires Valid(p) && p.r != 1.0
    ensures Solves(p, Solve(p))
  {
    PowPositive(p.r, p.nc - 1);
    GeoPositive(p.r, p.nc - 1);
    GeoClosed(p.r, p.nc - 1);
    RatioSolves(p.L as real, (Nu(p) - 1) as real, Pow(p.r, p.nc - 1), Fc(p) as real, p.r, Geo(p.r, p.nc - 1));
  }

  /** Both branches of the solver satisfy the clustering equations. */
  lemma SolveFacts(p: Params)
    requires Valid(p)
    ensures Solves(p, Solve(p))
  {
    if p.r == 1.0 {
      SolveUnitFacts(p);
    } else {
      SolveRatioFacts(p);
    }
  }

  /** On a positive length both steps are positive. */
  lemma SolvePositive(p: Params)
    requires Valid(p) && p.L > 0
    ensures Solve(p).d > 0.0 && Solve(p).D > 0.0
  {
    SolveFacts(p);
    PowPositive(p.r, p.nc - 1);
    if p.r == 1.0 {
      DivPositive(p.L as real, (p.nt - 1) as real);
    } else {
      DenominatorFacts(p);
      DivPositive(p.L as real, Denominator(p));
    }
  }

  /** The first index of the mirrored cluster. */
  function Ns(p: Params): int {
    p.nc + Nu(p) - 1
  }

  /** Coordinate i before the optional reflection, in closed form, for a solution s. */
  function Shape(p: Params, s: Clustering, i: int): real
    requires Valid(p) && 0 <= i < p.nt
  {
    if i < p.nc - 1 then s.d * Geo(p.r, i)
    else if i < Ns(p) then s.C + ((i - (p.nc - 1)) as real) * s.D
    else s.C + ((Nu(p) - 1) as real) * s.D + s.d * GeoTail(p.r, p.nc - 1, i - Ns(p) + 1)
  }

  /** The coordinate of node i that generate_mesh returns. */
  function Coord(p: Params, i: int): real
    requires Valid(p) && 0 <= i < p.nt
  {
    if p.ct == -1 then (p.L as real) - Shape(p, Solve(p), p.nt - 1 - i) else Shape(p, Solve(p), i)
  }

  /** The running sum of the first loop: its first t steps d, d*r, ..., d*r^(t-1). */
  function ClusterSum(d: real, r: real, t: nat): real {
    if t == 0 then 0.0 else ClusterSum(d, r, t - 1) + d * Pow(r, t - 1)
  }

  /** The running sum of the mirrored loop: its first u steps d*r^(m-1), ..., d*r^(m-u), where m = nc - 1. */
  function MirrorSum(d: real, r: real, m: nat, u: nat): real
    requires u <= m
  {
    if u == 0 then 0.0 else MirrorSum(d, r, m, u - 1) + d * Pow(r, m - u)
  }

  /** The first loop: the geometric cluster x[i] = x[i-1] + d*r^(i-1) for 1 <= i <= nc-2. */
  method FillCluster(a: array<real>, nc: int, d: real, r: real)
    requires 1 <= nc <= a.Length && a[0] == 0.0
    modifies a
    ensures forall t :: 0 <= t < nc - 1 ==> a[t] == ClusterSum(d, r, t)
    ensures forall t :: nc - 1 <= t < a.Length ==> a[t] == old(a[t])
  {
    var i := 1;
    while i < nc - 1
      invariant 1 <= i <= (if nc - 1 > 1 then nc - 1 else 1)
      invariant forall t :: 0 <= t < i ==> a[t] == ClusterSum(d, r, t)
      invariant forall t :: i <= t < a.Length ==> a[t] == old(a[t])
    {
      assert ClusterSum(d, r, i) == ClusterSum(d, r, i - 1) + d * Pow(r, i - 1);
      a[i] := a[i - 1] + d * Pow(r, i - 1);
      i := i + 1;
    }
  }

  /** The second loop: nu-1 uniform steps D after x[nc-1] = C. */
  method FillUniform(a: array<real>, nc: int, nu: int, C: real, D: real)
    requires 1 <= nc && 1 <= nu && nc + nu - 1 <= a.Length
    requires a[nc - 1] == C
    modifies a
    ensures forall t :: nc - 1 <= t < nc + nu - 1 ==> a[t] == C + ((t - (nc - 1)) as real) * D
    ensures forall t :: 0 <= t < nc - 1 || nc + nu - 1 <= t < a.Length ==> a[t] == old(a[t])
  {
    var i := 0;
    assert a[nc - 1] == C + ((nc - 1 - (nc - 1)) as real) * D;
    while i < nu - 1
      invariant 0 <= i <= nu - 1
      invariant forall t :: nc - 1 <= t <= nc - 1 + i ==> a[t] == C + ((t - (nc - 1)) as real) * D
      invariant forall t :: 0 <= t < nc - 1 || nc + i <= t < a.Length ==> a[t] == old(a[t])
    {
      assert ((nc + i - (nc - 1)) as real) * D == ((nc + i - 1 - (nc - 1)) as real) * D + D;
      a[nc + i] := a[nc + i - 1] + D;
      i := i + 1;
    }
  }

  /** The third loop (cluster type 2): the geometric steps mirrored, x[ns+i] = x[ns+i-1] + d*r^(nc-i-2). */
  method FillMirror(a: array<real>, ns: int, nc: int, d: real, r: real)
    requires 1 <= ns && 1 <= nc && ns + nc - 1 <= a.Length
    modifies a
    ensures forall t :: ns - 1 <= t < ns + nc - 1 ==> a[t] == old(a[ns - 1]) + MirrorSum(d, r, nc - 1, t - ns + 1)
    ensures forall t :: 0 <= t < ns || ns + nc - 1 <= t < a.Length ==> a[t] == old(a[t])
  {
    var i := 0;
    while i < nc - 1
      invariant 0 <= i <= nc - 1
      invariant forall t :: ns - 1 <= t < ns + i ==> a[t] == old(a[ns - 1]) + MirrorSum(d, r, nc - 1, t - ns + 1)
      invariant forall t :: 0 <= t < ns || ns + i <= t < a.Length ==> a[t] == old(a[t])
    {
      assert MirrorSum(d, r, nc - 1, i + 1) == MirrorSum(d, r, nc - 1, i) + d * Pow(r, nc - i - 2) by {
        assert nc - 1 - (i + 1) == nc - i - 2;
      }
      a[ns + i] := a[ns + i - 1] + d * Pow(r, nc - i - 2);
      i := i + 1;
    }
  }

  /** The first loop's running sum is the scaled geometric series. */
  lemma {:induction false} ClusterSumGeo(d: real, r: real, t: nat)
    ensures ClusterSum(d, r, t) == d * Geo(r, t)
  {
    if t > 0 {
      ClusterSumGeo(d, r, t - 1);
      Distrib(d, Geo(r, t - 1), Pow(r, t - 1));
    }
  }

  /** The mirrored loop's running sum is d times the top u terms of the series. */
  lemma {:induction false} MirrorSumGeo(d: real, r: real, m: nat, u: nat)
    requires u <= m
    ensures MirrorSum(d, r, m, u) == d * GeoTail(r, m, u)
  {
    if u > 0 {
      MirrorSumGeo(d, r, m, u - 1);
      GeoTailStep(r, m, u);
      Distrib(d, GeoTail(r, m, u - 1), Pow(r, m - u));
    }
  }

  lemma ShapeCluster(p: Params, s: Clustering, t: int)
    requires Valid(p) && 0 <= t < p.nc - 1 && t < p.nt
    ensures Shape(p, s, t) == ClusterSum(s.d, p.r, t)
  {
    ClusterSumGeo(s.d, p.r, t);
  }

  lemma ShapeMirror(p: Params, s: Clustering, t: int)
    requires Valid(p) && Ns(p) <= t < p.nt
    ensures Shape(p, s, t) == s.C + ((Nu(p) - 1) as real) * s.D + MirrorSum(s.d, p.r, p.nc - 1, t - Ns(p) + 1)
  {
    MirrorSumGeo(s.d, p.r, p.nc - 1, t - Ns(p) + 1);
  }

  /** What the three loops leave in the coordinate array is the closed form. */
  lemma MeshLoops(p: Params, s: Clustering, xs: seq<real>)
    requires Valid(p) && |xs| == p.nt
    requires forall t :: 0 <= t < p.nc - 1 ==> xs[t] == ClusterSum(s.d, p.r, t)
    requires forall t :: p.nc - 1 <= t < Ns(p) ==> xs[t] == s.C + ((t - (p.nc - 1)) as real) * s.D
    requires forall t :: Ns(p) <= t < p.nt ==>
      xs[t] == s.C + ((Nu(p) - 1) as real) * s.D + MirrorSum(s.d, p.r, p.nc - 1, t - Ns(p) + 1)
    ensures forall t :: 0 <= t < p.nt ==> xs[t] == Shape(p, s, t)
  {
    forall t | 0 <= t < p.nt
      ensures xs[t] == Shape(p, s, t)
    {
      if t < p.nc - 1 {
        ShapeCluster(p, s, t);
      } else if t >= Ns(p) {
        ShapeMirror(p, s, t);
      }
    }
  }

  /** The three loops of generate_mesh, before the reflection, for the steps of s. */
  method Accumulate(p: Params, s: Clustering) returns (xs: seq<real>)
    requires Valid(p)
    ensures |xs| == p.nt
    ensures forall t :: 0 <= t < p.nt ==> xs[t] == Shape(p, s, t)
  {
    var nt, nc, nu := p.nt, p.nc, Nu(p);
    var a := new real[nt];
    a[0] := 0.0;
    FillCluster(a, nc, s.d, p.r);
    a[nc - 1] := s.C;
    FillUniform(a, nc, nu, s.C, s.D);
    var ns := nc + nu - 1;
    assert a[ns - 1] == s.C + ((Nu(p) - 1) as real) * s.D by {
      assert ns - 1 - (nc - 1) == Nu(p) - 1;
    }
    if p.ct == 2 {
      FillMirror(a, ns, nc, s.d, p.r);
    }
    xs := a[..];
    MeshLoops(p, s, xs);
  }

  /**
   * generate_mesh: cumulative loops over the geometric cluster, the uniform
   * part and (cluster type 2) the mirrored cluster; reflection for type -1.
   */
  method GenerateMesh(p: Params) returns (x: seq<real>)
    requires Valid(p)
    ensures |x| == p.nt
    ensures forall i :: 0 <= i < p.nt ==> x[i] == Coord(p, i)
  {
    var s := Solve(p);
    var a := Accumulate(p, s);
    if p.ct == -1 {
      var nt := p.nt;
      var y := new real[nt];
      var i := 0;
      while i < nt
        invariant 0 <= i <= nt
        invariant forall t :: 0 <= t < i ==> y[t] == Coord(p, t)
      {
        y[i] := (p.L as real) - a[nt - 1 - i];
        i := i + 1;
      }
      x := y[..];
    } else {
      x := a;
    }
  }

  /** The step generate_mesh adds between node i and node i+1. */
  function Step(p: Params, s: Clustering, i: int): real
    requires Valid(p) && 0 <= i < p.nt - 1
  {
    if i < p.nc - 1 then s.d * Pow(p.r, i)
    else if i < Ns(p) - 1 then s.D
    else s.d * Pow(p.r, p.nc - 2 - (i + 1 - Ns(p)))
  }

  lemma ScaledShift(a: int, D: real)
    ensures ((a + 1) as real) * D == (a as real) * D + D
  {
  }

  lemma ShapeStepCluster(p: Params, s: Clustering, i: int)
    requires Valid(p) && 0 <= i && i + 1 < p.nc - 1 && i + 1 < p.nt
    ensures Shape(p, s, i + 1) == Shape(p, s, i) + Step(p, s, i)
  {
    Distrib(s.d, Geo(p.r, i), Pow(p.r, i));
  }

  lemma ShapeStepJoin(p: Params, s: Clustering, i: int)
    requires Valid(p) && Solves(p, s) && 0 <= i && i + 1 == p.nc - 1
    ensures Shape(p, s, i + 1) == Shape(p, s, i) + Step(p, s, i)
  {
    assert ((i + 1 - (p.nc - 1)) as real) * s.D == 0.0;
    assert Geo(p.r, p.nc - 1) == Geo(p.r, i) + Pow(p.r, i);
    Distrib(s.d, Geo(p.r, i), Pow(p.r, i));
  }

  lemma ShapeStepUniform(p: Params, s: Clustering, i: int)
    requires Valid(p) && p.nc - 1 <= i && i + 1 < Ns(p) && i + 1 < p.nt
    ensures Shape(p, s, i + 1) == Shape(p, s, i) + Step(p, s, i)
  {
    ScaledShift(i - (p.nc - 1), s.D);
    assert i + 1 - (p.nc - 1) == (i - (p.nc - 1)) + 1;
  }

  lemma ShapeStepMirrorJoin(p: Params, s: Clustering, i: int)
    requires Valid(p) && i + 1 == Ns(p) && i + 1 < p.nt
    ensures Shape(p, s, i + 1) == Shape(p, s, i) + Step(p, s, i)
  {
    assert i - (p.nc - 1) == Nu(p) - 1;
    GeoTailStep(p.r, p.nc - 1, 1);
    assert GeoTail(p.r, p.nc - 1, 0) == 0.0;
    assert p.nc - 1 - 1 == p.nc - 2 - (i + 1 - Ns(p));
  }

  lemma ShapeStepMirror(p: Params, s: Clustering, i: int)
    requires Valid(p) && Ns(p) <= i && i + 1 < p.nt
    ensures Shape(p, s, i + 1) == Shape(p, s, i) + Step(p, s, i)
  {
    var u := i + 1 - Ns(p) + 1;
    GeoTailStep(p.r, p.nc - 1, u);
    assert u - 1 == i - Ns(p) + 1;
    assert p.nc - 1 - u == p.nc - 2 - (i + 1 - Ns(p));
    Distrib(s.d, GeoTail(p.r, p.nc - 1, u - 1), Pow(p.r, p.nc - 1 - u));
  }

  /** Consecutive closed-form coordinates differ by exactly the step the loops add. */
  lemma ShapeStep(p: Params, s: Clustering, i: int)
    requires Valid(p) && Solves(p, s) && 0 <= i < p.nt - 1
    ensures Shape(p, s, i + 1) == Shape(p, s, i) + Step(p, s, i)
  {
    if i + 1 < p.nc - 1 {
      ShapeStepCluster(p, s, i);
    } else if i + 1 == p.nc - 1 {
      ShapeStepJoin(p, s, i);
    } else if i + 1 < Ns(p) {
      ShapeStepUniform(p, s, i);
    } else if i + 1 == Ns(p) {
      ShapeStepMirrorJoin(p, s, i);
    } else {
      ShapeStepMirror(p, s, i);
    }
  }

  /** Every step is positive when the first step is. */
  lemma StepPositive(p: Params, s: Clustering, i: int)
    requires Valid(p) && Solves(p, s) && s.d > 0.0 && 0 <= i < p.nt - 1
    ensures Step(p, s, i) > 0.0
  {
    PowPositive(p.r, p.nc - 1);
    PowPositive(p.r, i);
    if i >= Ns(p) - 1 {
      PowPositive(p.r, p.nc - 2 - (i + 1 - Ns(p)));
    }
  }

  /** On a positive length the coordinates generate_mesh returns are strictly increasing, for every cluster type. */
  lemma MeshIncreasing(p: Params)
    requires Valid(p) && p.L > 0
    ensures forall i :: 0 <= i < p.nt - 1 ==> Coord(p, i) < Coord(p, i + 1)
  {
    var s := Solve(p);
    SolveFacts(p);
    SolvePositive(p);
    forall i | 0 <= i < p.nt - 1
      ensures Coord(p, i) < Coord(p, i + 1)
    {
      var j := if p.ct == -1 then p.nt - 2 - i else i;
      ShapeStep(p, s, j);
      StepPositive(p, s, j);
    }
  }

  lemma AddScaled(a: int, b: int, d: real)
    ensures (a as real) * d + (b as real) * d == ((a + b) as real) * d
  {
  }

  lemma ShapeStart(p: Params, s: Clustering)
    requires Valid(p) && Solves(p, s)
    ensures Shape(p, s, 0) == 0.0
  {
    assert Geo(p.r, 0) == 0.0;
    if p.nc == 1 {
      assert ((0 - (p.nc - 1)) as real) * s.D == 0.0;
    }
  }

  lemma ShapeEnd(p: Params, s: Clustering)
    requires Valid(p) && Solves(p, s)
    ensures Shape(p, s, p.nt - 1) == p.L as real
  {
    if p.ct != 2 || p.nc == 1 {
      assert p.nt - 1 - (p.nc - 1) == Nu(p) - 1;
      assert Geo(p.r, 0) == 0.0;
    } else {
      var m := p.nc - 1;
      assert p.nt - 1 - Ns(p) + 1 == m;
      assert GeoTail(p.r, m, m) == Geo(p.r, m) by {
        assert Geo(p.r, 0) == 0.0;
      }
    }
  }

  /** generate_mesh starts at 0 and ends at L, for every cluster type. */
  lemma MeshEnds(p: Params)
    requires Valid(p)
    ensures Coord(p, 0) == 0.0
    ensures Coord(p, p.nt - 1) == p.L as real
  {
    SolveFacts(p);
    ShapeStart(p, Solve(p));
    ShapeEnd(p, Solve(p));
  }

  lemma ShapeUnit(p: Params, s: Clustering, i: int)
    requires Valid(p) && p.r == 1.0 && s.D == s.d && s.C == ((p.nc - 1) as real) * s.d
    requires 0 <= i < p.nt
    ensures Shape(p, s, i) == (i as real) * s.d
  {
    if i < p.nc - 1 {
      GeoOne(i);
    } else if i < Ns(p) {
      AddScaled(p.nc - 1, i - (p.nc - 1), s.d);
    } else {
      var m, u := p.nc - 1, i - Ns(p) + 1;
      GeoOne(m);
      GeoOne(m - u);
      assert GeoTail(p.r, m, u) == u as real;
      AddScaled(p.nc - 1, Nu(p) - 1, s.d);
      AddScaled(p.nc - 1 + (Nu(p) - 1), u, s.d);
    }
  }

  /** With ratio 1 the mesh is uniform: node i sits at i*L/(nt-1), for every cluster type. */
  lemma MeshUniform(p: Params)
    requires Valid(p) && p.r == 1.0
    ensures forall i :: 0 <= i < p.nt ==> Coord(p, i) == (i as real) * ((p.L as real) / ((p.nt - 1) as real))
  {
    var s := Solve(p);
    var d := (p.L as real) / ((p.nt - 1) as real);
    assert s == Clustering(d, d, ((p.nc - 1) as real) * d);
    forall i | 0 <= i < p.nt
      ensures Coord(p, i) == (i as real) * d
    {
      if p.ct == -1 {
        ShapeUnit(p, s, p.nt - 1 - i);
        AddScaled(p.nt - 1 - i, i, d);
        assert ((p.nt - 1) as real) * d == p.L as real;
      } else {
        ShapeUnit(p, s, i);
      }
    }
  }

  lemma Cancel(d: real, a: real, b: real)
    ensures d * a + d * (b - a) == d * b
  {
  }

  lemma ShapeSymmetricCluster(p: Params, s: Clustering, i: int)
    requires Valid(p) && Solves(p, s) && p.ct == 2 && 0 <= i < p.nc - 1
    ensures Shape(p, s, i) + Shape(p, s, p.nt - 1 - i) == p.L as real
  {
    var m := p.nc - 1;
    assert p.nt - 1 - i - Ns(p) + 1 == m - i;
    assert m - (m - i) == i;
    Cancel(s.d, Geo(p.r, i), Geo(p.r, m));
  }

  lemma ShapeSymmetricUniform(p: Params, s: Clustering, i: int)
    requires Valid(p) && Solves(p, s) && p.ct == 2 && p.nc - 1 <= i < Ns(p)
    ensures Shape(p, s, i) + Shape(p, s, p.nt - 1 - i) == p.L as real
  {
    var j := p.nt - 1 - i;
    AddScaled(i - (p.nc - 1), j - (p.nc - 1), s.D);
    assert (i - (p.nc - 1)) + (j - (p.nc - 1)) == Nu(p) - 1;
  }

  /** With clusters at both ends (type 2) the mesh is symmetric about L/2. */
  lemma MeshSymmetric(p: Params)
    requires Valid(p) && p.ct == 2
    ensures forall i :: 0 <= i < p.nt ==> Coord(p, i) + Coord(p, p.nt - 1 - i) == p.L as real
  {
    var s := Solve(p);
    SolveFacts(p);
    forall i | 0 <= i < p.nt
      ensures Coord(p, i) + Coord(p, p.nt - 1 - i) == p.L as real
    {
      if i < p.nc - 1 {
        ShapeSymmetricCluster(p, s, i);
      } else if i < Ns(p) {
        ShapeSymmetricUniform(p, s, i);
      } else {
        assert p.nt - 1 - (p.nt - 1 - i) == i;
        ShapeSymmetricCluster(p, s, p.nt - 1 - i);
      }
    }
  }
}
