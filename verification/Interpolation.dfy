/**
  Piecewise-linear interpolation over exact reals, with the semantics of
  numpy's `interp` (clamped to the end values outside the sample range) and
  the evenly spaced grid of `linspace(0, 1, n)`.
 */
module Interpolation {

  /** Sample points of `interp` must increase strictly. */
  predicate StrictlyIncreasing(xs: seq<real>) {
    forall i, j :: 0 <= i < j < |xs| ==> xs[i] < xs[j]
  }

  /** The point at `x` on the line through (x0, y0) and (x1, y1), computed as
      numpy does: slope times offset, plus the left value. */
  function Lerp(x0: real, y0: real, x1: real, y1: real, x: real): real
    requires x0 < x1
  {
    (y1 - y0) / (x1 - x0) * (x - x0) + y0
  }

  lemma LerpAtEnds(x0: real, y0: real, x1: real, y1: real)
    requires x0 < x1
    ensures Lerp(x0, y0, x1, y1, x0) == y0
    ensures Lerp(x0, y0, x1, y1, x1) == y1
  {
  }

  /** Between its two control points the line stays between their values. */
  lemma LerpBetween(x0: real, y0: real, x1: real, y1: real, x: real)
    requires x0 < x1 && x0 <= x <= x1
    ensures y0 <= y1 ==> y0 <= Lerp(x0, y0, x1, y1, x) <= y1
    ensures y1 <= y0 ==> y1 <= Lerp(x0, y0, x1, y1, x) <= y0
  {
    var d := x1 - x0;
    var t := (x - x0) / d;
    UnitFraction(x - x0, d);
    SlopeTimesOffset(y1 - y0, d, x - x0);
    assert Lerp(x0, y0, x1, y1, x) == t * (y1 - y0) + y0;
    if y0 <= y1 {
      ScaleWithin(t, y1 - y0);
    } else {
      ScaleWithin(t, y0 - y1);
      assert t * (y1 - y0) == -(t * (y0 - y1));
    }
  }

  /** An offset no larger than the width is a fraction in [0, 1] of it. */
  lemma UnitFraction(u: real, d: real)
    requires 0.0 <= u <= d && 0.0 < d
    ensures 0.0 <= u / d <= 1.0
  {
    DivideMonotone(0.0, u, d);
    DivideMonotone(u, d, d);
    assert d / d == 1.0;
  }

  lemma SlopeTimesOffset(s: real, d: real, u: real)
    requires 0.0 < d
    ensures s / d * u == u / d * s
  {
    assert s / d * u == s * u / d;
    assert u / d * s == u * s / d;
  }

  lemma ScaleWithin(t: real, c: real)
    requires 0.0 <= t <= 1.0 && 0.0 <= c
    ensures 0.0 <= t * c <= c
  {
    assert c - t * c == (1.0 - t) * c;
  }

  /** `interp(x, xp, fp)`: `fp[0]` left of the first sample point, the last
      value right of the last one, the line through the two neighbouring
      samples in between. */
  function Interp(x: real, xp: seq<real>, fp: seq<real>): real
    requires 1 <= |xp| == |fp| && StrictlyIncreasing(xp)
    decreases |xp|
  {
    if x <= xp[0] || |xp| == 1 then fp[0]
    else if x <= xp[1] then Lerp(xp[0], fp[0], xp[1], fp[1], x)
    else Interp(x, xp[1..], fp[1..])
  }

  /** At a sample point the interpolant takes the sample value. */
  lemma {:induction false} InterpAtSample(k: nat, xp: seq<real>, fp: seq<real>)
    requires 1 <= |xp| == |fp| && StrictlyIncreasing(xp)
    requires k < |xp|
    ensures Interp(xp[k], xp, fp) == fp[k]
  {
    if k == 0 {
    } else if k == 1 {
      LerpAtEnds(xp[0], fp[0], xp[1], fp[1]);
    } else {
      assert xp[k] > xp[1];
      InterpAtSample(k - 1, xp[1..], fp[1..]);
    }
  }

  /** Between two neighbouring sample points the interpolant is the line
      through them. */
  lemma {:induction false} InterpOnSegment(k: nat, x: real, xp: seq<real>, fp: seq<real>)
    requires 1 <= |xp| == |fp| && StrictlyIncreasing(xp)
    requires k + 1 < |xp| && xp[k] <= x <= xp[k + 1]
    ensures Interp(x, xp, fp) == Lerp(xp[k], fp[k], xp[k + 1], fp[k + 1], x)
  {
    LerpAtEnds(xp[k], fp[k], xp[k + 1], fp[k + 1]);
    if k == 0 {
    } else if x <= xp[1] {
      assert k == 1 && x == xp[1];
      LerpAtEnds(xp[0], fp[0], xp[1], fp[1]);
    } else {
      InterpOnSegment(k - 1, x, xp[1..], fp[1..]);
    }
  }

  /** Right of the last sample point the interpolant is clamped to the last value. */
  lemma {:induction false} InterpRightClamp(x: real, xp: seq<real>, fp: seq<real>)
    requires 1 <= |xp| == |fp| && StrictlyIncreasing(xp)
    requires xp[|xp| - 1] <= x
    ensures Interp(x, xp, fp) == fp[|fp| - 1]
  {
    if |xp| == 1 {
    } else if x <= xp[1] {
      assert xp[0] < xp[|xp| - 1];
      assert |xp| == 2 && x == xp[1];
      LerpAtEnds(xp[0], fp[0], xp[1], fp[1]);
    } else {
      InterpRightClamp(x, xp[1..], fp[1..]);
    }
  }

  /** Every interpolated value lies within any bounds of the sample values. */
  lemma {:induction false} InterpWithin(x: real, xp: seq<real>, fp: seq<real>, lo: real, hi: real)
    requires 1 <= |xp| == |fp| && StrictlyIncreasing(xp)
    requires forall k :: 0 <= k < |fp| ==> lo <= fp[k] <= hi
    ensures lo <= Interp(x, xp, fp) <= hi
  {
    if x <= xp[0] || |xp| == 1 {
    } else if x <= xp[1] {
      LerpBetween(xp[0], fp[0], xp[1], fp[1], x);
    } else {
      InterpWithin(x, xp[1..], fp[1..], lo, hi);
    }
  }

  /** `linspace(0, 1, n)`: n evenly spaced points from 0 to 1, both ends included. */
  function Linspace(n: nat): (g: seq<real>)
    ensures |g| == n && StrictlyIncreasing(g)
    ensures n >= 1 ==> g[0] == 0.0
    ensures n >= 2 ==> g[n - 1] == 1.0
    ensures forall i :: 0 <= i < n ==> 0.0 <= g[i] <= 1.0
  {
    if n <= 1 then seq(n, i => 0.0)
    else
      var g := seq(n, i => i as real / (n - 1) as real);
      LinspaceShape(n, g);
      g
  }

  /** The points are evenly spaced: consecutive points are 1/(n-1) apart. */
  lemma LinspaceSpacing(n: nat)
    requires n >= 2
    ensures forall i :: 0 <= i < n - 1 ==> Linspace(n)[i + 1] - Linspace(n)[i] == 1.0 / (n - 1) as real
  {
    var g := Linspace(n);
    var d := (n - 1) as real;
    forall i | 0 <= i < n - 1 ensures g[i + 1] - g[i] == 1.0 / d {
      SplitQuotient(i as real, d);
    }
  }

  lemma SplitQuotient(a: real, d: real)
    requires d > 0.0
    ensures (a + 1.0) / d - a / d == 1.0 / d
  {
  }

  lemma LinspaceShape(n: nat, g: seq<real>)
    requires n >= 2 && |g| == n
    requires forall i :: 0 <= i < n ==> g[i] == i as real / (n - 1) as real
    ensures StrictlyIncreasing(g)
    ensures g[0] == 0.0 && g[n - 1] == 1.0
    ensures forall i :: 0 <= i < n ==> 0.0 <= g[i] <= 1.0
  {
    LinspaceIncreasing(n, g);
    LinspaceBounds(n, g);
  }

  lemma LinspaceIncreasing(n: nat, g: seq<real>)
    requires n >= 2 && |g| == n
    requires forall i :: 0 <= i < n ==> g[i] == i as real / (n - 1) as real
    ensures StrictlyIncreasing(g)
  {
    forall i, j | 0 <= i < j < n
      ensures g[i] < g[j]
    {
      DivideStrictlyMonotone(i as real, j as real, (n - 1) as real);
    }
  }

  lemma LinspaceBounds(n: nat, g: seq<real>)
    requires n >= 2 && |g| == n
    requires forall i :: 0 <= i < n ==> g[i] == i as real / (n - 1) as real
    ensures g[0] == 0.0 && g[n - 1] == 1.0
    ensures forall i :: 0 <= i < n ==> 0.0 <= g[i] <= 1.0
  {
    var d := (n - 1) as real;
    assert d >= 1.0;
    assert d / d == 1.0;
    assert g[0] == 0.0 / d == 0.0;
    forall i | 0 <= i < n
      ensures 0.0 <= g[i] <= 1.0
    {
      DivideMonotone(0.0, i as real, d);
      DivideMonotone(i as real, d, d);
    }
  }

  lemma DivideStrictlyMonotone(a: real, b: real, d: real)
    requires a < b && 0.0 < d
    ensures a / d < b / d
  {
    assert b / d - a / d == (b - a) / d;
  }

  lemma DivideMonotone(a: real, b: real, d: real)
    requires a <= b && 0.0 < d
    ensures a / d <= b / d
  {
    assert b / d - a / d == (b - a) / d;
  }
}
