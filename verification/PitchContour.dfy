/**
  The contour post-processing shared by the training extractor and the bot:
  the pitch tracker's per-frame F0 (a frequency, or nothing for an unvoiced
  frame) is turned into a gap-free contour, which is then resampled to a
  fixed-length feature vector.
 */
module PitchContour {
  import opened Wrappers
  import opened Interpolation

  /** Length of the all-zero vector returned when the contour is unusable. */
  const FallbackLength: nat := 100

  /** Default length of the feature vector (`tamanho_fixo`). */
  const FeatureLength: nat := 100

  /** What loading the clip and running the pitch tracker produced. The
      libraries themselves are not modelled: their outcome is an input. */
  datatype Analysis =
    | LoadFailed                                            // loading the file raised
    | TrackingFailed(samples: seq<real>)                    // the clip loaded, pitch tracking raised
    | Tracked(samples: seq<real>, f0: seq<Option<real>>)    // one estimate per frame, None when unvoiced

  function Zeros(n: nat): (z: seq<real>)
    ensures |z| == n && forall i :: 0 <= i < n ==> z[i] == 0.0
  {
    seq(n, _ => 0.0)
  }

  /** Indices of the voiced frames, in increasing order. */
  function DefinedFrames(f0: seq<Option<real>>): (idx: seq<nat>)
    ensures |idx| <= |f0|
    ensures forall k :: 0 <= k < |idx| ==> idx[k] < |f0| && f0[idx[k]].Some?
    decreases |f0|
  {
    if |f0| == 0 then []
    else
      var front := DefinedFrames(f0[..|f0| - 1]);
      assert forall k :: 0 <= k < |front| ==> f0[..|f0| - 1][front[k]] == f0[front[k]];
      front + (if f0[|f0| - 1].Some? then [|f0| - 1] else [])
  }

  /** The voiced frames are listed in increasing order, and every voiced
      frame is listed. */
  lemma {:induction false} DefinedFramesShape(f0: seq<Option<real>>)
    ensures forall k1, k2 :: 0 <= k1 < k2 < |DefinedFrames(f0)| ==> DefinedFrames(f0)[k1] < DefinedFrames(f0)[k2]
    ensures forall i :: 0 <= i < |f0| && f0[i].Some? ==> i in DefinedFrames(f0)
    decreases |f0|
  {
    if |f0| > 0 {
      var init := f0[..|f0| - 1];
      DefinedFramesShape(init);
      assert forall i :: 0 <= i < |init| ==> init[i] == f0[i];
    }
  }

  /** The F0 values of the voiced frames, in frame order. */
  function DefinedValues(f0: seq<Option<real>>): (v: seq<real>)
    ensures |v| == |DefinedFrames(f0)|
  {
    var idx := DefinedFrames(f0);
    seq(|idx|, k requires 0 <= k < |idx| => f0[idx[k]].value)
  }

  /** Frame indices as interpolation sample points. */
  function AsPoints(idx: seq<nat>): (xp: seq<real>)
    ensures |xp| == |idx|
  {
    seq(|idx|, k requires 0 <= k < |idx| => idx[k] as real)
  }

  lemma DefinedPointsIncrease(f0: seq<Option<real>>)
    ensures StrictlyIncreasing(AsPoints(DefinedFrames(f0)))
  {
    DefinedFramesShape(f0);
  }

  /** Fills the unvoiced frames by interpolating, at every frame index, over
      the voiced frames (numpy `interp` of all indices against the voiced
      indices and their values). */
  function GapFill(f0: seq<Option<real>>): (c: seq<real>)
    requires |DefinedFrames(f0)| >= 1
    ensures |c| == |f0|
  {
    var xp := AsPoints(DefinedFrames(f0));
    DefinedPointsIncrease(f0);
    seq(|f0|, i => Interp(i as real, xp, DefinedValues(f0)))
  }

  /** Every voiced frame keeps its value. */
  lemma GapFillKeepsDefined(f0: seq<Option<real>>)
    requires |DefinedFrames(f0)| >= 1
    ensures forall i :: 0 <= i < |f0| && f0[i].Some? ==> GapFill(f0)[i] == f0[i].value
  {
    DefinedFramesShape(f0);
    var idx := DefinedFrames(f0);
    DefinedPointsIncrease(f0);
    forall i | 0 <= i < |f0| && f0[i].Some?
      ensures GapFill(f0)[i] == f0[i].value
    {
      var k :| 0 <= k < |idx| && idx[k] == i;
      InterpAtSample(k, AsPoints(idx), DefinedValues(f0));
    }
  }

  /** Frames up to the first voiced frame take its value. */
  lemma GapFillBeforeFirst(f0: seq<Option<real>>, a: nat, i: nat)
    requires a < |f0| && f0[a].Some?
    requires forall j :: 0 <= j < a ==> f0[j].None?
    requires i <= a
    ensures |DefinedFrames(f0)| >= 1
    ensures GapFill(f0)[i] == f0[a].value
  {
    DefinedFramesShape(f0);
    var idx := DefinedFrames(f0);
    DefinedPointsIncrease(f0);
    assert a in idx;
    assert idx[0] == a;
  }

  /** Frames from the last voiced frame on take its value. */
  lemma GapFillAfterLast(f0: seq<Option<real>>, b: nat, i: nat)
    requires b < |f0| && f0[b].Some?
    requires forall j :: b < j < |f0| ==> f0[j].None?
    requires b <= i < |f0|
    ensures |DefinedFrames(f0)| >= 1
    ensures GapFill(f0)[i] == f0[b].value
  {
    DefinedFramesShape(f0);
    var idx := DefinedFrames(f0);
    DefinedPointsIncrease(f0);
    assert b in idx;
    var last := |idx| - 1;
    assert idx[last] == b;
    InterpRightClamp(i as real, AsPoints(idx), DefinedValues(f0));
  }

  /** An unvoiced frame strictly between two neighbouring voiced frames lies
      on the segment joining them. */
  lemma GapFillInterior(f0: seq<Option<real>>, a: nat, b: nat, i: nat)
    requires a < i < b < |f0|
    requires f0[a].Some? && f0[b].Some?
    requires forall j :: a < j < b ==> f0[j].None?
    ensures |DefinedFrames(f0)| >= 1
    ensures GapFill(f0)[i] == Lerp(a as real, f0[a].value, b as real, f0[b].value, i as real)
  {
    var ka := AdjacentVoiced(f0, a, b);
    var xp := AsPoints(DefinedFrames(f0));
    var fp := DefinedValues(f0);
    SegmentSamples(f0, a, b, ka);
    GapFillAt(f0, i);
    InterpOnSegment(ka, i as real, xp, fp);
  }

  /** Frame i of the filled contour is the interpolant at i. */
  lemma GapFillAt(f0: seq<Option<real>>, i: nat)
    requires |DefinedFrames(f0)| >= 1 && i < |f0|
    ensures StrictlyIncreasing(AsPoints(DefinedFrames(f0)))
    ensures GapFill(f0)[i] == Interp(i as real, AsPoints(DefinedFrames(f0)), DefinedValues(f0))
  {
    DefinedPointsIncrease(f0);
  }

  /** The sample points and values at positions ka and ka + 1 of the voiced
      list are those of frames a and b. */
  lemma SegmentSamples(f0: seq<Option<real>>, a: nat, b: nat, ka: nat)
    requires ka + 1 < |DefinedFrames(f0)|
    requires DefinedFrames(f0)[ka] == a && DefinedFrames(f0)[ka + 1] == b
    ensures a < |f0| && b < |f0| && f0[a].Some? && f0[b].Some?
    ensures AsPoints(DefinedFrames(f0))[ka] == a as real && AsPoints(DefinedFrames(f0))[ka + 1] == b as real
    ensures DefinedValues(f0)[ka] == f0[a].value && DefinedValues(f0)[ka + 1] == f0[b].value
  {
  }

  /** Such a frame's value lies between its neighbours' values. */
  lemma GapFillInteriorBetween(f0: seq<Option<real>>, a: nat, b: nat, i: nat)
    requires a < i < b < |f0|
    requires f0[a].Some? && f0[b].Some?
    requires forall j :: a < j < b ==> f0[j].None?
    ensures |DefinedFrames(f0)| >= 1
    ensures f0[a].value <= f0[b].value ==> f0[a].value <= GapFill(f0)[i] <= f0[b].value
    ensures f0[b].value <= f0[a].value ==> f0[b].value <= GapFill(f0)[i] <= f0[a].value
  {
    GapFillInterior(f0, a, b, i);
    LerpBetween(a as real, f0[a].value, b as real, f0[b].value, i as real);
  }

  /** Two voiced frames with no voiced frame between them are consecutive
      in the list of voiced frames. */
  lemma AdjacentVoiced(f0: seq<Option<real>>, a: nat, b: nat) returns (ka: nat)
    requires a < b < |f0|
    requires f0[a].Some? && f0[b].Some?
    requires forall j :: a < j < b ==> f0[j].None?
    ensures ka + 1 < |DefinedFrames(f0)|
    ensures DefinedFrames(f0)[ka] == a && DefinedFrames(f0)[ka + 1] == b
  {
    DefinedFramesShape(f0);
    var idx := DefinedFrames(f0);
    ka :| 0 <= ka < |idx| && idx[ka] == a;
    var kb :| 0 <= kb < |idx| && idx[kb] == b;
    assert ka < kb;
    assert a < idx[ka + 1] <= b;
    assert f0[idx[ka + 1]].Some?;
  }

  /** The first and last frames take the first and last voiced values. */
  lemma GapFillEnds(f0: seq<Option<real>>)
    requires |DefinedFrames(f0)| >= 1
    ensures GapFill(f0)[0] == DefinedValues(f0)[0]
    ensures GapFill(f0)[|f0| - 1] == DefinedValues(f0)[|DefinedValues(f0)| - 1]
  {
    GapFillFirst(f0);
    GapFillLast(f0);
  }

  lemma GapFillFirst(f0: seq<Option<real>>)
    requires |DefinedFrames(f0)| >= 1
    ensures GapFill(f0)[0] == DefinedValues(f0)[0]
  {
    var xp := AsPoints(DefinedFrames(f0));
    DefinedPointsIncrease(f0);
    assert GapFill(f0)[0] == Interp(0.0, xp, DefinedValues(f0));
    assert 0.0 <= xp[0];
  }

  lemma GapFillLast(f0: seq<Option<real>>)
    requires |DefinedFrames(f0)| >= 1
    ensures GapFill(f0)[|f0| - 1] == DefinedValues(f0)[|DefinedValues(f0)| - 1]
  {
    var b := LastVoiced(f0);
    GapFillAfterLast(f0, b, |f0| - 1);
  }

  /** The last voiced frame: no frame after it is voiced. */
  lemma LastVoiced(f0: seq<Option<real>>) returns (b: nat)
    requires |DefinedFrames(f0)| >= 1
    ensures b < |f0| && f0[b].Some? && f0[b].value == DefinedValues(f0)[|DefinedValues(f0)| - 1]
    ensures forall j :: b < j < |f0| ==> f0[j].None?
  {
    DefinedFramesShape(f0);
    var idx := DefinedFrames(f0);
    b := idx[|idx| - 1];
  }

  /** Filled frames stay within any bounds of the voiced values. */
  lemma GapFillWithin(f0: seq<Option<real>>, lo: real, hi: real)
    requires |DefinedFrames(f0)| >= 1
    requires forall k :: 0 <= k < |DefinedValues(f0)| ==> lo <= DefinedValues(f0)[k] <= hi
    ensures forall i :: 0 <= i < |f0| ==> lo <= GapFill(f0)[i] <= hi
  {
    DefinedPointsIncrease(f0);
    forall i | 0 <= i < |f0|
      ensures lo <= GapFill(f0)[i] <= hi
    {
      InterpWithin(i as real, AsPoints(DefinedFrames(f0)), DefinedValues(f0), lo, hi);
    }
  }

  /** The contour cleaning common to both extractors: fewer than two voiced
      frames give the all-zero fallback, otherwise the gap-filled contour. */
  function CleanContour(f0: seq<Option<real>>): (c: seq<real>)
    ensures |c| >= 2
    ensures |DefinedFrames(f0)| < 2 ==> c == Zeros(FallbackLength)
    ensures |DefinedFrames(f0)| >= 2 ==>
      |c| == |f0| && forall i :: 0 <= i < |f0| && f0[i].Some? ==> c[i] == f0[i].value
  {
    if |DefinedFrames(f0)| < 2 then Zeros(FallbackLength)
    else
      GapFillKeepsDefined(f0);
      GapFill(f0)
  }

  /** Resamples a contour to `m` points: `interp(linspace(0, 1, m),
      linspace(0, 1, len(c)), c)`. numpy refuses an empty contour. */
  function Resample(c: seq<real>, m: nat): (r: seq<real>)
    requires |c| >= 1
    ensures |r| == m
  {
    var src := Linspace(|c|);
    var dst := Linspace(m);
    seq(m, j requires 0 <= j < m => Interp(dst[j], src, c))
  }

  /** With at least two voiced frames the resampled contour starts at the
      first voiced value and ends at the last one. */
  lemma CleanResampleEndpoints(f0: seq<Option<real>>, m: nat)
    requires |DefinedFrames(f0)| >= 2
    ensures m >= 1 ==> Resample(CleanContour(f0), m)[0] == DefinedValues(f0)[0]
    ensures m >= 2 ==> Resample(CleanContour(f0), m)[m - 1] == DefinedValues(f0)[|DefinedValues(f0)| - 1]
  {
    var c := GapFill(f0);
    var v := DefinedValues(f0);
    assert CleanContour(f0) == c;
    ResampleEndpoints(c, m);
    GapFillEnds(f0);
    assert c[0] == v[0] && c[|c| - 1] == v[|v| - 1];
  }

  /** The first and last contour values are kept at the ends. */
  lemma ResampleEndpoints(c: seq<real>, m: nat)
    requires |c| >= 1
    ensures m >= 1 ==> Resample(c, m)[0] == c[0]
    ensures m >= 2 ==> Resample(c, m)[m - 1] == c[|c| - 1]
  {
    if m >= 2 {
      InterpRightClamp(1.0, Linspace(|c|), c);
    }
  }

  /** Resampling a contour to its own length changes nothing. */
  lemma ResampleIdentity(c: seq<real>)
    requires |c| >= 1
    ensures Resample(c, |c|) == c
  {
    var r := Resample(c, |c|);
    forall j | 0 <= j < |c|
      ensures r[j] == c[j]
    {
      InterpAtSample(j, Linspace(|c|), c);
    }
  }

  /** Every resampled value lies within any bounds of the contour, in
      particular between its minimum and maximum. */
  lemma ResampleWithin(c: seq<real>, m: nat, lo: real, hi: real)
    requires |c| >= 1
    requires forall k :: 0 <= k < |c| ==> lo <= c[k] <= hi
    ensures forall j :: 0 <= j < m ==> lo <= Resample(c, m)[j] <= hi
  {
    var r := Resample(c, m);
    forall j | 0 <= j < m
      ensures lo <= r[j] <= hi
    {
      InterpWithin(Linspace(m)[j], Linspace(|c|), c, lo, hi);
    }
  }

  /** A zero contour resamples to a zero vector of the requested length. */
  lemma ResampleZeros(n: nat, m: nat)
    requires n >= 1
    ensures Resample(Zeros(n), m) == Zeros(m)
  {
    ResampleWithin(Zeros(n), m, 0.0, 0.0);
  }
}
