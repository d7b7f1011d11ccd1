/**
  The bot's copy of the extractor. It adds two guards to the training
  version: an empty clip gives the all-zero fallback, and any failure while
  loading or tracking pitch gives the fallback instead of raising. It
  therefore never fails.
 */
module AudioProcessor {
  import opened Wrappers
  import opened PitchContour
  import FeatureExtraction

  /** The inputs for which the bot answers with the all-zero fallback. */
  predicate FallsBack(a: Analysis) {
    match a
    case LoadFailed => true
    case TrackingFailed(_) => true
    case Tracked(samples, f0) => |samples| == 0 || |DefinedFrames(f0)| < 2
  }

  /** `extrair_contorno_pitch` of the bot. */
  function ExtractContour(a: Analysis): (c: seq<real>)
    ensures |c| >= 2
    ensures FallsBack(a) ==> c == Zeros(FallbackLength)
    ensures !FallsBack(a) ==>
      && |c| == |a.f0|
      && forall i :: 0 <= i < |a.f0| && a.f0[i].Some? ==> c[i] == a.f0[i].value
  {
    match a
    case LoadFailed => Zeros(FallbackLength)
    case TrackingFailed(_) => Zeros(FallbackLength)
    case Tracked(samples, f0) =>
      if |samples| == 0 then Zeros(FallbackLength) else CleanContour(f0)
  }

  /** `extrair_e_normalizar_pitch` of the bot: always a vector of the
      requested length, all zeros on fallback. */
  function ExtractFeature(a: Analysis, size: nat): (v: seq<real>)
    ensures |v| == size
    ensures FallsBack(a) ==> v == Zeros(size)
  {
    var c := ExtractContour(a);
    if FallsBack(a) then
      ResampleZeros(FallbackLength, size);
      Resample(c, size)
    else
      Resample(c, size)
  }

  /** Outside the fallback the feature vector starts at the first voiced F0
      and ends at the last one. */
  lemma FeatureEndpoints(a: Analysis, size: nat)
    requires !FallsBack(a)
    ensures size >= 1 ==> ExtractFeature(a, size)[0] == DefinedValues(a.f0)[0]
    ensures size >= 2 ==> ExtractFeature(a, size)[size - 1] == DefinedValues(a.f0)[|DefinedValues(a.f0)| - 1]
  {
    assert ExtractFeature(a, size) == Resample(CleanContour(a.f0), size);
    CleanResampleEndpoints(a.f0, size);
  }

  /** Every feature value lies within the range of the voiced F0 values. */
  lemma FeatureWithinVoicedRange(a: Analysis, size: nat, lo: real, hi: real)
    requires !FallsBack(a)
    requires forall k :: 0 <= k < |DefinedValues(a.f0)| ==> lo <= DefinedValues(a.f0)[k] <= hi
    ensures forall j :: 0 <= j < size ==> lo <= ExtractFeature(a, size)[j] <= hi
  {
    GapFillWithin(a.f0, lo, hi);
    ResampleWithin(ExtractContour(a), size, lo, hi);
  }

  /** On a non-empty clip whose pitch was tracked, the bot and the training
      script compute the same feature vector. */
  lemma AgreesWithTraining(a: Analysis, size: nat)
    requires a.Tracked? && |a.samples| > 0
    ensures FeatureExtraction.ExtractFeature(a, size) == Success(ExtractFeature(a, size))
  {
  }
}
