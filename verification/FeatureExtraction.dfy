/**
  The training-side extractor and the construction of the feature matrix
  and label vector. Unlike the bot's copy, this extractor has no guard for
  empty audio and catches nothing: a failed load or pitch tracking
  propagates to the caller and aborts the whole table.
 */
module FeatureExtraction {
  import opened Wrappers
  import opened PitchContour
  import opened DatasetMap
  import opened Sequences

  datatype ExtractError = LoadError | TrackingError

  /** `extrair_contorno_pitch` of the training script. */
  function ExtractContour(a: Analysis): (r: Result<seq<real>, ExtractError>)
    ensures a.LoadFailed? <==> r == Failure(LoadError)
    ensures a.TrackingFailed? <==> r == Failure(TrackingError)
    ensures r.Success? ==> |r.value| >= 2
    ensures a.Tracked? && |DefinedFrames(a.f0)| < 2 ==> r == Success(Zeros(FallbackLength))
    ensures a.Tracked? && |DefinedFrames(a.f0)| >= 2 ==>
      && r.Success? && |r.value| == |a.f0|
      && forall i :: 0 <= i < |a.f0| && a.f0[i].Some? ==> r.value[i] == a.f0[i].value
  {
    match a
    case LoadFailed => Failure(LoadError)
    case TrackingFailed(_) => Failure(TrackingError)
    case Tracked(_, f0) => Success(CleanContour(f0))
  }

  /** `extrair_e_normalizar_pitch` of the training script. */
  function ExtractFeature(a: Analysis, size: nat): (r: Result<seq<real>, ExtractError>)
    ensures r.Failure? <==> !a.Tracked?
    ensures r.Success? ==> |r.value| == size
    ensures a.Tracked? && |DefinedFrames(a.f0)| < 2 ==> r == Success(Zeros(size))
  {
    match ExtractContour(a)
    case Failure(e) => Failure(e)
    case Success(c) =>
      if |DefinedFrames(a.f0)| < 2 then
        ResampleZeros(FallbackLength, size);
        Success(Resample(c, size))
      else
        Success(Resample(c, size))
  }

  /** With at least two voiced frames the feature vector starts at the first
      voiced F0 and ends at the last one. */
  lemma FeatureEndpoints(a: Analysis, size: nat)
    requires a.Tracked? && |DefinedFrames(a.f0)| >= 2 && size >= 2
    ensures ExtractFeature(a, size).Success?
    ensures ExtractFeature(a, size).value[0] == DefinedValues(a.f0)[0]
    ensures ExtractFeature(a, size).value[size - 1] == DefinedValues(a.f0)[|DefinedValues(a.f0)| - 1]
  {
    assert ExtractFeature(a, size) == Success(Resample(CleanContour(a.f0), size));
    CleanResampleEndpoints(a.f0, size);
  }

  /** The feature matrix `X` and the label vector `y`. */
  datatype FeatureTable = FeatureTable(features: seq<seq<real>>, labels: seq<int>)

  /** Each row's feature vector, or why its clip failed, in row order. */
  function RowFeatures(rows: seq<MapRow>, analyze: string -> Analysis): (rs: seq<Result<seq<real>, ExtractError>>)
    ensures |rs| == |rows|
    ensures forall i :: 0 <= i < |rows| ==> rs[i] == ExtractFeature(analyze(rows[i].path), FeatureLength)
  {
    seq(|rows|, i requires 0 <= i < |rows| => ExtractFeature(analyze(rows[i].path), FeatureLength))
  }

  /** Extracts one feature vector per map row, in row order, and takes the
      labels from the `tom` column; the first failing row aborts the run. */
  function BuildTable(rows: seq<MapRow>, analyze: string -> Analysis): (r: Result<FeatureTable, ExtractError>)
    ensures r.Success? ==> |r.value.features| == |rows| && |r.value.labels| == |rows|
  {
    match Collect(RowFeatures(rows, analyze))
    case Failure(e) => Failure(e)
    case Success(features) => Success(FeatureTable(features, seq(|rows|, i requires 0 <= i < |rows| => rows[i].tom)))
  }

  /** A built table holds row i's 100-point feature vector in row i and row
      i's tone in label i. */
  lemma BuildTableRows(rows: seq<MapRow>, analyze: string -> Analysis)
    requires BuildTable(rows, analyze).Success?
    ensures forall i :: 0 <= i < |rows| ==>
      && |BuildTable(rows, analyze).value.features[i]| == FeatureLength
      && ExtractFeature(analyze(rows[i].path), FeatureLength) == Success(BuildTable(rows, analyze).value.features[i])
      && BuildTable(rows, analyze).value.labels[i] == rows[i].tom
  {
    var rs := RowFeatures(rows, analyze);
    CollectSuccess(rs);
  }

  /** The table is built exactly when every row's clip loads and its pitch
      is tracked; otherwise the error is that of the first row that fails. */
  lemma BuildTableFailure(rows: seq<MapRow>, analyze: string -> Analysis)
    ensures BuildTable(rows, analyze).Success? <==> forall i :: 0 <= i < |rows| ==> analyze(rows[i].path).Tracked?
    ensures BuildTable(rows, analyze).Failure? ==>
      exists i :: 0 <= i < |rows|
        && ExtractFeature(analyze(rows[i].path), FeatureLength) == Failure(BuildTable(rows, analyze).error)
        && forall j :: 0 <= j < i ==> analyze(rows[j].path).Tracked?
  {
    var rs := RowFeatures(rows, analyze);
    CollectSuccess(rs);
    if Collect(rs).Failure? {
      CollectFailure(rs);
    }
  }
}
