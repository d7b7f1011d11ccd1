/**
  The lighter augmentation script: for every map row it keeps the original
  row and, when the clip loads and is not empty, adds a noisy, a
  time-stretched and a pitch-shifted copy, in that order, written under the
  output folder and labelled like the original. A failure part-way keeps the
  rows appended so far and moves on to the next row.
 */
module AugmentScript {
  import opened Wrappers
  import opened PyStr
  import opened PyPath
  import opened DatasetMap
  import opened Sequences

  const OutputDir: string := "dataset_combinado_aumentado"

  /** Scale of the Gaussian noise added to each sample. */
  const NoiseFactor: real := 0.001

  /** numpy `clip(v, -1, 1)`. */
  function Clip(v: real): (r: real)
    ensures -1.0 <= r <= 1.0
    ensures -1.0 <= v <= 1.0 ==> r == v
    ensures v > 1.0 ==> r == 1.0
    ensures v < -1.0 ==> r == -1.0
  {
    if v < -1.0 then -1.0 else if v > 1.0 then 1.0 else v
  }

  /** `add_noise`: each sample plus `NoiseFactor` times its noise draw,
      clipped to [-1, 1]. The standard-normal draws are an input. */
  function AddNoise(y: seq<real>, noise: seq<real>): (r: seq<real>)
    requires |noise| == |y|
    ensures |r| == |y|
    ensures forall i :: 0 <= i < |r| ==> -1.0 <= r[i] <= 1.0
    ensures forall i :: 0 <= i < |r| && -1.0 <= y[i] + NoiseFactor * noise[i] <= 1.0 ==>
      r[i] == y[i] + NoiseFactor * noise[i]
    ensures forall i :: 0 <= i < |r| && y[i] + NoiseFactor * noise[i] > 1.0 ==> r[i] == 1.0
    ensures forall i :: 0 <= i < |r| && y[i] + NoiseFactor * noise[i] < -1.0 ==> r[i] == -1.0
  {
    seq(|y|, i requires 0 <= i < |y| => Clip(y[i] + NoiseFactor * noise[i]))
  }

  function Abs(x: real): real {
    if x < 0.0 then -x else x
  }

  /** Noise moves an in-range sample by at most `NoiseFactor` times its
      draw: clipping only ever pulls the sum back towards the range. */
  lemma AddNoiseStaysClose(y: seq<real>, noise: seq<real>)
    requires |noise| == |y|
    requires forall i :: 0 <= i < |y| ==> -1.0 <= y[i] <= 1.0
    ensures forall i :: 0 <= i < |y| ==> Abs(AddNoise(y, noise)[i] - y[i]) <= NoiseFactor * Abs(noise[i])
  {
  }

  /** With no noise an in-range signal is left unchanged. */
  lemma AddNoiseSilence(y: seq<real>, noise: seq<real>)
    requires |noise| == |y|
    requires forall i :: 0 <= i < |y| ==> -1.0 <= y[i] <= 1.0 && noise[i] == 0.0
    ensures AddNoise(y, noise) == y
  {
  }

  /** `time_stretch` ignores the rate it is given: the effective rate is
      `uniform(0.95, 1.05)`, i.e. 0.95 plus 0.1 times a draw `u` in [0, 1). */
  function StretchRate(requested: real, u: real): (rate: real)
    requires 0.0 <= u < 1.0
    ensures 0.95 <= rate < 1.05
  {
    0.95 + (1.05 - 0.95) * u
  }

  /** `nome_base`: the base name without its last dot-suffix, or the whole
      base name when it has no dot. */
  function BaseName(path: string): (b: string)
    ensures Sep !in b
  {
    var full := Basename(path);
    var b := RSplitHead(full, '.');
    assert forall c :: c in b ==> c in full;
    b
  }

  /** Without a dot the base name is kept whole; otherwise what is dropped
      is the last dot and what follows it. */
  lemma BaseNameShape(path: string)
    ensures '.' !in Basename(path) ==> BaseName(path) == Basename(path)
    ensures '.' in Basename(path) ==>
      var full := Basename(path);
      var b := BaseName(path);
      |b| < |full| && full[..|b|] == b && full[|b|] == '.' && '.' !in full[|b| + 1..]
  {
  }

  /** A file "<stem>.<ext>" anywhere has the base name `stem`. */
  lemma BaseNameOfFile(dir: string, stem: string, ext: string)
    requires Sep !in stem && Sep !in ext && '.' !in ext
    ensures BaseName(Join(dir, stem + "." + ext)) == stem
  {
    var name := stem + "." + ext;
    SplitAtLastDot(stem, ext);
    BasenameOfJoin(dir, name);
  }

  lemma SplitAtLastDot(stem: string, ext: string)
    requires Sep !in stem && Sep !in ext && '.' !in ext
    ensures Sep !in stem + "." + ext
    ensures RSplitHead(stem + "." + ext, '.') == stem
  {
    var name := stem + "." + ext;
    assert name[|stem|] == '.';
    forall j | |stem| < j < |name| ensures name[j] != '.' {
      assert name[j] == ext[j - |stem| - 1];
    }
    LastIndexOfIs(name, '.', |stem|);
    assert name[..|stem|] == stem;
  }

  datatype Augmentation = Noise | Stretch | PitchShift

  function Suffix(kind: Augmentation): string {
    match kind
    case Noise => "_noise.wav"
    case Stretch => "_stretch.wav"
    case PitchShift => "_pitch.wav"
  }

  /** The row for an augmented copy: `<nome_base><suffix>` under the output
      folder, with the original's pinyin and tone. */
  function DerivedRow(row: MapRow, kind: Augmentation): (d: MapRow)
    ensures d.pinyin == row.pinyin && d.tom == row.tom
  {
    MapRow(DerivedPath(row.path, kind), row.pinyin, row.tom)
  }

  function DerivedPath(path: string, kind: Augmentation): string {
    Join(OutputDir, BaseName(path) + Suffix(kind))
  }

  /** What a row contributes when nothing fails. */
  function FullExpansion(row: MapRow): (out: seq<MapRow>)
    ensures |out| == 4 && out[0] == row
    ensures forall k :: 0 <= k < 4 ==> out[k].pinyin == row.pinyin && out[k].tom == row.tom
  {
    [row, DerivedRow(row, Noise), DerivedRow(row, Stretch), DerivedRow(row, PitchShift)]
  }

  /** What happened to one row's clip: `loaded` is None when loading raised;
      `stepsDone` counts the augmentations (noise, stretch, pitch, each
      computed and written) that finished before one raised. */
  datatype RowRun = RowRun(loaded: Option<seq<real>>, stepsDone: nat)

  predicate Augmentable(run: RowRun) {
    run.loaded.Some? && |run.loaded.value| > 0
  }

  /** The rows one map row contributes, in append order. */
  function ExpandRow(row: MapRow, run: RowRun): (out: seq<MapRow>)
    ensures 1 <= |out| <= 4
    ensures out == FullExpansion(row)[..|out|]
    ensures !Augmentable(run) ==> out == [row]
    ensures Augmentable(run) && run.stepsDone >= 3 ==> out == FullExpansion(row)
    ensures Augmentable(run) ==> |out| == 1 + (if run.stepsDone < 3 then run.stepsDone else 3)
    ensures forall k :: 0 <= k < |out| ==> out[k].pinyin == row.pinyin && out[k].tom == row.tom
  {
    if !Augmentable(run) || run.stepsDone == 0 then [row]
    else if run.stepsDone == 1 then [row, DerivedRow(row, Noise)]
    else if run.stepsDone == 2 then [row, DerivedRow(row, Noise), DerivedRow(row, Stretch)]
    else [row, DerivedRow(row, Noise), DerivedRow(row, Stretch), DerivedRow(row, PitchShift)]
  }

  /** Augmented copies of a row are named after the row's base name and
      sit directly inside the output folder. */
  lemma DerivedNames(row: MapRow, kind: Augmentation)
    ensures Basename(DerivedRow(row, kind).path) == BaseName(row.path) + Suffix(kind)
    ensures StartsWith(DerivedRow(row, kind).path, OutputDir)
    ensures |DerivedRow(row, kind).path| == |OutputDir| + 1 + |BaseName(row.path) + Suffix(kind)|
  {
    assert Sep !in Suffix(kind);
    BasenameOfJoin(OutputDir, BaseName(row.path) + Suffix(kind));
  }

  /** Each row's contribution, in row order. */
  function Contributions(rows: seq<MapRow>, runs: seq<RowRun>): (pieces: seq<seq<MapRow>>)
    requires |runs| == |rows|
    ensures |pieces| == |rows|
  {
    seq(|rows|, i requires 0 <= i < |rows| => ExpandRow(rows[i], runs[i]))
  }

  /** The whole output map: the contributions concatenated. */
  function ExpandAll(rows: seq<MapRow>, runs: seq<RowRun>): seq<MapRow>
    requires |runs| == |rows|
  {
    Flatten(Contributions(rows, runs))
  }

  /** The script's main loop: for every row, append what it contributes.
      The output holds at least the original rows and at most four rows
      per input. */
  method AugmentDataset(rows: seq<MapRow>, runs: seq<RowRun>) returns (out: seq<MapRow>)
    requires |runs| == |rows|
    ensures out == ExpandAll(rows, runs)
    ensures |rows| <= |out| <= 4 * |rows|
  {
    ghost var pieces := Contributions(rows, runs);
    out := [];
    var i := 0;
    while i < |rows|
      invariant 0 <= i <= |rows|
      invariant out == Flatten(pieces[..i])
    {
      var added := ExpandRow(rows[i], runs[i]);
      assert added == pieces[i];
      TakeSnoc(pieces, i);
      FlattenSnoc(pieces[..i], added);
      out := out + added;
      i := i + 1;
    }
    assert pieces[..i] == pieces;
    FlattenLength(pieces, 1, 4);
  }

  /** When every clip loads, is non-empty and all three augmentations
      succeed, row i's original and copies occupy positions 4i to 4i+3. */
  lemma ExpandAllComplete(rows: seq<MapRow>, runs: seq<RowRun>)
    requires |runs| == |rows|
    requires forall i :: 0 <= i < |runs| ==> Augmentable(runs[i]) && runs[i].stepsDone >= 3
    ensures |ExpandAll(rows, runs)| == 4 * |rows|
    ensures forall i, j :: 0 <= i < |rows| && 0 <= j < 4 ==> ExpandAll(rows, runs)[4 * i + j] == FullExpansion(rows[i])[j]
  {
    var pieces := Contributions(rows, runs);
    forall i | 0 <= i < |pieces| ensures pieces[i] == FullExpansion(rows[i]) {
      assert pieces[i] == ExpandRow(rows[i], runs[i]);
    }
    FlattenLength(pieces, 4, 4);
    forall i, j | 0 <= i < |rows| && 0 <= j < 4
      ensures ExpandAll(rows, runs)[4 * i + j] == FullExpansion(rows[i])[j]
    {
      FlattenAt(pieces, 4, i, j, 4 * i + j);
    }
  }
}
