/**
  The first augmentation script: every map row is kept and followed by a
  slowed-down and a raised-pitch copy written under the output folder. It
  has no error handling, so one clip that fails to load or write stops the
  run before the new map is saved.
 */
module AugmentBasic {
  import opened Wrappers
  import opened PyStr
  import opened PyPath
  import opened DatasetMap
  import opened Sequences

  const OutputDir: string := "dataset_aumentado"

  /** `f"{nome_base.replace('.wav', '')}{suffix}"`: every ".wav" in the base
      name is removed, not only the extension. */
  function CopyName(path: string, suffix: string): string {
    RemoveAll(Basename(path), ".wav") + suffix
  }

  function CopyRow(row: MapRow, suffix: string): MapRow {
    MapRow(Join(OutputDir, CopyName(row.path, suffix)), row.pinyin, row.tom)
  }

  /** A copy is written directly inside the output folder, under its copy
      name. */
  lemma CopyRowPlace(row: MapRow, suffix: string)
    requires Sep !in suffix
    ensures StartsWith(CopyRow(row, suffix).path, OutputDir)
    ensures Basename(CopyRow(row, suffix).path) == CopyName(row.path, suffix)
    ensures |CopyRow(row, suffix).path| == |OutputDir| + 1 + |CopyName(row.path, suffix)|
  {
    var base := Basename(row.path);
    RemoveAllKeepsOut(base, ".wav", Sep);
    var name := CopyName(row.path, suffix);
    assert Sep !in name by {
      assert forall i :: 0 <= i < |name| ==> name[i] in RemoveAll(base, ".wav") || name[i] in suffix;
    }
    BasenameOfJoin(OutputDir, name);
  }

  /** What one row contributes: itself, the slowed copy, the raised copy. */
  function Triple(row: MapRow): (out: seq<MapRow>)
    ensures |out| == 3 && out[0] == row
    ensures forall k :: 0 <= k < 3 ==> out[k].pinyin == row.pinyin && out[k].tom == row.tom
  {
    [row, CopyRow(row, "_lento.wav"), CopyRow(row, "_agudo.wav")]
  }

  function Triples(rows: seq<MapRow>): (pieces: seq<seq<MapRow>>)
    ensures |pieces| == |rows|
  {
    seq(|rows|, i requires 0 <= i < |rows| => Triple(rows[i]))
  }

  /** The index of the first row whose processing raised, if any. */
  function FirstFailure(ok: seq<bool>): (k: Option<nat>)
    ensures k.None? <==> forall i :: 0 <= i < |ok| ==> ok[i]
    ensures k.Some? ==> k.value < |ok| && !ok[k.value] && forall i :: 0 <= i < k.value ==> ok[i]
  {
    if |ok| == 0 then None
    else if !ok[0] then Some(0)
    else match FirstFailure(ok[1..])
      case None => None
      case Some(k) => Some(k + 1)
  }

  /** The run over all rows: `ok[i]` says whether loading, stretching,
      shifting and writing row i all succeed. The new map exists only when
      every row succeeded; otherwise the error names the row that stopped
      the run. */
  function Augment(rows: seq<MapRow>, ok: seq<bool>): (r: Result<seq<MapRow>, nat>)
    requires |ok| == |rows|
    ensures r.Success? <==> forall i :: 0 <= i < |ok| ==> ok[i]
    ensures r.Failure? ==> r.error < |rows| && !ok[r.error] && forall i :: 0 <= i < r.error ==> ok[i]
  {
    match FirstFailure(ok)
    case Some(k) => Failure(k)
    case None => Success(Flatten(Triples(rows)))
  }

  /** A successful run has three rows per input: row i at position 3i,
      followed by its slowed and raised copies, all with row i's labels. */
  lemma AugmentLayout(rows: seq<MapRow>, ok: seq<bool>)
    requires |ok| == |rows|
    requires Augment(rows, ok).Success?
    ensures var out := Augment(rows, ok).value;
      |out| == 3 * |rows| &&
      forall i :: 0 <= i < |rows| ==>
        out[3 * i] == rows[i] &&
        out[3 * i + 1] == CopyRow(rows[i], "_lento.wav") &&
        out[3 * i + 2] == CopyRow(rows[i], "_agudo.wav")
  {
    var pieces := Triples(rows);
    FlattenLength(pieces, 3, 3);
    var out := Flatten(pieces);
    forall i | 0 <= i < |rows|
      ensures out[3 * i] == rows[i]
      ensures out[3 * i + 1] == CopyRow(rows[i], "_lento.wav")
      ensures out[3 * i + 2] == CopyRow(rows[i], "_agudo.wav")
    {
      assert pieces[i] == Triple(rows[i]);
      FlattenAt(pieces, 3, i, 0, 3 * i);
      FlattenAt(pieces, 3, i, 1, 3 * i + 1);
      FlattenAt(pieces, 3, i, 2, 3 * i + 2);
    }
  }

  /** For an ordinary "<stem>.wav" clip the copies are named
      "<stem>_lento.wav" and "<stem>_agudo.wav". */
  lemma CopyNameOfWav(dir: string, stem: string, suffix: string)
    requires Sep !in stem && !Occurs(stem, ".wav")
    ensures CopyName(Join(dir, stem + ".wav"), suffix) == stem + suffix
  {
    assert Sep !in stem + ".wav";
    BasenameOfJoin(dir, stem + ".wav");
    RemoveWavSuffix(stem);
  }

  /** A ".wav" inside the name is removed too, not only the extension: a clip
      named "<s1>.wav<s2>.wav...<sn>.wav" gets copies named "<s1><s2>...<sn>"
      followed by the suffix ("a.wav.wav" gives "a_lento.wav"). */
  lemma CopyNameDropsInnerWav(dir: string, stems: seq<string>, suffix: string)
    requires forall k :: 0 <= k < |stems| ==> Sep !in stems[k] && !Occurs(stems[k], ".wav")
    ensures CopyName(Join(dir, Concat(WavPieces(stems))), suffix) == Concat(stems) + suffix
  {
    var name := Concat(WavPieces(stems));
    WavPiecesNoSeparator(stems);
    BasenameOfJoin(dir, name);
    RemoveWavPieces(stems);
  }

  lemma {:induction false} WavPiecesNoSeparator(stems: seq<string>)
    requires forall k :: 0 <= k < |stems| ==> Sep !in stems[k]
    ensures Sep !in Concat(WavPieces(stems))
    decreases |stems|
  {
    if |stems| > 0 {
      var ps := WavPieces(stems);
      assert ps[1..] == WavPieces(stems[1..]);
      WavPiecesNoSeparator(stems[1..]);
      assert Concat(ps) == stems[0] + ".wav" + Concat(ps[1..]);
    }
  }
}
