/**
  The dataset map builder: every `.mp3` file of the dataset folder becomes a
  row (path, pinyin, tone) whose pinyin is the name without its extension and
  whose tone is the character just before `.mp3`, whatever the rest of the
  name looks like: for `zhong4_FV1_MP3.mp3` that is the `3` of `MP3`.
 */
module DatasetMap {
  import opened Wrappers
  import opened PyStr
  import opened PyPath
  import opened Sequences

  /** The folder the script scans. */
  const DatasetDir: string := "C:/ID_tones/DATASET_V3"

  /** One row of a dataset map CSV: `caminho_arquivo`, `pinyin`, `tom`. */
  datatype MapRow = MapRow(path: string, pinyin: string, tom: int)

  /** Why a row could not be built; either aborts the whole run. */
  datatype MapError =
    | ToneIndexError(name: string)   // the name is exactly ".mp3": `name[-5]` is out of range
    | ToneValueError(name: string)   // `int(...)` of the character before ".mp3" failed

  predicate IsMp3(name: string) {
    EndsWith(name, ".mp3")
  }

  /** The row for one `.mp3` file name found in `dir`. */
  function MakeRow(dir: string, name: string): (r: Result<MapRow, MapError>)
    requires IsMp3(name)
  {
    var pinyin := name[..|name| - 4];
    if |name| < 5 then Failure(ToneIndexError(name))
    else
      match PyInt([name[|name| - 5]])
      case None => Failure(ToneValueError(name))
      case Some(t) => Success(MapRow(Join(dir, name), pinyin, t))
  }

  /** A row exists exactly when a digit precedes ".mp3"; its pinyin is the
      name without ".mp3", ending in that digit, and its tone is the digit's
      value. */
  lemma MakeRowFields(dir: string, name: string)
    requires IsMp3(name)
    ensures MakeRow(dir, name).Failure? <==> |name| == 4 || !IsDigit(name[|name| - 5])
    ensures MakeRow(dir, name).Failure? ==> (|name| == 4 <==> MakeRow(dir, name).error == ToneIndexError(name))
    ensures MakeRow(dir, name).Success? ==>
      var row := MakeRow(dir, name).value;
      && row.pinyin + ".mp3" == name
      && row.path == Join(dir, name)
      && |row.pinyin| >= 1
      && IsDigit(row.pinyin[|row.pinyin| - 1])
      && row.tom == DigitValue(row.pinyin[|row.pinyin| - 1]) as int
  {
    var pinyin := name[..|name| - 4];
    assert pinyin + ".mp3" == name;
    if |name| >= 5 {
      PyIntOfChar(name[|name| - 5]);
    }
  }

  /** The name used as an example beside the tone extraction reads tone 3,
      the character before `.mp3`, not the 4 after its pinyin. */
  lemma ExampleNameTone()
    ensures MakeRow(DatasetDir, "zhong4_FV1_MP3.mp3")
         == Success(MapRow(Join(DatasetDir, "zhong4_FV1_MP3.mp3"), "zhong4_FV1_MP3", 3))
  {
    var name := "zhong4_FV1_MP3.mp3";
    assert name[|name| - 5] == '3';
    PyIntOfChar('3');
    assert name[..|name| - 4] == "zhong4_FV1_MP3";
  }

  /** The `.mp3` names among a directory listing, in listing order. */
  function Mp3Names(names: seq<string>): (r: seq<string>)
    ensures |r| <= |names|
    ensures forall k :: 0 <= k < |r| ==> IsMp3(r[k])
  {
    if |names| == 0 then [] else (if IsMp3(names[0]) then [names[0]] else []) + Mp3Names(names[1..])
  }

  /** The kept names come from the listing, and every `.mp3` name of the
      listing is kept. */
  lemma {:induction false} Mp3NamesMembers(names: seq<string>)
    ensures forall k :: 0 <= k < |Mp3Names(names)| ==> Mp3Names(names)[k] in names
    ensures forall j :: 0 <= j < |names| && IsMp3(names[j]) ==> names[j] in Mp3Names(names)
    decreases |names|
  {
    if |names| > 0 {
      var rest := names[1..];
      Mp3NamesMembers(rest);
      assert forall j :: 1 <= j < |names| ==> names[j] == rest[j - 1];
    }
  }

  /** Filtering distributes over concatenation of listings, so it keeps the
      listing order and every repetition. */
  lemma {:induction false} Mp3NamesAppend(a: seq<string>, b: seq<string>)
    ensures Mp3Names(a + b) == Mp3Names(a) + Mp3Names(b)
    decreases |a|
  {
    if |a| == 0 {
      assert a + b == b;
    } else {
      var head := if IsMp3(a[0]) then [a[0]] else [];
      assert Mp3Names(a + b) == head + Mp3Names(a[1..] + b) by {
        assert (a + b)[0] == a[0] && (a + b)[1..] == a[1..] + b;
      }
      Mp3NamesAppend(a[1..], b);
      assert head + (Mp3Names(a[1..]) + Mp3Names(b)) == (head + Mp3Names(a[1..])) + Mp3Names(b);
    }
  }

  /** A single name is kept exactly when it ends in ".mp3". */
  lemma Mp3NamesSingle(name: string)
    ensures Mp3Names([name]) == if IsMp3(name) then [name] else []
  {
    assert [name][1..] == [];
  }

  /** The row results of the `.mp3` names, in listing order. */
  function Mp3Rows(dir: string, names: seq<string>): (rs: seq<Result<MapRow, MapError>>)
    ensures |rs| == |Mp3Names(names)|
    decreases |names|
  {
    if |names| == 0 then []
    else (if IsMp3(names[0]) then [MakeRow(dir, names[0])] else []) + Mp3Rows(dir, names[1..])
  }

  /** Result k is the row of the k-th `.mp3` name. */
  lemma {:induction false} Mp3RowsAt(dir: string, names: seq<string>)
    ensures forall k :: 0 <= k < |Mp3Rows(dir, names)| ==> Mp3Rows(dir, names)[k] == MakeRow(dir, Mp3Names(names)[k])
    decreases |names|
  {
    if |names| > 0 {
      var rest := Mp3Rows(dir, names[1..]);
      var m1 := Mp3Names(names[1..]);
      Mp3RowsAt(dir, names[1..]);
      if IsMp3(names[0]) {
        var rs := Mp3Rows(dir, names);
        var m := Mp3Names(names);
        forall k | 0 <= k < |rs| ensures rs[k] == MakeRow(dir, m[k]) {
          ConsAt(MakeRow(dir, names[0]), rest, k);
          ConsAt(names[0], m1, k);
        }
      }
    }
  }

  /** Scans a directory listing: one row per `.mp3` name, in listing order;
      the first name whose tone cannot be read aborts the run. */
  function BuildMap(dir: string, names: seq<string>): (r: Result<seq<MapRow>, MapError>)
    ensures r.Success? ==> |r.value| == |Mp3Names(names)|
  {
    Collect(Mp3Rows(dir, names))
  }

  /** The map holds, in order, the row of every `.mp3` name. */
  lemma BuildMapRows(dir: string, names: seq<string>)
    requires BuildMap(dir, names).Success?
    ensures forall k :: 0 <= k < |Mp3Names(names)| ==> MakeRow(dir, Mp3Names(names)[k]) == Success(BuildMap(dir, names).value[k])
  {
    CollectSuccess(Mp3Rows(dir, names));
    Mp3RowsAt(dir, names);
  }

  /** The map is built exactly when every `.mp3` name yields a row. */
  lemma BuildMapSucceeds(dir: string, names: seq<string>)
    ensures BuildMap(dir, names).Success? <==> forall j :: 0 <= j < |names| && IsMp3(names[j]) ==> MakeRow(dir, names[j]).Success?
  {
    var mp3 := Mp3Names(names);
    var rs := Mp3Rows(dir, names);
    CollectSuccess(rs);
    Mp3RowsAt(dir, names);
    Mp3NamesMembers(names);
    if Collect(rs).Success? {
      forall j | 0 <= j < |names| && IsMp3(names[j]) ensures MakeRow(dir, names[j]).Success? {
        var k :| 0 <= k < |mp3| && mp3[k] == names[j];
        assert rs[k].Success?;
      }
    } else {
      var k :| 0 <= k < |rs| && rs[k].Failure?;
      var j :| 0 <= j < |names| && names[j] == mp3[k];
      assert IsMp3(names[j]) && MakeRow(dir, names[j]).Failure?;
    }
  }

  /** Building the map from the front of the listing: a name that is not an
      `.mp3` is skipped, and an `.mp3` name either aborts the run with its
      error or puts its row before the rows of the rest. */
  lemma BuildMapCons(dir: string, names: seq<string>)
    requires |names| > 0
    ensures !IsMp3(names[0]) ==> BuildMap(dir, names) == BuildMap(dir, names[1..])
    ensures IsMp3(names[0]) && MakeRow(dir, names[0]).Failure? ==>
      BuildMap(dir, names) == Failure(MakeRow(dir, names[0]).error)
    ensures IsMp3(names[0]) && MakeRow(dir, names[0]).Success? && BuildMap(dir, names[1..]).Failure? ==>
      BuildMap(dir, names) == Failure(BuildMap(dir, names[1..]).error)
    ensures IsMp3(names[0]) && MakeRow(dir, names[0]).Success? && BuildMap(dir, names[1..]).Success? ==>
      BuildMap(dir, names) == Success([MakeRow(dir, names[0]).value] + BuildMap(dir, names[1..]).value)
  {
    if IsMp3(names[0]) {
      CollectCons(MakeRow(dir, names[0]), Mp3Rows(dir, names[1..]));
    } else {
      assert Mp3Rows(dir, names) == Mp3Rows(dir, names[1..]);
    }
  }

  /** A failed run reports the error of the first `.mp3` name in listing
      order whose row cannot be built. */
  lemma {:induction false} BuildMapFailure(dir: string, names: seq<string>)
    ensures BuildMap(dir, names).Failure? ==>
      exists j :: 0 <= j < |names| && IsMp3(names[j]) && MakeRow(dir, names[j]) == Failure(BuildMap(dir, names).error)
        && forall i :: 0 <= i < j && IsMp3(names[i]) ==> MakeRow(dir, names[i]).Success?
    decreases |names|
  {
    if |names| == 0 {
      assert Mp3Rows(dir, names) == [];
    } else if BuildMap(dir, names).Failure? {
      BuildMapCons(dir, names);
      if IsMp3(names[0]) && MakeRow(dir, names[0]).Failure? {
        assert MakeRow(dir, names[0]) == Failure(BuildMap(dir, names).error);
      } else {
        var rest := names[1..];
        BuildMapFailure(dir, rest);
        var j :| 0 <= j < |rest| && IsMp3(rest[j]) && MakeRow(dir, rest[j]) == Failure(BuildMap(dir, rest).error)
          && forall i :: 0 <= i < j && IsMp3(rest[i]) ==> MakeRow(dir, rest[i]).Success?;
        ShiftFirstFailure(dir, names, j);
        assert names[j + 1] == rest[j];
      }
    }
  }

  /** A name that is the first failing one after the head of the listing is
      the first failing one of the whole listing when the head does not fail. */
  lemma ShiftFirstFailure(dir: string, names: seq<string>, j: nat)
    requires |names| > 0 && j < |names| - 1
    requires IsMp3(names[0]) ==> MakeRow(dir, names[0]).Success?
    requires forall i :: 0 <= i < j && IsMp3(names[1..][i]) ==> MakeRow(dir, names[1..][i]).Success?
    ensures forall i :: 0 <= i < j + 1 && IsMp3(names[i]) ==> MakeRow(dir, names[i]).Success?
  {
    forall i | 1 <= i < j + 1 && IsMp3(names[i]) ensures MakeRow(dir, names[i]).Success? {
      assert names[i] == names[1..][i - 1];
    }
  }
}
