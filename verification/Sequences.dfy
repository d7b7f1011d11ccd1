/**
  Concatenating a sequence of pieces, the shape of every "for each input,
  append the rows it produces" loop in the scripts.
 */
module Sequences {
  import opened Wrappers

  /** All the values when every step succeeded, otherwise the first error:
      the shape of a loop that stops at its first exception. */
  function Collect<T, E>(rs: seq<Result<T, E>>): (r: Result<seq<T>, E>)
    ensures r.Success? ==> |r.value| == |rs|
    decreases |rs|
  {
    if |rs| == 0 then Success([])
    else if rs[0].Failure? then Failure(rs[0].error)
    else
      match Collect(rs[1..])
      case Failure(e) => Failure(e)
      case Success(vs) => Success([rs[0].value] + vs)
  }

  /** Collecting succeeds exactly when every step does, and then holds each
      step's value at the step's position. */
  lemma {:induction false} CollectSuccess<T, E>(rs: seq<Result<T, E>>)
    ensures Collect(rs).Success? <==> forall k :: 0 <= k < |rs| ==> rs[k].Success?
    ensures Collect(rs).Success? ==> forall k :: 0 <= k < |rs| ==> rs[k] == Success(Collect(rs).value[k])
    decreases |rs|
  {
    if |rs| > 0 {
      CollectSuccess(rs[1..]);
      assert forall k :: 1 <= k < |rs| ==> rs[1..][k - 1] == rs[k];
    }
  }

  /** A failed collection reports the error of the first failing step. */
  lemma {:induction false} CollectFailure<T, E>(rs: seq<Result<T, E>>)
    requires Collect(rs).Failure?
    ensures exists k :: 0 <= k < |rs| && rs[k] == Failure(Collect(rs).error) && (forall j :: 0 <= j < k ==> rs[j].Success?)
    decreases |rs|
  {
    if rs[0].Success? {
      CollectFailure(rs[1..]);
      var k :| 0 <= k < |rs[1..]| && rs[1..][k] == Failure(Collect(rs).error)
        && forall j :: 0 <= j < k ==> rs[1..][j].Success?;
      assert rs[k + 1] == Failure(Collect(rs).error);
      assert forall j :: 1 <= j < k + 1 ==> rs[j] == rs[1..][j - 1];
    }
  }

  /** Collecting one more step in front: its error, or its value before the
      values of the rest. */
  lemma CollectCons<T, E>(r: Result<T, E>, rs: seq<Result<T, E>>)
    ensures r.Failure? ==> Collect([r] + rs) == Failure(r.error)
    ensures r.Success? && Collect(rs).Failure? ==> Collect([r] + rs) == Failure(Collect(rs).error)
    ensures r.Success? && Collect(rs).Success? ==> Collect([r] + rs) == Success([r.value] + Collect(rs).value)
  {
    assert ([r] + rs)[0] == r && ([r] + rs)[1..] == rs;
  }

  /** Steps that all succeed with the given values collect to those values. */
  lemma {:induction false} CollectValues<T, E>(rs: seq<Result<T, E>>, vs: seq<T>)
    requires |vs| == |rs| && forall k :: 0 <= k < |rs| ==> rs[k] == Success(vs[k])
    ensures Collect(rs) == Success(vs)
    decreases |rs|
  {
    if |rs| > 0 {
      CollectValues(rs[1..], vs[1..]);
      assert [vs[0]] + vs[1..] == vs;
    }
  }

  /** The pieces concatenated in order. */
  function Flatten<T>(pieces: seq<seq<T>>): seq<T>
    decreases |pieces|
  {
    if |pieces| == 0 then [] else Flatten(pieces[..|pieces| - 1]) + pieces[|pieces| - 1]
  }

  /** Appending one more piece appends its elements. */
  lemma FlattenSnoc<T>(pieces: seq<seq<T>>, piece: seq<T>)
    ensures Flatten(pieces + [piece]) == Flatten(pieces) + piece
  {
    assert (pieces + [piece])[..|pieces|] == pieces;
  }

  /** Element k of a sequence with one element put in front. */
  lemma ConsAt<T>(x: T, xs: seq<T>, k: nat)
    requires k <= |xs|
    ensures ([x] + xs)[k] == if k == 0 then x else xs[k - 1]
  {
  }

  lemma TakeSnoc<T>(s: seq<T>, i: nat)
    requires i < |s|
    ensures s[..i + 1] == s[..i] + [s[i]]
  {
  }

  /** Pieces of between `lo` and `hi` elements give between `lo` and `hi`
      elements per piece in total. */
  lemma {:induction false} FlattenLength<T>(pieces: seq<seq<T>>, lo: nat, hi: nat)
    requires forall i :: 0 <= i < |pieces| ==> lo <= |pieces[i]| <= hi
    ensures lo * |pieces| <= |Flatten(pieces)| <= hi * |pieces|
    decreases |pieces|
  {
    if |pieces| > 0 {
      var n := |pieces| - 1;
      FlattenLength(pieces[..n], lo, hi);
      MulSucc(lo, n);
      MulSucc(hi, n);
    }
  }

  lemma MulSucc(a: nat, n: nat)
    ensures a * (n + 1) == a * n + a
  {
  }

  /** When every piece has exactly `w` elements, element j of piece i sits
      at position w * i + j. */
  lemma {:induction false} FlattenAt<T>(pieces: seq<seq<T>>, w: nat, i: nat, j: nat, pos: nat)
    requires forall k :: 0 <= k < |pieces| ==> |pieces[k]| == w
    requires i < |pieces| && j < w && pos == w * i + j
    ensures pos < |Flatten(pieces)| && Flatten(pieces)[pos] == pieces[i][j]
    decreases |pieces|
  {
    var n := |pieces| - 1;
    var init := pieces[..n];
    FlattenLength(init, w, w);
    assert Flatten(pieces) == Flatten(init) + pieces[n];
    if i < n {
      FlattenAt(init, w, i, j, pos);
    } else {
      assert pos == |Flatten(init)| + j;
    }
  }
}
