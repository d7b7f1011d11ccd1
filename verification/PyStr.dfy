/**
  The Python string built-ins the scripts and the bot rely on, over Dafny
  strings: `str.strip()`, `str.split(sep)` and `sep.join`, `int(text)`,
  `str(n)`, `str.endswith`, `str.replace(pat, '')` and `str.rsplit(c, 1)[0]`.
 */
module PyStr {
  import opened Wrappers

  /** Characters for which Python's `str.isspace` holds. */
  predicate IsSpace(c: char) {
    var n := c as int;
    (9 <= n <= 13) || (28 <= n <= 32) || n == 0x85 || n == 0xA0 || n == 0x1680
    || (0x2000 <= n <= 0x200A) || n == 0x2028 || n == 0x2029 || n == 0x202F
    || n == 0x205F || n == 0x3000
  }

  predicate AllSpace(s: string) {
    forall i :: 0 <= i < |s| ==> IsSpace(s[i])
  }

  function LeadingSpaces(s: string): (k: nat)
    ensures k <= |s|
    ensures forall i :: 0 <= i < k ==> IsSpace(s[i])
    ensures k < |s| ==> !IsSpace(s[k])
  {
    if |s| == 0 || !IsSpace(s[0]) then 0 else 1 + LeadingSpaces(s[1..])
  }

  function TrailingSpaces(s: string): (k: nat)
    ensures k <= |s|
    ensures forall i :: |s| - k <= i < |s| ==> IsSpace(s[i])
    ensures k < |s| ==> !IsSpace(s[|s| - 1 - k])
  {
    if |s| == 0 || !IsSpace(s[|s| - 1]) then 0 else 1 + TrailingSpaces(s[..|s| - 1])
  }

  /** `s.strip()`: `s` without its leading and trailing whitespace. */
  function Strip(s: string): (r: string)
    ensures |r| <= |s|
    ensures |r| > 0 ==> !IsSpace(r[0]) && !IsSpace(r[|r| - 1])
    ensures r == [] <==> AllSpace(s)
  {
    var lead := LeadingSpaces(s);
    if lead == |s| then []
    else
      var trail := TrailingSpaces(s);
      assert !IsSpace(s[lead]);
      assert trail < |s| - lead;
      s[lead .. |s| - trail]
  }

  /** Stripping only removes whitespace, and only at the two ends: the result
      is a slice of the text with whitespace before and after it. */
  lemma StripTrims(s: string)
    ensures exists i, j :: 0 <= i <= j <= |s| && Strip(s) == s[i..j] && AllSpace(s[..i]) && AllSpace(s[j..])
  {
    var lead := LeadingSpaces(s);
    if lead == |s| {
      assert AllSpace(s[..|s|]) && AllSpace(s[|s|..]) && Strip(s) == s[|s|..|s|];
    } else {
      var j := |s| - TrailingSpaces(s);
      assert AllSpace(s[..lead]) && AllSpace(s[j..]) && Strip(s) == s[lead..j];
    }
  }

  /** Stripping removes exactly the whitespace around the text: text that
      neither starts nor ends with whitespace is recovered from any
      whitespace padding. */
  lemma StripPadded(pre: string, t: string, post: string)
    requires AllSpace(pre) && AllSpace(post)
    requires |t| > 0 ==> !IsSpace(t[0]) && !IsSpace(t[|t| - 1])
    ensures Strip(pre + t + post) == t
  {
    if |t| == 0 {
      assert pre + t + post == pre + post;
      StripBlankPadding(pre, post);
    } else {
      StripTextPadding(pre, t, post);
    }
  }

  lemma StripBlankPadding(pre: string, post: string)
    requires AllSpace(pre) && AllSpace(post)
    ensures Strip(pre + post) == []
  {
    var s := pre + post;
    assert AllSpace(s) by {
      forall k | 0 <= k < |s| ensures IsSpace(s[k]) {
        if k < |pre| { assert s[k] == pre[k]; } else { assert s[k] == post[k - |pre|]; }
      }
    }
  }

  lemma StripTextPadding(pre: string, t: string, post: string)
    requires AllSpace(pre) && AllSpace(post)
    requires |t| > 0 && !IsSpace(t[0]) && !IsSpace(t[|t| - 1])
    ensures Strip(pre + t + post) == t
  {
    var s := pre + t + post;
    PaddingFacts(pre, t, post);
    StripTrims(s);
    TrimUnique(s, Strip(s), |pre|, |pre| + |t|);
  }

  lemma PaddingFacts(pre: string, t: string, post: string)
    requires AllSpace(pre) && AllSpace(post) && |t| > 0
    ensures var s := pre + t + post; var e := |pre| + |t|;
      && s[|pre|] == t[0] && s[e - 1] == t[|t| - 1] && s[|pre|..e] == t
      && (forall k :: 0 <= k < |pre| ==> IsSpace(s[k]))
      && (forall k :: e <= k < |s| ==> IsSpace(s[k]))
  {
    var s := pre + t + post;
    var e := |pre| + |t|;
    assert forall k :: 0 <= k < |pre| ==> s[k] == pre[k];
    assert forall k :: e <= k < |s| ==> s[k] == post[k - e];
  }

  /** A slice with whitespace before and after it and non-space ends is the
      slice between the first and last non-space characters. */
  lemma TrimUnique(s: string, r: string, lo: nat, hi: nat)
    requires lo < hi <= |s|
    requires exists i, j :: 0 <= i <= j <= |s| && r == s[i..j] && AllSpace(s[..i]) && AllSpace(s[j..])
    requires |r| > 0 && !IsSpace(r[0]) && !IsSpace(r[|r| - 1])
    requires forall k :: 0 <= k < lo ==> IsSpace(s[k])
    requires forall k :: hi <= k < |s| ==> IsSpace(s[k])
    requires !IsSpace(s[lo]) && !IsSpace(s[hi - 1])
    ensures r == s[lo..hi]
  {
    var i, j :| 0 <= i <= j <= |s| && r == s[i..j] && AllSpace(s[..i]) && AllSpace(s[j..]);
    assert r[0] == s[i] && r[|r| - 1] == s[j - 1];
    TrimBounds(s, i, j, lo, hi);
  }

  /** The non-space ends of a text pin down where its whitespace padding stops. */
  lemma TrimBounds(s: string, i: nat, j: nat, lo: nat, hi: nat)
    requires i < j <= |s| && lo < hi <= |s|
    requires AllSpace(s[..i]) && AllSpace(s[j..]) && !IsSpace(s[i]) && !IsSpace(s[j - 1])
    requires forall k :: 0 <= k < lo ==> IsSpace(s[k])
    requires forall k :: hi <= k < |s| ==> IsSpace(s[k])
    requires !IsSpace(s[lo]) && !IsSpace(s[hi - 1])
    ensures i == lo && j == hi
  {
    SpacesBefore(s, i, lo);
    SpacesAfter(s, j, hi - 1);
  }

  /** Text with no whitespace at either end is left alone. */
  lemma StripKeepsTrimmed(s: string)
    requires |s| > 0 ==> !IsSpace(s[0]) && !IsSpace(s[|s| - 1])
    ensures Strip(s) == s
  {
  }

  /** A run of whitespace from the start ends before any non-space character. */
  lemma SpacesBefore(s: string, i: nat, m: nat)
    requires i <= |s| && AllSpace(s[..i]) && m < |s| && !IsSpace(s[m])
    ensures i <= m
  {
    PrefixSpaces(s, i);
  }

  lemma PrefixSpaces(s: string, i: nat)
    requires i <= |s| && AllSpace(s[..i])
    ensures forall k :: 0 <= k < i ==> IsSpace(s[k])
  {
    assert forall k :: 0 <= k < i ==> s[..i][k] == s[k];
  }

  lemma SuffixSpaces(s: string, j: nat)
    requires j <= |s| && AllSpace(s[j..])
    ensures forall k :: j <= k < |s| ==> IsSpace(s[k])
  {
    assert forall k :: j <= k < |s| ==> s[j..][k - j] == s[k];
  }

  /** A run of whitespace up to the end starts after any non-space character. */
  lemma SpacesAfter(s: string, j: nat, m: nat)
    requires j <= |s| && AllSpace(s[j..]) && m < |s| && !IsSpace(s[m])
    ensures m < j
  {
    SuffixSpaces(s, j);
  }

  /** Stripping twice is stripping once. */
  lemma StripIdempotent(s: string)
    ensures Strip(Strip(s)) == Strip(s)
  {
    StripKeepsTrimmed(Strip(s));
  }

  /** Number of occurrences of `c` in `s`. */
  function Count(s: string, c: char): nat {
    if |s| == 0 then 0 else (if s[0] == c then 1 else 0) + Count(s[1..], c)
  }

  /** `s.split(sep)` for a one-character separator: the maximal
      separator-free pieces, empty pieces included. */
  function Split(s: string, sep: char): (parts: seq<string>)
    ensures |parts| >= 1
    ensures forall k :: 0 <= k < |parts| ==> sep !in parts[k]
    decreases |s|
  {
    if |s| == 0 then [""]
    else
      var rest := Split(s[1..], sep);
      if s[0] == sep then [""] + rest
      else [[s[0]] + rest[0]] + rest[1..]
  }

  /** `sep.join(parts)` for a non-empty list of pieces. */
  function JoinOn(parts: seq<string>, sep: char): string
    requires |parts| >= 1
  {
    if |parts| == 1 then parts[0] else parts[0] + [sep] + JoinOn(parts[1..], sep)
  }

  /** There is one more piece than there are separators. */
  lemma {:induction false} SplitCount(s: string, sep: char)
    ensures |Split(s, sep)| == Count(s, sep) + 1
    decreases |s|
  {
    if |s| > 0 {
      SplitCount(s[1..], sep);
    }
  }

  /** Joining the pieces with the separator gives back the text. */
  lemma {:induction false} JoinSplit(s: string, sep: char)
    ensures JoinOn(Split(s, sep), sep) == s
    decreases |s|
  {
    if |s| > 0 {
      var rest := Split(s[1..], sep);
      JoinSplit(s[1..], sep);
      if s[0] != sep && |rest| > 1 {
        assert rest == [rest[0]] + rest[1..];
        assert JoinOn(rest, sep) == rest[0] + [sep] + JoinOn(rest[1..], sep);
      }
    }
  }

  /** Every character of every piece comes from the text. */
  lemma {:induction false} SplitPieceChars(s: string, sep: char)
    ensures forall k, i :: 0 <= k < |Split(s, sep)| && 0 <= i < |Split(s, sep)[k]| ==> Split(s, sep)[k][i] in s
    decreases |s|
  {
    if |s| > 0 {
      SplitPieceChars(s[1..], sep);
      var rest := Split(s[1..], sep);
      assert forall c :: c in s[1..] ==> c in s;
      if s[0] != sep {
        var first := [s[0]] + rest[0];
        assert forall i :: 1 <= i < |first| ==> first[i] == rest[0][i - 1];
      }
    }
  }

  lemma {:induction false} SplitSeparatorFree(p: string, sep: char)
    requires sep !in p
    ensures Split(p, sep) == [p]
    decreases |p|
  {
    if |p| > 0 {
      SplitSeparatorFree(p[1..], sep);
      assert [p[0]] + p[1..] == p;
    }
  }

  lemma {:induction false} SplitFirstPiece(p: string, sep: char, t: string)
    requires sep !in p
    ensures Split(p + [sep] + t, sep) == [p] + Split(t, sep)
    decreases |p|
  {
    var s := p + [sep] + t;
    if |p| == 0 {
      assert s[1..] == t;
    } else {
      assert s[1..] == p[1..] + [sep] + t;
      SplitFirstPiece(p[1..], sep, t);
      assert [p[0]] + p[1..] == p;
    }
  }

  /** Splitting pieces that were joined with a separator they do not contain
      gives back the pieces. */
  lemma {:induction false} SplitJoin(parts: seq<string>, sep: char)
    requires |parts| >= 1
    requires forall k :: 0 <= k < |parts| ==> sep !in parts[k]
    ensures Split(JoinOn(parts, sep), sep) == parts
    decreases |parts|
  {
    if |parts| == 1 {
      SplitSeparatorFree(parts[0], sep);
    } else {
      SplitJoin(parts[1..], sep);
      SplitFirstPiece(parts[0], sep, JoinOn(parts[1..], sep));
      assert [parts[0]] + parts[1..] == parts;
    }
  }

  predicate IsDigit(c: char) {
    '0' <= c <= '9'
  }

  predicate AllDigits(s: string) {
    forall i :: 0 <= i < |s| ==> IsDigit(s[i])
  }

  function DigitValue(c: char): nat
    requires IsDigit(c)
  {
    (c as int) - ('0' as int)
  }

  function DigitChar(d: nat): (c: char)
    requires d < 10
    ensures IsDigit(c) && DigitValue(c) == d
  {
    (('0' as int) + d) as char
  }

  /** Value of a string of decimal digits, most significant first. */
  function DigitsValue(s: string): nat
    requires AllDigits(s)
  {
    if |s| == 0 then 0 else DigitsValue(s[..|s| - 1]) * 10 + DigitValue(s[|s| - 1])
  }

  /** Python's `int(text)` on already-stripped text: an optional sign
      followed by at least one decimal digit; anything else raises. */
  function ParseInt(s: string): (r: Option<int>)
  {
    var signed := |s| > 0 && (s[0] == '+' || s[0] == '-');
    var digits := if signed then s[1..] else s;
    if |digits| == 0 || !AllDigits(digits) then None
    else
      var magnitude: int := DigitsValue(digits);
      if signed && s[0] == '-' then Some(-magnitude) else Some(magnitude)
  }

  /** Python's `int(text)`, which ignores surrounding whitespace. `None`
      stands for the `ValueError` it raises. */
  function PyInt(s: string): (r: Option<int>)
    ensures AllSpace(s) ==> r == None
  {
    ParseInt(Strip(s))
  }

  /** A single character converts exactly when it is a decimal digit. */
  lemma PyIntOfChar(c: char)
    ensures PyInt([c]).Some? <==> IsDigit(c)
    ensures IsDigit(c) ==> PyInt([c]) == Some(DigitValue(c) as int)
  {
    if !IsSpace(c) {
      StripKeepsTrimmed([c]);
      if IsDigit(c) {
        assert [c][..0] == [];
        assert DigitsValue([c]) == DigitValue(c);
        assert ParseInt([c]) == Some(DigitValue(c) as int);
      }
    }
  }

  /** Decimal digits of a natural number, without leading zeros. */
  function NatDigits(n: nat): (s: string)
    ensures |s| >= 1 && AllDigits(s)
  {
    if n < 10 then [DigitChar(n)] else NatDigits(n / 10) + [DigitChar(n % 10)]
  }

  /** Python's `str(i)` for an integer. */
  function IntText(i: int): (s: string)
    ensures |s| >= 1 && IsDigit(s[|s| - 1])
    ensures i >= 0 ==> AllDigits(s)
  {
    if i < 0 then "-" + NatDigits(-i) else NatDigits(i)
  }

  lemma {:induction false} NatDigitsValue(n: nat)
    ensures DigitsValue(NatDigits(n)) == n
  {
    if n >= 10 {
      NatDigitsValue(n / 10);
      var s := NatDigits(n);
      assert s[..|s| - 1] == NatDigits(n / 10);
    }
  }

  /** `int(str(i)) == i`. */
  lemma PyIntRoundTrip(i: int)
    ensures PyInt(IntText(i)) == Some(i)
  {
    StripKeepsTrimmed(IntText(i));
    if i < 0 {
      ParseNegative(-i);
    } else {
      ParseNatural(i);
    }
  }

  lemma ParseNatural(n: nat)
    ensures ParseInt(NatDigits(n)) == Some(n)
  {
    NatDigitsValue(n);
    var s := NatDigits(n);
    assert IsDigit(s[0]);
  }

  lemma ParseNegative(n: nat)
    ensures ParseInt("-" + NatDigits(n)) == Some(-(n as int))
  {
    NatDigitsValue(n);
    var s := "-" + NatDigits(n);
    assert s[0] == '-' && s[1..] == NatDigits(n);
  }

  predicate StartsWith(s: string, prefix: string) {
    |prefix| <= |s| && s[..|prefix|] == prefix
  }

  /** `s.endswith(suffix)` */
  predicate EndsWith(s: string, suffix: string) {
    |suffix| <= |s| && s[|s| - |suffix|..] == suffix
  }

  predicate Occurs(s: string, pat: string) {
    exists i :: 0 <= i <= |s| && StartsWith(s[i..], pat)
  }

  /** `s.replace(pat, '')`: one left-to-right pass deleting non-overlapping
      occurrences of `pat`. */
  function RemoveAll(s: string, pat: string): (r: string)
    requires |pat| > 0
    ensures |r| <= |s|
    decreases |s|
  {
    if |s| == 0 then []
    else if StartsWith(s, pat) then RemoveAll(s[|pat|..], pat)
    else [s[0]] + RemoveAll(s[1..], pat)
  }

  /** Removal never introduces a character the text did not hold. */
  lemma {:induction false} RemoveAllKeepsOut(s: string, pat: string, c: char)
    requires |pat| > 0 && c !in s
    ensures c !in RemoveAll(s, pat)
    decreases |s|
  {
    if |s| > 0 {
      if StartsWith(s, pat) {
        assert forall i :: 0 <= i < |s[|pat|..]| ==> s[|pat|..][i] == s[i + |pat|];
        RemoveAllKeepsOut(s[|pat|..], pat, c);
      } else {
        assert forall i :: 0 <= i < |s[1..]| ==> s[1..][i] == s[i + 1];
        RemoveAllKeepsOut(s[1..], pat, c);
      }
    }
  }

  /** Text without an occurrence of the pattern is left alone. */
  lemma {:induction false} RemoveAllAbsent(s: string, pat: string)
    requires |pat| > 0 && !Occurs(s, pat)
    ensures RemoveAll(s, pat) == s
    decreases |s|
  {
    if |s| > 0 {
      assert s[0..] == s;
      assert !Occurs(s[1..], pat) by {
        forall i | 0 <= i <= |s[1..]|
          ensures !StartsWith(s[1..][i..], pat)
        {
          assert s[1..][i..] == s[i + 1..];
        }
      }
      RemoveAllAbsent(s[1..], pat);
      assert [s[0]] + s[1..] == s;
    }
  }

  /** Removing ".wav" from a stem followed by ".wav" gives back the stem when
      the stem holds no ".wav" of its own. */
  lemma RemoveWavSuffix(stem: string)
    requires !Occurs(stem, ".wav")
    ensures RemoveAll(stem + ".wav", ".wav") == stem
  {
    RemoveWavThen(stem, []);
    assert stem + ".wav" + [] == stem + ".wav";
  }

  /** The pass deletes the first ".wav" after a stem without one and carries
      on with the rest (".wav" cannot overlap itself, so no occurrence
      straddles the join). */
  lemma {:induction false} RemoveWavThen(stem: string, rest: string)
    requires !Occurs(stem, ".wav")
    ensures RemoveAll(stem + ".wav" + rest, ".wav") == stem + RemoveAll(rest, ".wav")
    decreases |stem|
  {
    var s := stem + ".wav" + rest;
    if |stem| == 0 {
      assert s[..4] == ".wav";
      assert s[4..] == rest;
    } else {
      NoWavAtStart(stem, rest);
      NoWavInTail(stem);
      assert s[1..] == stem[1..] + ".wav" + rest;
      RemoveWavThen(stem[1..], rest);
      assert [stem[0]] + stem[1..] == stem;
    }
  }

  /** A non-empty stem without ".wav" does not start with ".wav", whatever
      follows it. */
  lemma NoWavAtStart(stem: string, rest: string)
    requires |stem| > 0 && !Occurs(stem, ".wav")
    ensures !StartsWith(stem + ".wav" + rest, ".wav")
  {
    var s := stem + ".wav" + rest;
    assert stem[0..] == stem;
    if |stem| >= 4 {
      assert s[..4] == stem[..4];
    } else {
      assert s[|stem|] == '.';
    }
  }

  lemma NoWavInTail(stem: string)
    requires |stem| > 0 && !Occurs(stem, ".wav")
    ensures !Occurs(stem[1..], ".wav")
  {
    forall i | 0 <= i <= |stem[1..]|
      ensures !StartsWith(stem[1..][i..], ".wav")
    {
      assert stem[1..][i..] == stem[i + 1..];
    }
  }

  /** The pieces written one after another. */
  function Concat(parts: seq<string>): (s: string)
    ensures |parts| == 0 ==> s == []
    ensures |parts| > 0 ==> parts[0] <= s
    decreases |parts|
  {
    if |parts| == 0 then [] else parts[0] + Concat(parts[1..])
  }

  /** Each stem followed by ".wav": "a.wav", "a.wavb.wav", ... */
  function WavPieces(stems: seq<string>): (ps: seq<string>)
    ensures |ps| == |stems| && forall k :: 0 <= k < |stems| ==> ps[k] == stems[k] + ".wav"
  {
    seq(|stems|, k requires 0 <= k < |stems| => stems[k] + ".wav")
  }

  /** `replace('.wav', '')` removes every ".wav" of a name built from
      ".wav"-free stems each followed by ".wav", keeping the stems in order. */
  lemma {:induction false} RemoveWavPieces(stems: seq<string>)
    requires forall k :: 0 <= k < |stems| ==> !Occurs(stems[k], ".wav")
    ensures RemoveAll(Concat(WavPieces(stems)), ".wav") == Concat(stems)
    decreases |stems|
  {
    if |stems| > 0 {
      var ps := WavPieces(stems);
      assert ps[1..] == WavPieces(stems[1..]);
      RemoveWavPieces(stems[1..]);
      RemoveWavThen(stems[0], Concat(ps[1..]));
    }
  }

  /** Python's `s.rfind(c)`: the last index of `c`, or -1. */
  function LastIndexOf(s: string, c: char): (k: int)
    ensures -1 <= k < |s|
    ensures k >= 0 ==> s[k] == c
    ensures forall j :: k < j < |s| ==> s[j] != c
  {
    if |s| == 0 then -1
    else if s[|s| - 1] == c then |s| - 1
    else LastIndexOf(s[..|s| - 1], c)
  }

  /** The last index is pinned down by a hit with no later hit. */
  lemma LastIndexOfIs(s: string, c: char, k: int)
    requires -1 <= k < |s|
    requires k >= 0 ==> s[k] == c
    requires forall j :: k < j < |s| ==> s[j] != c
    ensures LastIndexOf(s, c) == k
  {
  }

  /** `s.rsplit(c, 1)[0]`: everything before the last `c`, or all of `s`. */
  function RSplitHead(s: string, c: char): (r: string)
    ensures c !in s ==> r == s
    ensures c in s ==> |r| < |s| && s[..|r|] == r && s[|r|] == c && c !in s[|r| + 1..]
  {
    var k := LastIndexOf(s, c);
    if k < 0 then s else s[..k]
  }
}
