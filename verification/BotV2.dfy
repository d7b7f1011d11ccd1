/**
  The configurable bot: settings come from an INI file (parsing of the file
  itself is not modelled, only of the setting values), chats can be
  restricted to an allow-list, and every voice or audio message is saved
  under a fresh `.ogg` name in the temporary directory before analysis.
 */
module BotV2 {
  import opened Wrappers
  import opened PyStr
  import opened PyPath
  import opened BotCommon
  import opened Sequences

  /** The raw setting values: `[Telegram] AllowedChatIds`,
      `[Model] ClassNames` and `[Paths] TempDir`. */
  datatype Settings = Settings(allowedChatIds: string, classNames: string, tempDir: string)

  datatype Config = Config(allowed: seq<int>, classNames: seq<string>, tempDir: string)

  /** A non-blank allow-list piece that `int()` rejects; the bot stops at start-up. */
  datatype ConfigError = BadChatId(piece: string)

  /** One piece as the list comprehension sees it: nothing when it strips to
      the empty string, otherwise the stripped piece. */
  function Kept(piece: string): (toks: seq<string>)
    ensures |toks| <= 1
    ensures forall k :: 0 <= k < |toks| ==> toks[k] != [] && Strip(toks[k]) == toks[k]
  {
    var t := Strip(piece);
    StripIdempotent(piece);
    if t == [] then [] else [t]
  }

  /** The stripped pieces of a comma-separated list, blank pieces dropped. */
  function NonBlankPieces(parts: seq<string>): (toks: seq<string>)
    ensures |toks| <= |parts|
    ensures forall k :: 0 <= k < |toks| ==> toks[k] != [] && Strip(toks[k]) == toks[k]
  {
    if |parts| == 0 then [] else Kept(parts[0]) + NonBlankPieces(parts[1..])
  }

  /** Dropping blanks distributes over concatenation: the pieces are kept in
      their original order. */
  lemma {:induction false} NonBlankPiecesAppend(a: seq<string>, b: seq<string>)
    ensures NonBlankPieces(a + b) == NonBlankPieces(a) + NonBlankPieces(b)
    decreases |a|
  {
    if |a| == 0 {
      assert a + b == b;
    } else {
      var keep := Kept(a[0]);
      assert NonBlankPieces(a + b) == keep + NonBlankPieces(a[1..] + b) by {
        assert (a + b)[0] == a[0] && (a + b)[1..] == a[1..] + b;
      }
      NonBlankPiecesAppend(a[1..], b);
      assert keep + (NonBlankPieces(a[1..]) + NonBlankPieces(b)) == (keep + NonBlankPieces(a[1..])) + NonBlankPieces(b);
    }
  }

  /** A single piece is dropped when it is blank and kept stripped otherwise. */
  lemma NonBlankPiecesSingle(p: string)
    ensures NonBlankPieces([p]) == if AllSpace(p) then [] else [Strip(p)]
  {
    assert [p][1..] == [];
  }

  /** With no blank piece, every piece is kept, stripped, in order. */
  lemma {:induction false} NonBlankStripsEach(parts: seq<string>)
    requires forall k :: 0 <= k < |parts| ==> !AllSpace(parts[k])
    ensures |NonBlankPieces(parts)| == |parts|
    ensures forall k :: 0 <= k < |parts| ==> NonBlankPieces(parts)[k] == Strip(parts[k])
    decreases |parts|
  {
    if |parts| > 0 {
      var rest := NonBlankPieces(parts[1..]);
      NonBlankStripsEach(parts[1..]);
      assert Kept(parts[0]) == [Strip(parts[0])];
      var toks := NonBlankPieces(parts);
      assert toks == [Strip(parts[0])] + rest;
      forall k | 1 <= k < |parts| ensures toks[k] == Strip(parts[k]) {
        assert toks[k] == rest[k - 1] && parts[1..][k - 1] == parts[k];
      }
    }
  }

  /** `int()` of one token. */
  function ParseId(tok: string): Result<int, ConfigError> {
    match PyInt(tok)
    case None => Failure(BadChatId(tok))
    case Some(id) => Success(id)
  }

  /** `int()` of each token, in order; the first bad token is the error. */
  function ParseIds(toks: seq<string>): (r: Result<seq<int>, ConfigError>)
    ensures r.Success? ==> |r.value| == |toks|
  {
    Collect(IdResults(toks))
  }

  /** The outcome of `int()` on each token. */
  function IdResults(toks: seq<string>): (rs: seq<Result<int, ConfigError>>)
    ensures |rs| == |toks| && forall k :: 0 <= k < |toks| ==> rs[k] == ParseId(toks[k])
  {
    seq(|toks|, k requires 0 <= k < |toks| => ParseId(toks[k]))
  }

  /** Parsing succeeds exactly when every token is an integer, and then
      yields their values in order; otherwise it names the first token that
      is not. */
  lemma ParseIdsOutcome(toks: seq<string>)
    ensures ParseIds(toks).Success? <==> forall k :: 0 <= k < |toks| ==> PyInt(toks[k]).Some?
    ensures ParseIds(toks).Success? ==> forall k :: 0 <= k < |toks| ==> PyInt(toks[k]) == Some(ParseIds(toks).value[k])
    ensures ParseIds(toks).Failure? ==>
      exists k :: 0 <= k < |toks| && PyInt(toks[k]).None? && ParseIds(toks).error == BadChatId(toks[k])
        && forall j :: 0 <= j < k ==> PyInt(toks[j]).Some?
  {
    var rs := IdResults(toks);
    var r := Collect(rs);
    CollectSuccess(rs);
    if r.Success? {
      forall k | 0 <= k < |toks| ensures PyInt(toks[k]) == Some(r.value[k]) {
        assert ParseId(toks[k]) == Success(r.value[k]);
      }
    } else {
      CollectFailure(rs);
      var k :| 0 <= k < |rs| && rs[k] == Failure(r.error) && (forall j :: 0 <= j < k ==> rs[j].Success?);
      assert PyInt(toks[k]).None? && r.error == BadChatId(toks[k]);
    }
  }

  /** `[int(id.strip()) for id in s.split(',') if id.strip()]` */
  function ParseAllowedChatIds(s: string): (r: Result<seq<int>, ConfigError>)
    ensures r == ParseIds(NonBlankPieces(Split(s, ',')))
    ensures r.Success? ==> |r.value| <= Count(s, ',') + 1
  {
    SplitCount(s, ',');
    ParseIds(NonBlankPieces(Split(s, ',')))
  }

  /** `[name.strip() for name in s.split(',')]`: blanks are kept, so there is
      one name per comma plus one. */
  function ParseClassNames(s: string): (names: seq<string>)
    ensures |names| == Count(s, ',') + 1 && |names| == |Split(s, ',')|
    ensures forall k :: 0 <= k < |names| ==> names[k] == Strip(Split(s, ',')[k]) && ',' !in names[k]
  {
    var parts := Split(s, ',');
    SplitCount(s, ',');
    seq(|parts|, k requires 0 <= k < |parts| => Strip(parts[k]))
  }

  /** Start-up reads the three settings: the parsed allow-list, the parsed
      class names and the temporary folder as written. */
  function LoadConfig(settings: Settings): (r: Result<Config, ConfigError>)
    ensures r.Success? <==> ParseAllowedChatIds(settings.allowedChatIds).Success?
    ensures r.Success? ==>
      && r.value.allowed == ParseAllowedChatIds(settings.allowedChatIds).value
      && r.value.classNames == ParseClassNames(settings.classNames)
      && r.value.tempDir == settings.tempDir
    ensures r.Failure? ==> r.error == ParseAllowedChatIds(settings.allowedChatIds).error
  {
    match ParseAllowedChatIds(settings.allowedChatIds)
    case Failure(e) => Failure(e)
    case Success(ids) => Success(Config(ids, ParseClassNames(settings.classNames), settings.tempDir))
  }

  /** Listing ids as comma-separated decimals and parsing the list back gives
      the same ids, in the same order. */
  lemma {:induction false} AllowedChatIdsRoundTrip(ids: seq<int>)
    ensures |ids| == 0 ==> ParseAllowedChatIds("") == Success(ids)
    ensures |ids| >= 1 ==> ParseAllowedChatIds(JoinOn(IdTexts(ids), ',')) == Success(ids)
  {
    if |ids| >= 1 {
      var texts := IdTexts(ids);
      SplitJoin(texts, ',');
      IdTextsParse(ids);
    }
  }

  /** Ids written as decimals, each padded with whitespace on either side,
      joined with commas: "123, 456" and " 7 ,8" style settings. */
  function PaddedIdTexts(ids: seq<int>, pre: seq<string>, post: seq<string>): (parts: seq<string>)
    requires |pre| == |ids| == |post|
    ensures |parts| == |ids|
    ensures forall k :: 0 <= k < |ids| ==> parts[k] == pre[k] + IntText(ids[k]) + post[k]
  {
    seq(|ids|, k requires 0 <= k < |ids| => pre[k] + IntText(ids[k]) + post[k])
  }

  /** Whitespace around the ids does not matter: the setting parses to the
      ids, in order. */
  lemma AllowedChatIdsPadded(ids: seq<int>, pre: seq<string>, post: seq<string>)
    requires |ids| >= 1 && |pre| == |ids| == |post|
    requires forall k :: 0 <= k < |ids| ==> AllSpace(pre[k]) && AllSpace(post[k])
    ensures ParseAllowedChatIds(JoinOn(PaddedIdTexts(ids, pre, post), ',')) == Success(ids)
  {
    var parts := PaddedIdTexts(ids, pre, post);
    var texts := IdTexts(ids);
    PaddedPieces(ids, pre, post);
    assert Split(JoinOn(parts, ','), ',') == parts by {
      SplitJoin(parts, ',');
    }
    assert NonBlankPieces(parts) == texts by {
      NonBlankStripsEach(parts);
    }
    ParseIdTexts(ids);
  }

  lemma PaddedPieces(ids: seq<int>, pre: seq<string>, post: seq<string>)
    requires |pre| == |ids| == |post|
    requires forall k :: 0 <= k < |ids| ==> AllSpace(pre[k]) && AllSpace(post[k])
    ensures forall k :: 0 <= k < |ids| ==>
      var p := PaddedIdTexts(ids, pre, post)[k];
      ',' !in p && !AllSpace(p) && Strip(p) == IdTexts(ids)[k]
  {
    var parts := PaddedIdTexts(ids, pre, post);
    var texts := IdTexts(ids);
    forall k | 0 <= k < |ids| ensures ',' !in parts[k] && !AllSpace(parts[k]) && Strip(parts[k]) == texts[k] {
      PaddedPiece(pre[k], texts[k], post[k]);
    }
  }

  /** The setting "123, 456" admits chats 123 and 456. */
  lemma AllowedChatIdsExample()
    ensures ParseAllowedChatIds("123, 456") == Success([123, 456])
  {
    var ids := [123, 456];
    var pre := ["", " "];
    var post := ["", ""];
    AllowedChatIdsPadded(ids, pre, post);
    var parts := PaddedIdTexts(ids, pre, post);
    ExampleTexts();
    assert parts[0] == "123" && parts[1] == " 456";
    assert JoinOn(parts, ',') == parts[0] + [','] + parts[1];
    ExampleSetting();
  }

  lemma ExampleSetting()
    ensures "123" + [','] + " 456" == "123, 456"
  {
  }

  lemma ExampleTexts()
    ensures "" + IntText(123) + "" == "123" && " " + IntText(456) + "" == " 456"
  {
    ThreeDigitText(1, 2, 3);
    ThreeDigitText(4, 5, 6);
    var t1 := IntText(123);
    var t2 := IntText(456);
    assert t1 == "123" by {
      assert DigitChar(1) == '1' && DigitChar(2) == '2' && DigitChar(3) == '3';
    }
    assert t2 == "456" by {
      assert DigitChar(4) == '4' && DigitChar(5) == '5' && DigitChar(6) == '6';
    }
    assert "" + t1 + "" == t1;
    assert " " + t2 + "" == [' ', '4', '5', '6'];
  }

  lemma ThreeDigitText(a: nat, b: nat, c: nat)
    requires 1 <= a < 10 && b < 10 && c < 10
    ensures IntText(100 * a + 10 * b + c) == [DigitChar(a), DigitChar(b), DigitChar(c)]
  {
    var m := 10 * a + b;
    var n := 10 * m + c;
    assert n == 100 * a + 10 * b + c;
    assert n / 10 == m && n % 10 == c && n >= 10;
    assert m / 10 == a && m % 10 == b && m >= 10;
    assert NatDigits(a) == [DigitChar(a)];
    assert NatDigits(m) == NatDigits(a) + [DigitChar(b)];
    assert NatDigits(n) == NatDigits(m) + [DigitChar(c)];
  }

  /** One padded id: comma-free, not blank, and stripped back to the digits. */
  lemma PaddedPiece(pre: string, text: string, post: string)
    requires AllSpace(pre) && AllSpace(post)
    requires |text| >= 1 && ',' !in text && !IsSpace(text[0]) && !IsSpace(text[|text| - 1])
    ensures ',' !in pre + text + post && !AllSpace(pre + text + post)
    ensures Strip(pre + text + post) == text
  {
    var p := pre + text + post;
    assert p[|pre|] == text[0];
    StripPadded(pre, text, post);
    forall i | 0 <= i < |p| ensures p[i] != ',' {
      if i < |pre| {
        assert p[i] == pre[i];
      } else if i < |pre| + |text| {
        assert p[i] == text[i - |pre|];
      } else {
        assert p[i] == post[i - |pre| - |text|];
      }
    }
  }

  function IdTexts(ids: seq<int>): (texts: seq<string>)
    ensures |texts| == |ids|
    ensures forall k :: 0 <= k < |ids| ==> texts[k] == IntText(ids[k]) && ',' !in texts[k]
  {
    seq(|ids|, k requires 0 <= k < |ids| => IntText(ids[k]))
  }

  lemma {:induction false} IdTextsParse(ids: seq<int>)
    ensures ParseIds(NonBlankPieces(IdTexts(ids))) == Success(ids)
  {
    var texts := IdTexts(ids);
    forall k | 0 <= k < |texts| ensures texts[k] != [] && Strip(texts[k]) == texts[k] {
      StripKeepsTrimmed(texts[k]);
    }
    NonBlankKeepsTrimmed(texts);
    ParseIdTexts(ids);
  }

  lemma {:induction false} NonBlankKeepsTrimmed(parts: seq<string>)
    requires forall k :: 0 <= k < |parts| ==> parts[k] != [] && Strip(parts[k]) == parts[k]
    ensures NonBlankPieces(parts) == parts
    decreases |parts|
  {
    if |parts| > 0 {
      NonBlankKeepsTrimmed(parts[1..]);
      assert [parts[0]] + parts[1..] == parts;
    }
  }

  lemma ParseIdTexts(ids: seq<int>)
    ensures ParseIds(IdTexts(ids)) == Success(ids)
  {
    var texts := IdTexts(ids);
    var rs := IdResults(texts);
    forall k | 0 <= k < |ids| ensures rs[k] == Success(ids[k]) {
      PyIntRoundTrip(ids[k]);
    }
    CollectValues(rs, ids);
  }

  /** Names without commas or surrounding whitespace survive a round trip
      through the comma-separated setting. */
  lemma ClassNamesRoundTrip(names: seq<string>)
    requires |names| >= 1
    requires forall k :: 0 <= k < |names| ==> ',' !in names[k] && Strip(names[k]) == names[k]
    ensures ParseClassNames(JoinOn(names, ',')) == names
  {
    SplitJoin(names, ',');
  }

  /** A setting made only of commas and whitespace yields an empty allow-list. */
  lemma BlankAllowList(s: string)
    requires forall i :: 0 <= i < |s| ==> s[i] == ',' || IsSpace(s[i])
    ensures ParseAllowedChatIds(s) == Success([])
  {
    var parts := Split(s, ',');
    SplitPieceChars(s, ',');
    forall k | 0 <= k < |parts| ensures AllSpace(parts[k]) {
      forall i | 0 <= i < |parts[k]| ensures IsSpace(parts[k][i]) {
        assert parts[k][i] in s && parts[k][i] != ',';
      }
    }
    BlankPieces(parts);
  }

  lemma {:induction false} BlankPieces(parts: seq<string>)
    requires forall k :: 0 <= k < |parts| ==> AllSpace(parts[k])
    ensures NonBlankPieces(parts) == []
  {
    if |parts| > 0 {
      BlankPieces(parts[1..]);
    }
  }

  /** An empty allow-list admits every chat; otherwise only listed chats. */
  predicate IsAllowed(allowed: seq<int>, chatId: int) {
    |allowed| == 0 || chatId in allowed
  }

  /** The temporary file for one message: `<uuid>.ogg` in the temp dir. */
  function TempPath(tempDir: string, uuid: string): (path: string)
    ensures EndsWith(path, ".ogg")
  {
    Join(tempDir, uuid + ".ogg")
  }

  /** A separator-free uuid names a file directly inside the temp dir: the
      path is the temp dir, at most one separator, then `<uuid>.ogg`. */
  lemma TempPathName(tempDir: string, uuid: string)
    requires Sep !in uuid
    ensures Basename(TempPath(tempDir, uuid)) == uuid + ".ogg"
    ensures StartsWith(TempPath(tempDir, uuid), tempDir)
    ensures |TempPath(tempDir, uuid)| <= |tempDir| + 1 + |uuid + ".ogg"|
  {
    var name := uuid + ".ogg";
    assert Sep !in name by {
      assert forall i :: 0 <= i < |name| ==> name[i] == if i < |uuid| then uuid[i] else ".ogg"[i - |uuid|];
    }
    BasenameOfJoin(tempDir, name);
  }

  /** `handle_audio`: access check, then model check, then the analysis; the
      temporary path ends in `.ogg` whatever the attachment. */
  function HandleAudio(cfg: Config, modelLoaded: bool, chatId: int, msg: Message, uuid: string,
                       files: set<string>, env: Environment): (h: Handled)
    ensures h.outcome == Replied(Denied) <==> !IsAllowed(cfg.allowed, chatId)
    ensures h.outcome == Replied(ModelNotLoaded) <==> IsAllowed(cfg.allowed, chatId) && !modelLoaded
    ensures h.outcome.Replied?
    ensures h.inferred ==> IsAllowed(cfg.allowed, chatId) && modelLoaded && HasAttachment(msg)
    ensures !IsAllowed(cfg.allowed, chatId) || !modelLoaded ==> h.files == files
    ensures IsAllowed(cfg.allowed, chatId) && modelLoaded ==> h.files == files - {TempPath(cfg.tempDir, uuid)}
    ensures h.outcome.reply.Prediction? ==> h.outcome.reply.className in cfg.classNames
    ensures h.inferred <==> IsAllowed(cfg.allowed, chatId) && modelLoaded && HasAttachment(msg) && env.download.Downloaded?
    ensures h.outcome.reply.Prediction? <==>
      && IsAllowed(cfg.allowed, chatId) && modelLoaded && HasAttachment(msg) && env.download.Downloaded?
      && Probabilities(env).Some? && Classify(Probabilities(env).value, cfg.classNames).Some?
    ensures h.outcome.reply.Prediction? ==>
      var r := Classify(Probabilities(env).value, cfg.classNames).value;
      h.outcome.reply == Prediction(r.0, r.1)
  {
    if !IsAllowed(cfg.allowed, chatId) then Handled(Replied(Denied), false, files)
    else if !modelLoaded then Handled(Replied(ModelNotLoaded), false, files)
    else RunAnalysis(cfg.classNames, msg, TempPath(cfg.tempDir, uuid), files, env)
  }
}
