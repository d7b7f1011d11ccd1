/**
  What the two Telegram bots share once the messaging SDK is abstracted
  away: the message and outcome types, the first-argmax classification of
  the model's probabilities, and the try/finally block that downloads the
  clip to a temporary file, extracts its feature vector, runs the model,
  replies, and always removes the temporary file.
 */
module BotCommon {
  import opened Wrappers
  import opened PitchContour
  import AudioProcessor

  /** An audio-file attachment; Telegram may omit its file name. */
  datatype AudioFile = AudioFile(fileId: string, fileName: Option<string>)

  /** A voice-note attachment. */
  datatype Voice = Voice(fileId: string)

  datatype Message = Message(audio: Option<AudioFile>, voice: Option<Voice>)

  /** `message.audio or message.voice` is something. */
  predicate HasAttachment(msg: Message) {
    msg.audio.Some? || msg.voice.Some?
  }

  /** How fetching the attachment to the temporary path went; a failed
      download may or may not have left a partial file behind. */
  datatype Download = Downloaded | DownloadFailed(leftPartialFile: bool)

  /** What the outside world does while one message is handled: the
      download, what loading and pitch-tracking the downloaded clip yields,
      and the loaded model's `predict` (None when it raises). */
  datatype Environment = Environment(
    download: Download,
    analysis: Analysis,
    predict: seq<real> -> Option<seq<real>>)

  /** The replies the handlers can send (their wording is not modelled). */
  datatype Reply =
    | Denied                                       // "no permission to use this bot"
    | ModelNotLoaded                               // "the AI model is not loaded"
    | ErrorReply                                   // "an error occurred, try again"
    | Prediction(className: string, confidence: real)  // the predicted class and 100 x its probability

  /** How a handler invocation ends: with a reply, silently, or by raising
      out of the handler. */
  datatype Outcome = Replied(reply: Reply) | Silent | Raised

  /** The outcome, whether the model was invoked, and the files present
      afterwards. */
  datatype Handled = Handled(outcome: Outcome, inferred: bool, files: set<string>)

  /** `k` is the first position of the maximum of `p` (numpy `argmax`). */
  predicate IsFirstArgmax(p: seq<real>, k: nat) {
    && k < |p|
    && (forall j :: 0 <= j < |p| ==> p[j] <= p[k])
    && (forall j :: 0 <= j < k ==> p[j] < p[k])
  }

  function Argmax(p: seq<real>): (k: nat)
    requires |p| >= 1
    ensures IsFirstArgmax(p, k)
  {
    ArgmaxBelow(p, |p|)
  }

  /** The first position of the maximum among the first n values. */
  function ArgmaxBelow(p: seq<real>, n: nat): (k: nat)
    requires 1 <= n <= |p|
    ensures k < n
    ensures forall j :: 0 <= j < n ==> p[j] <= p[k]
    ensures forall j :: 0 <= j < k ==> p[j] < p[k]
  {
    if n == 1 then 0
    else
      var k := ArgmaxBelow(p, n - 1);
      if p[n - 1] > p[k] then n - 1 else k
  }

  /** There is only one first argmax. */
  lemma ArgmaxUnique(p: seq<real>, k: nat)
    requires IsFirstArgmax(p, k)
    ensures |p| >= 1 && k == Argmax(p)
  {
  }

  /** The predicted class name and confidence for the probabilities `p`:
      `names[argmax(p)]` and `100 * max(p)`. None stands for the error
      raised when `p` is empty or the index is past the end of `names`. */
  function Classify(p: seq<real>, names: seq<string>): (r: Option<(string, real)>)
    ensures r.Some? <==> |p| >= 1 && Argmax(p) < |names|
    ensures r.Some? ==> r.value.0 == names[Argmax(p)] && r.value.0 in names
  {
    if |p| == 0 || Argmax(p) >= |names| then None
    else Some((names[Argmax(p)], 100.0 * p[Argmax(p)]))
  }

  /** The confidence is 100 times the largest probability. */
  lemma ClassifyConfidence(p: seq<real>, names: seq<string>)
    requires Classify(p, names).Some?
    ensures forall j :: 0 <= j < |p| ==> 100.0 * p[j] <= Classify(p, names).value.1
    ensures exists j :: 0 <= j < |p| && Classify(p, names).value.1 == 100.0 * p[j]
  {
    var k := Argmax(p);
    assert Classify(p, names).value.1 == 100.0 * p[k];
  }

  /** What the model predicts for the downloaded clip: its 100-point
      feature vector, shaped (1, 100, 1), fed to `predict`. */
  function Probabilities(env: Environment): Option<seq<real>> {
    env.predict(AudioProcessor.ExtractFeature(env.analysis, FeatureLength))
  }

  /** The try/finally block of both handlers, once the temporary `path` is
      chosen: download, extract the 100-point feature
      vector, predict, classify and reply; any failure gives the error
      reply; finally the temporary file is removed if it exists. */
  function RunAnalysis(names: seq<string>, msg: Message, path: string, files: set<string>, env: Environment): (h: Handled)
    ensures h.outcome.Replied? && !h.outcome.reply.Denied? && !h.outcome.reply.ModelNotLoaded?
    ensures h.files == files - {path}
    ensures h.inferred <==> HasAttachment(msg) && env.download.Downloaded?
    ensures h.outcome.reply.Prediction? <==>
      h.inferred && Probabilities(env).Some? && Classify(Probabilities(env).value, names).Some?
    ensures h.outcome.reply.Prediction? ==>
      var r := Classify(Probabilities(env).value, names).value;
      h.outcome.reply == Prediction(r.0, r.1)
  {
    var written := HasAttachment(msg) && (env.download.Downloaded? || env.download.leftPartialFile);
    var afterDownload := if written then files + {path} else files;
    var reply :=
      if !HasAttachment(msg) || env.download.DownloadFailed? then ErrorReply
      else
        var probs := Probabilities(env);
        if probs.None? then ErrorReply
        else
          match Classify(probs.value, names)
          case None => ErrorReply
          case Some(r) => Prediction(r.0, r.1);
    Handled(Replied(reply), HasAttachment(msg) && env.download.Downloaded?, afterDownload - {path})
  }

  /** Feature extraction never causes the error reply: once the clip is
      downloaded, the reply depends only on what the model predicts, for any
      audio content whatsoever. */
  lemma ExtractionNeverFails(names: seq<string>, msg: Message, path: string, files: set<string>, env: Environment)
    requires HasAttachment(msg) && env.download.Downloaded?
    ensures var probs := Probabilities(env);
      probs.Some? && |probs.value| >= 1 && Argmax(probs.value) < |names| ==>
        var p := probs.value;
        RunAnalysis(names, msg, path, files, env).outcome == Replied(Prediction(names[Argmax(p)], 100.0 * p[Argmax(p)]))
  {
    var probs := Probabilities(env);
    if probs.Some? && |probs.value| >= 1 && Argmax(probs.value) < |names| {
      ClassifyValue(probs.value, names);
      var h := RunAnalysis(names, msg, path, files, env);
      assert h.outcome.reply.Prediction?;
    }
  }

  /** With a valid index the classification is the argmax class and 100
      times its probability. */
  lemma ClassifyValue(p: seq<real>, names: seq<string>)
    requires |p| >= 1 && Argmax(p) < |names|
    ensures Classify(p, names) == Some((names[Argmax(p)], 100.0 * p[Argmax(p)]))
  {
    var k := Argmax(p);
    assert !(|p| == 0 || k >= |names|);
  }
}
