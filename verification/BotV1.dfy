/**
  The first bot: fixed settings, no access control, and a temporary file
  whose extension follows the attachment: `.ogg` for voice notes, the file
  name's own extension for audio files.
 */
module BotV1 {
  import opened Wrappers
  import opened PyPath
  import opened BotCommon

  const TempDir: string := "temp_audios"

  /** The fixed mapping from model output index to class name. */
  const ClassNames: seq<string> := ["Tom 1", "Tom 2", "Tom 3", "Tom 4", "Tom 5", "Tom 6", "Tom 7", "Tom 8"]

  /** The temporary file's extension: `.ogg` for a voice note, otherwise
      `splitext` of the audio file's name. None stands for the TypeError
      `splitext(None)` raises when the audio file has no name. */
  function Extension(msg: Message): (ext: Option<string>)
    requires HasAttachment(msg)
    ensures msg.voice.Some? ==> ext == Some(".ogg")
    ensures ext.None? <==> msg.voice.None? && msg.audio.value.fileName.None?
    ensures ext.Some? && msg.voice.None? ==>
      msg.audio.value.fileName.value == SplitExt(msg.audio.value.fileName.value).0 + ext.value
    ensures ext.Some? ==> ext.value == [] || (ext.value[0] == '.' && '.' !in ext.value[1..] && Sep !in ext.value)
  {
    if msg.voice.Some? then Some(".ogg")
    else
      match msg.audio.value.fileName
      case None => None
      case Some(name) => Some(SplitExt(name).1)
  }

  /** An audio file named "<stem>.<ext>" keeps its extension. */
  lemma AudioExtensionKept(fileId: string, stem: string, ext: string)
    requires Sep !in stem && Sep !in ext && '.' !in ext
    requires exists i :: 0 <= i < |stem| && stem[i] != '.'
    ensures Extension(Message(Some(AudioFile(fileId, Some(stem + "." + ext))), None)) == Some("." + ext)
  {
    SplitExtOfName(stem, ext);
  }

  /** `handle_audio`: model check first, then a silent return when there is
      nothing to analyse, then the extension (which may raise before the
      try block), then the analysis. Every chat is served. */
  function HandleAudio(modelLoaded: bool, msg: Message, uuid: string, files: set<string>, env: Environment): (h: Handled)
    ensures h.outcome == Replied(ModelNotLoaded) <==> !modelLoaded
    ensures h.outcome == Silent <==> modelLoaded && !HasAttachment(msg)
    ensures h.outcome == Raised <==>
      modelLoaded && HasAttachment(msg) && msg.voice.None? && msg.audio.value.fileName.None?
    ensures h.outcome != Replied(Denied)
    ensures h.inferred ==> modelLoaded && HasAttachment(msg)
    ensures !h.outcome.Replied? || h.outcome.reply.ModelNotLoaded? ==> h.files == files && !h.inferred
    ensures h.outcome.Replied? && !h.outcome.reply.ModelNotLoaded? ==>
      h.files == files - {Join(TempDir, uuid + Extension(msg).value)}
    ensures h.outcome.Replied? && h.outcome.reply.Prediction? ==> h.outcome.reply.className in ClassNames
    ensures h.inferred <==>
      modelLoaded && HasAttachment(msg) && Extension(msg).Some? && env.download.Downloaded?
    ensures h.outcome.Replied? && h.outcome.reply.Prediction? <==>
      && modelLoaded && HasAttachment(msg) && Extension(msg).Some? && env.download.Downloaded?
      && Probabilities(env).Some? && Classify(Probabilities(env).value, ClassNames).Some?
    ensures h.outcome.Replied? && h.outcome.reply.Prediction? ==>
      var r := Classify(Probabilities(env).value, ClassNames).value;
      h.outcome.reply == Prediction(r.0, r.1)
  {
    if !modelLoaded then Handled(Replied(ModelNotLoaded), false, files)
    else if !HasAttachment(msg) then Handled(Silent, false, files)
    else
      match Extension(msg)
      case None => Handled(Raised, false, files)
      case Some(ext) => RunAnalysis(ClassNames, msg, Join(TempDir, uuid + ext), files, env)
  }

  /** A model output whose first argmax is past the eighth class gives the
      error reply, never a prediction. */
  lemma IndexPastClassesIsError(msg: Message, uuid: string, files: set<string>, env: Environment, p: seq<real>)
    requires HasAttachment(msg) && (msg.voice.Some? || msg.audio.value.fileName.Some?)
    requires env.download.Downloaded?
    requires Probabilities(env) == Some(p) && |p| >= 1 && Argmax(p) >= 8
    ensures HandleAudio(true, msg, uuid, files, env).outcome == Replied(ErrorReply)
  {
  }
}
