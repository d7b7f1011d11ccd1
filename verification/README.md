# Mandarin tone classifier — pure-logic model

This project models the deterministic core of a Mandarin-tone audio
classifier. The classifier tracks a clip's pitch, turns the pitch contour
into a 100-point feature vector, and classifies the vector with a trained
model that is served through two Telegram bots. Three parts are modelled:

- **Pitch-contour post-processing**, shared by the training extractor and
  the bot. The tracker gives one F0 per frame, or none for an unvoiced
  frame. Fewer than two voiced frames give a 100-point zero vector.
  Otherwise the gaps are filled by `numpy.interp` over the voiced frames,
  and the contour is resampled to the requested length between two
  `linspace(0, 1, ·)` grids. The bot's copy also falls back to zeros for an
  empty clip and on any load or tracking failure. The training copy lets
  those failures propagate.
- **Bot decision logic.** It covers:
  - parsing of the allow-list and class-name settings;
  - the access rule, where an empty list admits everyone;
  - the order of the access, model and attachment checks;
  - the choice of the temporary file's extension;
  - the first-argmax prediction and its confidence;
  - the try/finally block, which always removes the temporary file.
- **Dataset bookkeeping.** It covers:
  - building the dataset map from a directory listing;
  - the noise-and-clip transform;
  - how the two augmentation scripts expand each map row into an ordered
    list of labelled rows.

Everything is over `real`, `seq` and `string`, with pure functions and lemmas.
`Wrappers` holds `Option` and `Result`. `Sequences` holds the generic
"stop at the first failure" (`Collect`) and "concatenate the pieces"
(`Flatten`) shapes of the scripts' loops. `PyStr` and `PyPath` model the
Python string and posix `os.path` built-ins the scripts use. The outside
world enters as data: what loading and pitch tracking produced
(`Analysis`), the download outcome, the model's `predict`, the noise and
uniform draws, the uuid, and each augmentation step's outcome.

## Model

| member | source | states |
|---|---|---|
| PitchContour.CleanContour | Bot_Telegram/processador_audio.py:16-24 | Fewer than two voiced frames give exactly 100 zeros. Otherwise the contour has one value per frame, and every voiced frame keeps its F0. The result always has at least two values. |
| PitchContour.DefinedFramesShape | Bot_Telegram/processador_audio.py:16 | The voiced-frame indices are strictly increasing, and every voiced frame is listed. |
| PitchContour.GapFillKeepsDefined | Bot_Telegram/processador_audio.py:21-23 | Every voiced frame keeps its F0 after gap filling. |
| PitchContour.GapFillBeforeFirst | Bot_Telegram/processador_audio.py:21-23 | Frames up to the first voiced frame take its value (left clamp). |
| PitchContour.GapFillAfterLast | Bot_Telegram/processador_audio.py:21-23 | Frames from the last voiced frame on take its value (right clamp). |
| PitchContour.GapFillInterior | Bot_Telegram/processador_audio.py:21-23 | An unvoiced frame between two neighbouring voiced frames lies on the straight line joining them. |
| PitchContour.GapFillInteriorBetween | Bot_Telegram/processador_audio.py:21-23 | Such a frame's value lies between its two neighbours' values. |
| PitchContour.GapFillEnds | extraindofeauture.py:48-54 | The first and last frames take the first and last voiced values. |
| PitchContour.GapFillWithin | Bot_Telegram/processador_audio.py:21-23 | Filled values stay within any bounds that hold for the voiced values. |
| PitchContour.Resample | Bot_Telegram/processador_audio.py:35-37 | The resampled vector has exactly the requested length. |
| PitchContour.ResampleEndpoints | Bot_Telegram/processador_audio.py:35-37 | The first and last contour values are kept at the two ends. |
| PitchContour.ResampleIdentity | extraindofeauture.py:90-93 | Resampling to the contour's own length returns the contour. |
| PitchContour.ResampleWithin | Bot_Telegram/processador_audio.py:35-37 | Every resampled value lies within any bounds of the contour, in particular between its min and max. |
| PitchContour.ResampleZeros | Bot_Telegram/processador_audio.py:34-37 | A zero contour resamples to a zero vector of the requested length. |
| PitchContour.CleanResampleEndpoints | extraindofeauture.py:86-95 | With two or more voiced frames, the feature starts at the first voiced F0 and ends at the last one. |
| Interpolation.Linspace | Bot_Telegram/processador_audio.py:35-36 | `linspace(0, 1, n)` has n points, increases strictly, starts at 0, ends at 1, and stays in [0, 1]. |
| Interpolation.LinspaceSpacing | Bot_Telegram/processador_audio.py:35-36 | The points are evenly spaced: consecutive points differ by 1/(n-1). |
| Interpolation.InterpAtSample | Bot_Telegram/processador_audio.py:23 | At a sample point, `interp` gives that sample's value. |
| Interpolation.InterpOnSegment | Bot_Telegram/processador_audio.py:23 | Between neighbouring sample points, `interp` is the line through them. |
| Interpolation.InterpRightClamp | Bot_Telegram/processador_audio.py:23 | Right of the last sample point, `interp` gives the last value. |
| Interpolation.InterpWithin | Bot_Telegram/processador_audio.py:23 | `interp` stays within any bounds that hold for the sample values. |
| AudioProcessor.ExtractContour | Bot_Telegram/processador_audio.py:9-27 | The bot's extractor never fails. An empty clip, a load or tracking failure, or fewer than two voiced frames give 100 zeros. Otherwise the contour has one value per frame and keeps every voiced F0. |
| AudioProcessor.ExtractFeature | Bot_Telegram/processador_audio.py:30-38 | The feature has exactly the requested length, and it is all zeros in every fallback case. |
| AudioProcessor.FeatureEndpoints | Bot_Telegram/processador_audio.py:30-38 | Outside the fallback, the feature starts at the first voiced F0 and ends at the last one. |
| AudioProcessor.FeatureWithinVoicedRange | Bot_Telegram/processador_audio.py:30-38 | Every feature value lies within the range of the voiced F0 values. |
| AudioProcessor.AgreesWithTraining | Bot_Telegram/processador_audio.py:29-38 | On a tracked, non-empty clip, the bot's feature equals the training script's. |
| FeatureExtraction.ExtractContour | extraindofeauture.py:26-54 | A load failure and a tracking failure are reported as such and are not replaced by zeros. Fewer than two voiced frames give 100 zeros. Otherwise the contour keeps every voiced F0. |
| FeatureExtraction.ExtractFeature | extraindofeauture.py:82-95 | Extraction fails exactly when the clip was not tracked. A success has the requested length, and the fallback is all zeros. |
| FeatureExtraction.FeatureEndpoints | extraindofeauture.py:82-95 | With two or more voiced frames, the feature starts and ends at the first and last voiced F0. |
| FeatureExtraction.BuildTable | extraindofeauture.py:98-106 | A built table has one feature row and one label per map row. |
| FeatureExtraction.BuildTableRows | extraindofeauture.py:98-106 | Row i of X is the 100-point feature of map row i. Label i is row i's `tom`. |
| FeatureExtraction.BuildTableFailure | extraindofeauture.py:98 | The table is built exactly when every clip is tracked. Otherwise the error is that of the first failing row. |
| BotCommon.Argmax | Bot_Telegram/bot_classificador_v2.py:84 | The predicted index is the first position of the maximum probability. |
| BotCommon.ArgmaxUnique | Bot_Telegram/bot_classificador_v2.py:84 | Any first position of the maximum is that index. |
| BotCommon.Classify | Bot_Telegram/bot_classificador_v2.py:84-86 | A class is named exactly when the probabilities are non-empty and the index is within the class list. The name is the class at the argmax. |
| BotCommon.ClassifyConfidence | Bot_Telegram/bot_classificador_v2.py:86 | The confidence is 100 times the largest probability: it bounds every probability and is attained by one. |
| BotCommon.RunAnalysis | Bot_Telegram/bot_classificador_v2.py:74-99 | The try block always replies, with a prediction or the error reply. The temporary file is gone afterwards. The model runs exactly when the download succeeded. A prediction is given exactly when `predict` and the class lookup succeed. |
| BotCommon.ExtractionNeverFails | Bot_Telegram/bot_classificador_v2.py:80-93 | Once downloaded, any clip gets the prediction for what `predict` returns, whatever the audio contains. |
| BotV2.NonBlankPieces | Bot_Telegram/bot_classificador_v2.py:20 | The kept pieces are stripped and non-empty, at most one per comma-separated piece. |
| BotV2.NonBlankPiecesAppend | Bot_Telegram/bot_classificador_v2.py:20 | Dropping blank pieces distributes over concatenation, so the kept pieces stay in their original order. |
| BotV2.NonBlankPiecesSingle | Bot_Telegram/bot_classificador_v2.py:20 | A single piece is dropped when it is all whitespace, and otherwise kept stripped. |
| BotV2.NonBlankStripsEach | Bot_Telegram/bot_classificador_v2.py:20 | With no blank piece, piece k of the result is the stripped piece k. |
| BotV2.ParseAllowedChatIds | Bot_Telegram/bot_classificador_v2.py:20 | The allow-list is `int()` of the stripped non-blank comma pieces, in order, with at most one id per comma plus one. |
| BotV2.AllowedChatIdsPadded | Bot_Telegram/bot_classificador_v2.py:20 | Ids written in decimal with any whitespace around each, joined with commas, parse back to the same ids in the same order. |
| BotV2.AllowedChatIdsExample | Bot_Telegram/bot_classificador_v2.py:20 | The setting `"123, 456"` admits chats 123 and 456. |
| BotV2.ParseIdsOutcome | Bot_Telegram/bot_classificador_v2.py:20 | Parsing succeeds exactly when every kept piece is an integer, and then gives their values in order. Otherwise it names the first piece that is not. |
| BotV2.AllowedChatIdsRoundTrip | Bot_Telegram/bot_classificador_v2.py:20 | Writing ids as comma-separated decimals and parsing them back gives the same ids in the same order. |
| BotV2.BlankAllowList | Bot_Telegram/bot_classificador_v2.py:20 | A setting made only of commas and whitespace gives an empty allow-list. |
| BotV2.ParseClassNames | Bot_Telegram/bot_classificador_v2.py:25 | There is one name per comma plus one, blanks included. Each name is its stripped piece. |
| BotV2.ClassNamesRoundTrip | Bot_Telegram/bot_classificador_v2.py:25 | Names without commas or outer whitespace survive a join-then-parse round trip. |
| BotV2.LoadConfig | Bot_Telegram/bot_classificador_v2.py:17-28 | Start-up succeeds exactly when the allow-list parses, and otherwise stops with that parse's error. On success the allow-list is the parsed setting, the class names are the parsed setting, and the temp folder is the configured one. |
| BotV2.TempPath | Bot_Telegram/bot_classificador_v2.py:72 | The temporary path ends in `.ogg`. |
| BotV2.TempPathName | Bot_Telegram/bot_classificador_v2.py:72 | The temporary file is `<uuid>.ogg` directly inside the temp dir: the path starts with the temp dir, adds at most one separator, and its base name is `<uuid>.ogg`. |
| BotV2.HandleAudio | Bot_Telegram/bot_classificador_v2.py:55-99 | Denied exactly when the chat is not admitted. "Model not loaded" exactly when admitted without a model. Neither case runs the model or touches files. Otherwise the temp file is removed. The model runs exactly when the chat is admitted, the model is loaded and the attachment downloads. The reply is a prediction exactly when, in addition, the model predicts and the argmax names a configured class, and it is then that class with 100 times its probability. |
| BotV1.Extension | bot_classificador.py:57 | Voice gives `.ogg`. An audio file gives the `splitext` extension of its name, possibly empty. A nameless audio file raises. |
| BotV1.AudioExtensionKept | bot_classificador.py:57 | An audio file named `<stem>.<ext>` gets extension `.<ext>`. |
| BotV1.HandleAudio | bot_classificador.py:44-99 | There is no access control. The model check comes first. No attachment gives a silent return. A nameless audio file raises before the try block. Otherwise the temp file is removed. The model runs exactly when it is loaded and an attachment with a usable extension downloads. The reply is a prediction exactly when, in addition, the model predicts and the argmax falls among the eight fixed names, and it is then that class with 100 times its probability. |
| BotV1.IndexPastClassesIsError | bot_classificador.py:78-93 | An argmax past the eighth class gives the error reply, never a prediction. |
| DatasetMap.MakeRowFields | Script/criar_mapa_dataset.py:12-23 | A row exists exactly when a digit precedes `.mp3`. Its pinyin plus `.mp3` is the name, its tone is that digit, and its path is folder joined with name. A bare `.mp3` is an index error; a non-digit is a value error. |
| DatasetMap.ExampleNameTone | Script/criar_mapa_dataset.py:14-17 | The tone is read from the character before `.mp3`, so the name `zhong4_FV1_MP3.mp3` in the folder `C:/ID_tones/DATASET_V3` gives pinyin `zhong4_FV1_MP3` and tone 3, not 4. |
| DatasetMap.Mp3Names | Script/criar_mapa_dataset.py:9-10 | Every kept name ends in `.mp3`, and there are no more of them than names in the listing. |
| DatasetMap.Mp3NamesAppend | Script/criar_mapa_dataset.py:9-10 | Filtering distributes over concatenation of listings: the `.mp3` names keep the listing order and every repetition. |
| DatasetMap.Mp3NamesSingle | Script/criar_mapa_dataset.py:9-10 | A single name is kept exactly when it ends in `.mp3`. |
| DatasetMap.Mp3NamesMembers | Script/criar_mapa_dataset.py:9-10 | Every kept name comes from the listing, and every `.mp3` name of the listing is kept. |
| DatasetMap.Mp3RowsAt | Script/criar_mapa_dataset.py:9-23 | Result k of the loop is the row of the k-th `.mp3` name. |
| DatasetMap.BuildMapRows | Script/criar_mapa_dataset.py:9-23 | A built map holds, in listing order, the row of every `.mp3` name. |
| DatasetMap.BuildMapSucceeds | Script/criar_mapa_dataset.py:9-23 | The map is built exactly when every `.mp3` name yields a row. |
| DatasetMap.BuildMapCons | Script/criar_mapa_dataset.py:9-23 | Scanning from the front: a non-`.mp3` name is skipped, and an `.mp3` name either stops the run with its error or puts its row before the rows of the rest. |
| DatasetMap.BuildMapFailure | Script/criar_mapa_dataset.py:17-22 | A failed run reports the error of the first `.mp3` name, in listing order, whose row cannot be built. Every `.mp3` name before it yields a row. |
| AugmentScript.Clip | Script/aumentar_dataset.py:20 | The clipped value lies in [-1, 1]. In-range values are unchanged, values above 1 become 1, and values below -1 become -1. |
| AugmentScript.AddNoise | Script/aumentar_dataset.py:16-21 | The noisy signal has the input's length, and every sample is in [-1, 1]. Sample i is the input sample plus 0.001 times noise draw i when that sum is in range, and the nearer bound otherwise. |
| AugmentScript.AddNoiseStaysClose | Script/aumentar_dataset.py:16-21 | For an in-range input, each sample moves by at most 0.001 times its noise draw. |
| AugmentScript.AddNoiseSilence | Script/aumentar_dataset.py:16-21 | Zero noise leaves an in-range signal unchanged. |
| AugmentScript.StretchRate | Script/aumentar_dataset.py:23-27 | The effective rate lies in [0.95, 1.05) whatever rate is requested. |
| AugmentScript.BaseName | Script/aumentar_dataset.py:61 | `nome_base` has no separator. |
| AugmentScript.BaseNameShape | Script/aumentar_dataset.py:61 | Without a dot, `nome_base` is the whole base name. Otherwise only the last dot and what follows it are dropped. |
| AugmentScript.BaseNameOfFile | Script/aumentar_dataset.py:59-61 | A file `<stem>.<ext>` in any folder has `nome_base` equal to `stem`. |
| AugmentScript.FullExpansion | Script/aumentar_dataset.py:66-96 | A complete row gives four rows: the original first, then three copies with the original's pinyin and tone. |
| AugmentScript.ExpandRow | Script/aumentar_dataset.py:66-99 | A row gives 1 to 4 rows, always a prefix of [original, noise, stretch, pitch]. A clip that fails to load or is empty gives only the original. Otherwise the rows kept are the original plus one per augmentation finished before a failure, at most three. All rows share its labels. |
| AugmentScript.DerivedNames | Script/aumentar_dataset.py:79-96 | The copies are named `nome_base` plus `_noise.wav`, `_stretch.wav` or `_pitch.wav`, and each path is the output folder, one separator, then that name. |
| AugmentScript.AugmentDataset | Script/aumentar_dataset.py:54-99 | The output is every row's contribution concatenated in row order, with between 1 and 4 rows per input row. |
| AugmentScript.ExpandAllComplete | Script/aumentar_dataset.py:54-99 | When every step succeeds, row i and its copies sit at positions 4i to 4i+3. |
| AugmentBasic.Triple | aumentar_dataset.py:21-34 | Each row gives three rows: itself first, then two copies with its pinyin and tone. |
| AugmentBasic.FirstFailure | aumentar_dataset.py:16-18 | There is no failing row exactly when every row succeeds. Otherwise the result is the first failing row. |
| AugmentBasic.Augment | aumentar_dataset.py:16-36 | The new map exists exactly when every row succeeds. Otherwise the run stops at the first failing row. |
| AugmentBasic.AugmentLayout | aumentar_dataset.py:16-36 | A successful run has 3n rows: row i at 3i, its `_lento` copy at 3i+1 and its `_agudo` copy at 3i+2. |
| AugmentBasic.CopyRowPlace | aumentar_dataset.py:26-28 | A copy is written directly inside `dataset_aumentado`: its path is that folder, one separator, then the copy name, which is its base name. |
| AugmentBasic.CopyNameOfWav | aumentar_dataset.py:19-33 | A `<stem>.wav` clip, with no `.wav` inside the stem, gives copies named `<stem><suffix>`. |
| AugmentBasic.CopyNameDropsInnerWav | aumentar_dataset.py:26 | A clip named `<s1>.wav<s2>.wav…<sn>.wav`, with no `.wav` inside any stem, gets copies named `<s1><s2>…<sn><suffix>`, so `a.wav.wav` gives `a_lento.wav`. |
| PyStr.Strip | Bot_Telegram/bot_classificador_v2.py:20 | The result is empty exactly when the text is all whitespace. Otherwise it neither starts nor ends with whitespace. |
| PyStr.StripTrims | Bot_Telegram/bot_classificador_v2.py:20 | The result is a slice of the text with only whitespace before and after it. |
| PyStr.StripPadded | Bot_Telegram/bot_classificador_v2.py:20 | Text with non-space ends is recovered from any whitespace padding around it. |
| PyStr.StripKeepsTrimmed | Bot_Telegram/bot_classificador_v2.py:20 | Text with no outer whitespace is unchanged by stripping. |
| PyStr.SplitCount | Bot_Telegram/bot_classificador_v2.py:25 | `split(',')` gives one more piece than there are commas. |
| PyStr.JoinSplit | Bot_Telegram/bot_classificador_v2.py:25 | Joining the pieces of a split gives back the text. |
| PyStr.SplitJoin | Bot_Telegram/bot_classificador_v2.py:25 | Splitting comma-free pieces joined with commas gives back the pieces. |
| PyStr.PyIntOfChar | Script/criar_mapa_dataset.py:22 | `int()` of one character succeeds exactly for a decimal digit and gives its value. |
| PyStr.PyIntRoundTrip | Bot_Telegram/bot_classificador_v2.py:20 | `int(str(i)) == i` for every integer. |
| PyStr.RemoveAllAbsent | aumentar_dataset.py:26 | `replace` of a pattern that does not occur changes nothing. |
| PyStr.RemoveWavSuffix | aumentar_dataset.py:26 | Removing `.wav` from `<stem>.wav`, with no `.wav` inside the stem, gives the stem. |
| PyStr.RemoveWavThen | aumentar_dataset.py:26 | After a stem with no `.wav`, the first `.wav` is deleted and the pass carries on with the rest. |
| PyStr.RemoveWavPieces | aumentar_dataset.py:26 | Stems with no `.wav`, each followed by `.wav`, lose every `.wav` and keep the stems in order. |
| PyStr.LastIndexOf | Script/aumentar_dataset.py:61 | The result is the last index of the character, or -1 when it is absent. |
| PyStr.RSplitHead | Script/aumentar_dataset.py:61 | `rsplit(c, 1)[0]` is the whole text when `c` is absent. Otherwise it is the prefix before the last `c`. |
| PyPath.BasenameIsLastComponent | Script/aumentar_dataset.py:61 | The base name is the tail after the last separator, or the whole path when there is no separator. |
| PyPath.Join | Script/criar_mapa_dataset.py:12 | An absolute second part replaces the first. Otherwise the result is the folder, then one separator unless the folder is empty or already ends with one, then the name. |
| PyPath.BasenameOfJoin | Bot_Telegram/bot_classificador_v2.py:72 | A separator-free name joined onto a folder sits directly inside it: the result starts with the folder, adds a separator only when the folder is non-empty and does not end in one, and its base name is the name. |
| PyPath.SplitExt | bot_classificador.py:57 | The two parts concatenate to the path. The extension is empty or one dot followed by dot-free, separator-free text. It is non-empty exactly when the base name has a dot after some other character of the base name, so a name without a dot, a dot only in the folder part, or only leading dots gives an empty extension. |
| PyPath.SplitExtOfName | bot_classificador.py:57 | `<stem>.<ext>`, with a stem that is not all dots, splits at its last dot. |

## Left out

- Library signal processing: the pYIN pitch tracker, `librosa.load` (16 kHz resampling), `time_stretch`, `pitch_shift` and the `soundfile` writes. Their results, or their failure, are inputs.
- Floating point: everything is over exact reals. NaN is represented as `None` for an unvoiced frame, and rounding is not modelled.
- The Telegram SDK, the async handlers, polling, the reply wording, the "analysing" progress reply sent before the download, logging, and the `start` command. Replies are a datatype. A failure to send a reply is not modelled.
- The reading of `config.ini` itself: only the parsing of the setting values is modelled. A missing section or key is not modelled.
- uuid generation: the uuid is a parameter, so nothing says that two messages get distinct names.
- The CSV and `.npy` reading and writing, and the progress bars.
- `PyStr.PyInt`: does not accept underscores between digits or non-ASCII decimal digits, which Python's `int()` does.
- `PyPath`: models posix `os.path` only. The Windows-style dataset folder is kept as an opaque string.
- `AugmentScript.StretchRate`: the rate only matters to the library call, which is left out. The model records that the requested rate is ignored and gives the range of the draw.
- `AugmentScript.BaseName`: the `except` branch around `nome_base` is not modelled. It is reachable only when the path cell is not a string (an empty CSV cell read as NaN), and map rows here always hold string paths.
- The training, evaluation and conversion scripts (`modelo.py`, `modelosvm.py`, `Script/matriz_confusao.py`, `conversorTfLite.py`). They are machine-learning library calls whose only local logic is a label shift.
- `Script/trocar_tipo.py` (an ffmpeg conversion) and `Script/juntar_dataset.py` (a pandas concatenation).
- Plotting: `visualizar_pitch`.
