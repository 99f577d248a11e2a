# Speech-to-video scripts: a Dafny model

This project models the data path of a small set of Python scripts that turn
recorded speech into videos:

- **The transcriber.** `transcription-json.py` spreads the recogniser's
  segments over whole-second buckets and lays them out as a dense,
  per-second transcript document. It adds an `MM:SS` timestamp to every
  second and a running marker to every second that received words.
- **The marker reader.** `json-marker-reader.py` lists the markers, looks
  them up, and attaches image paths to every entry of a marker.
- **The JSON check.** The video generator's `JsonProcessor` checks the
  document's top-level structure.
- **The two video generators.** These are `video_creator.py` (sorted keys,
  optional subtitles chosen through `subtitle_handler.py`) and
  `generate-video.py` (document order, always bottom subtitles). Both turn
  the document into a clip plan: image intervals, a black fallback
  background, and one-second subtitles.
- **The WebVTT printer.** `audio-transcription.py` writes cue timings as
  `HH:MM:SS.mmm`, the timestamp syntax of section 4.1 of the W3C WebVTT
  specification.
- **Image helpers.** The image animator's helpers validate image extensions
  and build unique output names.

Python semantics are written out where the scripts depend on them:

- `round` rounds half to even;
- `int()` on a float truncates, and `//` and `%` floor;
- `int()` on a string accepts a sign, surrounding whitespace and `_` digit
  grouping (ASCII digits only);
- `f"{n:02d}"` zero-pads;
- `str.strip`/`split` use the full `isspace` set;
- a field looked up in an object with a repeated key gets the last
  occurrence's value, as after `json.load`;
- `in` behaves differently on dicts, lists and strings.

The recogniser, moviepy, the file system, the clock, `uuid` and the console
become parameters. These are segment lists, the audio length,
`pathExists`/`isFile`/`renders` predicates, the date string, the id string,
and sequences of console lines.

Modules (one file each): `Wrappers`, `Text`, `Numerals`, `PyMath`,
`Transcript` (data model), `Bucketizer`, `Timeline`, `Json`, `JsonProcessor`,
`Codec`, `MarkerReader`, `SlotOrder`, `Clips`, `SubtitleHandler`,
`VideoCreator`, `GenerateVideo`, `Vtt`, `ImageHelpers`.

Where the code and a plain reading of the scripts' intent differ, the model
follows the code:

- **Markers follow the keys.** A second whose collected text is `""` still
  gets a marker. This happens for a blank segment whose rounded ends are
  equal.
- **The `word_second <= end_sec` guard never drops a word** when the
  rounded start is before the rounded end. Every word lands in
  `start .. end - 1`.
- **`round` is half to even.** For example, 2.5 rounds to 2.
- **Image clips are opened at every second whose entry names an existing
  image**, not only where the path changes.
- **`video_creator.py` sorts by second; `generate-video.py` does not.**
  The two agree whenever the document's seconds are already in order.

## Model

| member | source | states |
|---|---|---|
| PyMath.RoundHalfEven | audio-transcription/transcription-json.py:23-24 | the result is within one half of the input, and a tie goes to the even neighbour |
| PyMath.RoundHalfEvenUnique | audio-transcription/transcription-json.py:23-24 | any integer within one half that breaks ties to even is the rounded value, so the definition is Python's `round` |
| PyMath.RoundHalfEvenMonotone | audio-transcription/transcription-json.py:23-24 | rounding keeps `start <= end` |
| Text.WordsKeepLetters | audio-transcription/transcription-json.py:29 | `split()` loses only whitespace: the words put back together are the non-whitespace characters of the text, in order |
| Text.WordsJoinRoundTrip | audio-transcription/transcription-json.py:29 | `split()` undoes `" ".join` on non-empty words without whitespace |
| Text.WordsSplitAt | audio-transcription/transcription-json.py:29 | any whitespace character separates words: the words of `a + c + b` are the words of `a` followed by those of `b` |
| Text.WordsAppendAtSpace | audio-transcription/transcription-json.py:29 | when the second text opens with whitespace, the words of the two texts together are the words of the first followed by those of the second |
| Text.WordsOfWord | audio-transcription/transcription-json.py:29 | a non-empty text without whitespace is a single word |
| Text.Words | audio-transcription/transcription-json.py:29 | every word is non-empty and free of whitespace, and there are no words exactly when the text is blank |
| Bucketizer.Append | audio-transcription/transcription-json.py:36 | appending to one second's list adds that key and one word there and changes no other second |
| Bucketizer.AddSegment | audio-transcription/transcription-json.py:23-25 | a segment whose rounded ends agree appends its whole stripped text, unsplit, to that one second and touches nothing else |
| Bucketizer.AddSegmentContents | audio-transcription/transcription-json.py:22-38 | one segment's effect on any second is to append that segment's contribution, and a second becomes a key exactly when the segment touches it |
| Bucketizer.BucketizeContents | audio-transcription/transcription-json.py:18-38 | each second's list is the concatenation, in segment order, of what each segment contributes to it; a second is a key exactly when some segment touches it |
| Bucketizer.WordSecondInSpan | audio-transcription/transcription-json.py:30-35 | with start before end, word `i`'s second lies in `start .. end - 1`, so the `<= end_sec` guard always holds |
| Bucketizer.WordSecondMonotone | audio-transcription/transcription-json.py:33-34 | later words never go to an earlier second |
| Bucketizer.SpreadKeepsEveryWord | audio-transcription/transcription-json.py:28-36 | with start before end, every word is kept, and reading the seconds in order gives back the words in their original order |
| Bucketizer.ReversedSegmentDropsWords | audio-transcription/transcription-json.py:28-36 | when the rounded end is before the rounded start, every word fails the guard and the segment adds nothing |
| Bucketizer.BucketSecondsNonNegative | audio-transcription/transcription-json.py:23-38 | for non-negative, well-ordered segment times every bucket second is non-negative |
| Timeline.ClockRoundTrip | audio-transcription/transcription-json.py:56 | a timestamp is at least two minute digits, a colon and exactly two second digits below 60, and it reads back as the second |
| Timeline.ExpandTimeline | audio-transcription/transcription-json.py:54-73 | seconds `0 .. last` each get one slot, in order, with their own timestamp; a second gets a marker exactly when it is a key, and that marker is one more than the number of keys before it; absent seconds get text `""` |
| Timeline.ExpandFromMarkers | audio-transcription/transcription-json.py:58-67 | the markers handed out are exactly a contiguous range starting at the current counter |
| Timeline.MarkersIncrease | audio-transcription/transcription-json.py:58-67 | among seconds with markers, a later second has a larger marker |
| Timeline.Layout | audio-transcription/transcription-json.py:41-55 | no document for an empty key set; otherwise the metadata carries the audio file and date, and `total_duration` is the largest key plus one, above every key |
| Timeline.LayoutTimeline | audio-transcription/transcription-json.py:44-73 | the document covers exactly seconds `0 .. total_duration - 1`, each as described by the expansion |
| Timeline.LayoutMarkersGapFree | audio-transcription/transcription-json.py:58-67 | with non-negative keys the markers are exactly `1 .. number of keys`, with no gap |
| Timeline.TranscribeMarkersGapFree | audio-transcription/transcription-json.py:18-73 | for well-ordered, non-negative segment times the transcript's markers are `1 .. number of populated seconds` |
| Timeline.NoSegmentsNoDocument | audio-transcription/transcription-json.py:44-54 | with no segments `max()` fails and no document is produced |
| Json.HasKeyIff | audio-transcription/json-marker-reader.py:50 | an object has a key exactly when some member carries that name |
| Json.LookupLast | audio-transcription/json-marker-reader.py:9 | the value read for a key is its last occurrence, as `json.load` keeps it |
| Json.PyIn | video-generator/json_processor.py:26-29 | `key in value` holds on an object exactly when some member has that name, on a list exactly when some element is that string, on a string exactly when the key occurs at some position; any other value is a `TypeError` |
| Json.PyIndex | video-generator/json_processor.py:29 | `value[key]` succeeds exactly on an object with some member of that name, and then gives the value of the last such member; a non-object is not subscriptable and a missing name is a `KeyError` |
| JsonProcessor.Validate | video-generator/json_processor.py:23-30 | a value that passes is an object with both top-level keys |
| JsonProcessor.ValidateObject | video-generator/json_processor.py:25-30 | an object passes exactly when both keys are present and `metadata` has `audio_file` (or is a string containing it, or a list holding it) |
| JsonProcessor.MissingKeysReportedFirst | video-generator/json_processor.py:25-27 | a missing `metadata` or `segments` is reported as missing required keys, before any other check |
| JsonProcessor.MissingAudioFileReported | video-generator/json_processor.py:29-30 | with both keys present, an object `metadata` without `audio_file` is reported as the missing audio file path |
| JsonProcessor.ScalarIsTypeError | video-generator/json_processor.py:26 | a top-level number, boolean or `null` fails with a `TypeError`, not with the structure message |
| JsonProcessor.ContainerOfNamesIsTypeError | video-generator/json_processor.py:26-29 | a list or string containing both names passes the first check and then fails indexing with a `TypeError` |
| JsonProcessor.ProcessParsed | video-generator/json_processor.py:14-16 | `process` returns the loaded value unchanged exactly when it validates, and otherwise wraps the validation failure |
| JsonProcessor.ErrorTextShape | video-generator/json_processor.py:18-30 | a syntax error becomes "Invalid JSON file"; every other failure is "Error processing JSON: " followed by its message: the structure message for missing keys or a missing audio file path, or the interpreter's text for an I/O error or a `TypeError` |
| JsonProcessor.StructureErrorsDistinct | video-generator/json_processor.py:18-30 | the two structure errors read differently from each other and from the syntax error |
| Codec.DocumentRoundTrip | audio-transcription/transcription-json.py:41-78 | reading back the document as written, with `int()` on each key, gives the same document |
| Codec.WrittenDocumentValidates | video-generator/json_processor.py:23-30 | every document the transcriber writes passes the generator's structural check and is returned unchanged |
| Numerals.ParseIntRoundTrip | audio-transcription/json-marker-reader.py:37 | `int(str(n)) == n` for every integer |
| Numerals.ZeroPadDigits | audio-transcription/transcription-json.py:56 | a zero-padded count has at least the width in digits, exactly the width when it fits, and reads back as the number |
| Transcript.MarkerSet | audio-transcription/json-marker-reader.py:20-23 | the marker set holds exactly the non-null markers of the entries |
| MarkerReader.Summarize | audio-transcription/json-marker-reader.py:19-27 | the reader fails exactly when there is no marker; otherwise the total is the number of distinct markers and the range ends at the largest |
| MarkerReader.FindEntries | audio-transcription/json-marker-reader.py:40-43 | every entry found carries the requested marker and is the entry of one of the slots searched |
| MarkerReader.FindEntriesAppend | audio-transcription/json-marker-reader.py:40-43 | the lookup works slot by slot: looking up in two parts gives the two results in order |
| MarkerReader.FindEntriesComplete | audio-transcription/json-marker-reader.py:40-43 | every entry with the marker is found, at the position given by the matching entries before it, so none is missed and the order is kept |
| MarkerReader.AttachContents | audio-transcription/json-marker-reader.py:63-67 | attaching sets the path on every entry with the marker, changes nothing else of those entries, leaves every other slot as it was, and reports a change exactly when such an entry exists |
| MarkerReader.AttachIdempotent | audio-transcription/json-marker-reader.py:64-66 | attaching the same path to the same marker twice is the same as once |
| MarkerReader.AttachKeepsMarkers | audio-transcription/json-marker-reader.py:64-66 | attaching changes no marker |
| MarkerReader.ModifiedIffFound | audio-transcription/json-marker-reader.py:45-69 | the document is marked modified exactly when the lookup found entries |
| MarkerReader.ParseCommandNumber | audio-transcription/json-marker-reader.py:31-37 | typing a number in its usual notation views that marker |
| MarkerReader.ReadLine | audio-transcription/json-marker-reader.py:31-58 | the path is the text of the line between leading and trailing whitespace, empty exactly for a blank line; the answer is yes exactly for `y` or `Y`; the command is quit exactly for `q` or `Q`, a view of `n` only when `int()` reads `n`, and invalid otherwise |
| MarkerReader.ParseCommand | audio-transcription/json-marker-reader.py:31-37 | a stripped `q` or `Q` quits; any other line views `n` exactly when `int()` reads it as `n`, and is invalid when `int()` raises |
| MarkerReader.PromptRound | audio-transcription/json-marker-reader.py:29-81 | one round consumes at least one line; `q` stops it; an invalid number or a marker without entries consumes one line and changes nothing; a non-`y` answer consumes two; a missing path consumes three and writes nothing; a marker with entries, `y` and an existing path write the document with the path attached to that marker's entries; the session ends otherwise only when a prompt finds no line left |
| MarkerReader.ReadMarkers | audio-transcription/json-marker-reader.py:19-29 | the reader stops before the loop exactly when there is no marker |
| MarkerReader.QuitEndsSession | audio-transcription/json-marker-reader.py:31-34 | `q`, in either case after stripping, ends the loop at once with nothing written |
| MarkerReader.InvalidInputContinues | audio-transcription/json-marker-reader.py:36-81 | a line that is not a number is skipped without effect |
| MarkerReader.LastSaveIsFinal | audio-transcription/json-marker-reader.py:69-73 | the last document written is the one in memory at the end |
| MarkerReader.SessionKeepsSkeleton | audio-transcription/json-marker-reader.py:29-81 | no session changes any second, timestamp, text or marker, in memory or in any saved file |
| MarkerReader.MissingImageChangesNothing | audio-transcription/json-marker-reader.py:61-76 | a path that does not exist leaves the document unchanged and writes nothing |
| MarkerReader.TranscriptSummary | audio-transcription/json-marker-reader.py:20-27 | on a transcriber-written document the total and the largest marker both equal the number of populated seconds |
| SlotOrder.SortMembers | video-generator/video_creator.py:76 | sorting keeps exactly the slots it was given |
| SlotOrder.SortSorted | video-generator/video_creator.py:76 | the sorted slots are ordered by second |
| SlotOrder.SortAscending | video-generator/video_creator.py:76 | with distinct seconds, the sorted seconds strictly increase |
| SlotOrder.SortKeepsSorted | video-generator/video_creator.py:76 | slots already in order of their second are left where they are |
| Clips.MarksMembers | video-generator/video_creator.py:79 | the image seconds are exactly the slots whose entry names an existing image |
| Clips.PlanImagesIntervals | video-generator/video_creator.py:72-98 | the loop builds exactly one clip per image second, lasting until the next image second, the last until the audio's end, even when the path repeats |
| Clips.PlanImagesTile | video-generator/video_creator.py:79-98 | one clip per image second, starting there and showing its image; each clip ends where the next starts and the last ends at the audio's end |
| Clips.AscendingPlan | video-generator/video_creator.py:76-89 | over ascending seconds clip starts strictly increase and every clip but the last has a positive duration |
| SubtitleHandler.FirstAccepted | video-generator/subtitle_handler.py:11-15 | the position found holds the first accepted answer; before it, and everywhere when none is found, no answer is accepted |
| SubtitleHandler.PrefsForShape | video-generator/subtitle_handler.py:36-41 | font size 40 exactly for small and 70 exactly for big; margin 100 exactly for bottom and 0 exactly for center |
| SubtitleHandler.PrefsForInjective | video-generator/subtitle_handler.py:36-41 | different choices give different records |
| SubtitleHandler.AskShape | video-generator/subtitle_handler.py:11-41 | any completed dialogue gives the bare record or a full one with a listed size and its position's margin |
| SubtitleHandler.NoMeansHidden | video-generator/subtitle_handler.py:11-20 | invalid answers are skipped, and the first `n` gives the bare record however the console goes on |
| SubtitleHandler.ChoicesAt | video-generator/subtitle_handler.py:23-41 | the position and size questions skip unlisted answers, stop at the first listed one each, and build the full record from those two |
| SubtitleHandler.YesThenChoices | video-generator/subtitle_handler.py:11-41 | after answers that are skipped, the first `y`, the first listed position after it and the first listed size after that give the full record for them, whatever follows |
| VideoCreator.SubtitlesFromMembers | video-generator/video_creator.py:109-140 | the subtitles are exactly the non-blank texts that render, each at its second for one second with the chosen look |
| VideoCreator.SubtitlesAscending | video-generator/video_creator.py:107-135 | over ascending seconds the subtitles come in increasing order of start |
| VideoCreator.SubtitlePositionShape | video-generator/video_creator.py:114-118 | bottom subtitles sit `margin` pixels above the lower edge of the 1080-pixel frame; all others are centred |
| VideoCreator.CreateVideoBackground | video-generator/video_creator.py:23-100 | the black background is used exactly when no second shows an image and lasts the whole audio; otherwise the sorted image clips tile the track to its end |
| VideoCreator.CreateVideoOrdered | video-generator/video_creator.py:76-107 | with distinct seconds, image starts strictly increase, all but the last clip have positive durations, and subtitles are in order |
| VideoCreator.CreateVideoSubtitles | video-generator/video_creator.py:26-142 | subtitles appear only when the preferences ask for them, and then they are exactly the document's non-blank, renderable texts |
| GenerateVideo.BottomSubtitles | audio-transcription/generate-video.py:63-74 | never more subtitles than slots |
| GenerateVideo.BottomSubtitlesPlan | audio-transcription/generate-video.py:63-74 | the subtitle loop succeeds exactly when every non-blank text renders, and then yields a size-70 bottom subtitle for each, in document order |
| GenerateVideo.CreateVideoFromJsonImages | audio-transcription/generate-video.py:32-80 | the image clips follow the document's order and tile the track to the audio's end, with positive durations when seconds ascend; with no image there is one black clip of the full length |
| GenerateVideo.GeneratorsAgreeOnImages | audio-transcription/generate-video.py:33 | on a document in second order both generators build the same background |
| GenerateVideo.NormalizeMp4Shape | audio-transcription/generate-video.py:115-116 | the name ends with `.mp4` in any case; one that already did is kept, and any other gets exactly `.mp4` appended |
| GenerateVideo.NormalizeMp4Idempotent | audio-transcription/generate-video.py:115-116 | normalising twice is normalising once |
| GenerateVideo.OutputFileArgs | audio-transcription/generate-video.py:108-116 | any argument count but one is a usage error; otherwise the output name ends with `.mp4` |
| Vtt.TimestampFields | audio-transcription/audio-transcription.py:7-10 | minutes and seconds lie in `0 .. 59`; for a non-negative time hours are non-negative and the milliseconds are the whole thousandths of the fractional part, in `0 .. 999`; for a negative time the milliseconds truncate the thousandths of `x - int(x)` towards zero |
| Vtt.TimestampWholeSeconds | audio-transcription/audio-transcription.py:7-9 | hours times 3600, plus minutes times 60, plus seconds is the floor of the time |
| Vtt.TimestampRoundTrip | audio-transcription/audio-transcription.py:11 | a non-negative time prints as `HH:MM:SS.mmm` (at least two hour digits, then exactly two, two and three) and reads back as its fields |
| Vtt.LoopConcat | audio-transcription/audio-transcription.py:27-34 | the enumerating loop prints its blocks one after another, numbered from its start |
| Vtt.TranscribeToVttCues | audio-transcription/audio-transcription.py:24-34 | the output is the header followed by the `k`-th segment's cue under number `k + 1`, in order |
| Vtt.TranscribeToVttAppend | audio-transcription/audio-transcription.py:27-34 | one more segment adds one cue at the end, numbered one past those before it, and changes nothing printed earlier |
| Vtt.VttHeader | audio-transcription/audio-transcription.py:24 | the text printed from line 24 on opens with the `WEBVTT` line and an empty line |
| Vtt.CueText | audio-transcription/audio-transcription.py:34 | a cue's text has no surrounding whitespace and is empty only for a blank segment |
| ImageHelpers.ValidateImageCases | image_animator/image_animator/utils/helpers.py:18-24 | a missing file is reported as missing whatever its extension; an existing one is accepted exactly when its lowered path ends with `.png`, `.jpg` or `.jpeg`, and is otherwise rejected as unsupported |
| ImageHelpers.ValidateIgnoresCase | image_animator/image_animator/utils/helpers.py:18-24 | two existing (or two missing) paths that differ only in letter case get the same verdict: both accepted, both missing, or both unsupported |
| ImageHelpers.PathJoinShape | image_animator/image_animator/utils/helpers.py:15 | the joined path ends with the file name and starts with the directory unless the name is absolute |
| ImageHelpers.GeneratedNameShape | image_animator/image_animator/utils/helpers.py:4-15 | the path ends with `base_name + "_" + id + extension`, and so with `.mp4` by default |
| ImageHelpers.DistinctIdsDistinctNames | image_animator/image_animator/utils/helpers.py:13-15 | equal paths for the same base name, directory and extension mean equal ids, so the name is as unique as the id |

## Left out

- Whisper model loading and transcription: an external library. Its segments are the input.
- moviepy clips, compositing, encoding and `close()`: an external library. Clips are records. The audio length is a parameter, and so is whether a text clip can be built (`renders`).
- File reads and writes, `os.path.exists`/`isfile`, JSON byte syntax and pretty-printing: I/O. Existence is a predicate. Files arrive as parsed JSON values or as a `Malformed`/`Unreadable` source.
- Console input: modelled as a sequence of lines. Running out of lines ends a dialogue, as `EOFError` would. Prompt and `print` texts are not modelled, except the VTT output and error message texts.
- `datetime.now()` and `uuid.uuid4()`: passed in as a date string and an id string.
- Floating-point effects: times are exact reals. This covers `round` on floats, the rate `len(words)/total_duration`, and the millisecond fraction in `format_timestamp`.
- Vtt.TimestampRoundTrip: stated for non-negative times only. Negative times print a negative hour field and a negative millisecond field, which does not match the layout. The recogniser's times are never negative.
- Lowering is ASCII only. Every comparison the scripts make after lowering is against ASCII words or suffixes, so the outcome is the same as with full Unicode lowering.
- The text of a `TypeError` or I/O error message is a parameter. The interpreter composes it.
- The metadata printout of the marker reader and the audio lookup in both generators: they only read fields that the codec round trip already covers.
- The `main` functions of `audio-transcription.py` and `transcription-json.py`: they read the audio path from the console and exit on an empty path, which is console I/O. The catch-all handlers that print an error and exit (`audio-transcription.py:36-38`, `transcription-json.py:82-84`) are modelled only as the failure result for an empty bucket map.
- `main.py` of the video generator, the `temp` scripts and the manim animation scenes: prompt plumbing and drawing, with no data transformation.
- SlotOrder.SortBySecond: its stability is not stated as a lemma. Python's sort is stable, and the insertion sort keeps equal seconds in order. Only the order, the membership, the multiset and the "already sorted" cases are proved.
- Timeline.ExpandFrom takes the timestamp function as a parameter. `Expand` passes `Clock`, and `Clock` is characterised on its own by `ClockRoundTrip`.
- Codec.ReadSlots keeps repeated keys as separate slots. `json.load` would merge them into one member at the first position with the last value. A repeated key then gives two slots where the script sees one member, so the lookup can find an entry twice. The transcriber never writes such keys, so documents it wrote read back exactly (`Codec.DocumentRoundTrip`).
- Numerals.ParseInt: ASCII digits only. Python's `int()` also accepts other Unicode decimal digits, such as full-width ones; those lines read as invalid here. Marker numbers typed at a console are ASCII.
- JSON numbers are integers only (`Json.JNum`). A hand-edited `"marker": 1.0` is outside the model, although Python's `1.0 == 1` would match it at line 42 of `json-marker-reader.py`. The transcriber writes integer markers and durations only.
- Vtt.VttHeader: describes the text printed from line 24 of `audio-transcription.py` on. The script's standard output starts earlier, with the path prompt and the two progress lines, so redirecting it to a file does not give a valid WebVTT file.
- Codec.ReadDocument ignores members outside the schema: a hand-added field in `metadata`, at the top level or in an entry is not read, so a document the marker reader saves lacks it. The script writes the whole loaded dictionary back (line 73 of `json-marker-reader.py`), so such fields survive there. The transcriber writes no such fields.
- Duplicate keys inside an entry or in `metadata` are read as `json.load` reads them: a lookup gets the last occurrence (`Json.LookupLast`).
