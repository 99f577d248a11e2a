/** `generate-video.py`: the older, single-script video generator. It walks
    the slots in the document's own order (no sorting), always shows
    subtitles at the bottom in size 70, and treats any failure as fatal;
    `main` takes the output name from the command line. */
module GenerateVideo {
  import opened Wrappers
  import opened Text
  import opened Transcript
  import opened Clips
  import opened SlotOrder
  import opened SubtitleHandler
  import opened VideoCreator

  /** A text clip that could not be built ends the script (`sys.exit(1)`). */
  datatype RenderError = TextClipFailed(text: string)

  /** The subtitle loop of lines 63-74, in document order. */
  function BottomSubtitles(slots: seq<Slot>, renders: string -> bool): (r: Result<seq<SubtitleClip>, RenderError>)
    ensures r.Success? ==> |r.value| <= |slots|
  {
    if slots == [] then Success([])
    else
      var s := slots[0];
      if Blank(s.entry.text) then BottomSubtitles(slots[1..], renders)
      else if !renders(s.entry.text) then Failure(TextClipFailed(s.entry.text))
      else
        var rest :- BottomSubtitles(slots[1..], renders);
        Success([SubtitleClip(s.entry.text, s.second, 1, CenterBottom, 70)] + rest)
  }

  /** `create_video_from_json` up to composition (lines 24-84). */
  function CreateVideoFromJson(doc: Document, duration: real, pathExists: string -> bool, renders: string -> bool): Result<VideoPlan, RenderError> {
    var images := PlanImages(doc.segments, pathExists, duration);
    var subtitles :- BottomSubtitles(doc.segments, renders);
    Success(VideoPlan(if images == [] then Black(duration) else Images(images), subtitles))
  }

  /** Lines 115-116: `.mp4` is added unless the name already ends with it,
      in any case. */
  function NormalizeMp4(name: string): string {
    if EndsWith(Lower(name), ".mp4") then name else name + ".mp4"
  }

  datatype UsageError = Usage

  /** `main` (lines 107-116): exactly one argument after the script name. */
  function OutputFile(argv: seq<string>): (r: Result<string, UsageError>) {
    if |argv| != 2 then Failure(Usage) else Success(NormalizeMp4(argv[1]))
  }

  // ---------------------------------------------------------------------

  lemma LowerMp4(name: string)
    ensures Lower(name + ".mp4") == Lower(name) + ".mp4"
  {
    LowerAppend(name, ".mp4");
    LowerFixed(".mp4");
  }

  /** The output name ends with `.mp4` in any case, a name that already did
      is kept, and any other gets exactly `.mp4` appended. */
  lemma NormalizeMp4Shape(name: string)
    ensures EndsWith(Lower(NormalizeMp4(name)), ".mp4")
    ensures EndsWith(Lower(name), ".mp4") <==> NormalizeMp4(name) == name
    ensures !EndsWith(Lower(name), ".mp4") <==> NormalizeMp4(name) == name + ".mp4"
  {
    var low := Lower(name + ".mp4");
    LowerMp4(name);
    assert low[|low| - 4..] == ".mp4";
    if NormalizeMp4(name) == name + ".mp4" {
      assert |name + ".mp4"| != |name|;
    }
  }

  /** Normalising twice is normalising once. */
  lemma NormalizeMp4Idempotent(name: string)
    ensures NormalizeMp4(NormalizeMp4(name)) == NormalizeMp4(name)
  {
    NormalizeMp4Shape(name);
  }

  /** Any argument count but one is a usage error. */
  lemma OutputFileArgs(argv: seq<string>)
    ensures OutputFile(argv).Failure? <==> |argv| != 2
    ensures OutputFile(argv).Success? ==> EndsWith(Lower(OutputFile(argv).value), ".mp4")
  {
    if |argv| == 2 {
      NormalizeMp4Shape(argv[1]);
    }
  }

  /** The subtitle loop succeeds exactly when every non-blank text renders,
      and then gives one bottom subtitle of size 70 per non-blank text, at
      its second, for one second, in document order. */
  lemma {:induction false} BottomSubtitlesPlan(slots: seq<Slot>, renders: string -> bool)
    ensures BottomSubtitles(slots, renders).Success? <==>
              forall i :: 0 <= i < |slots| && !Blank(slots[i].entry.text) ==> renders(slots[i].entry.text)
    ensures BottomSubtitles(slots, renders).Success? ==>
              BottomSubtitles(slots, renders).value == SubtitlesFrom(slots, 70, CenterBottom, renders)
  {
    if slots != [] {
      BottomSubtitlesPlan(slots[1..], renders);
      assert forall i :: 1 <= i < |slots| ==> slots[i] == slots[1..][i - 1];
      if BottomSubtitles(slots[1..], renders).Success? {
        assert forall i :: 0 <= i < |slots[1..]| ==> slots[1..][i] == slots[i + 1];
      }
    }
  }

  /** The image clips follow the document's order; when its seconds are
      ascending they tile the track with positive durations (all but the
      last), ending at the audio's end; without images one black clip of
      the audio's length is used. */
  lemma CreateVideoFromJsonImages(doc: Document, duration: real, pathExists: string -> bool, renders: string -> bool)
    requires CreateVideoFromJson(doc, duration, pathExists, renders).Success?
    ensures var plan := CreateVideoFromJson(doc, duration, pathExists, renders).value;
            && (plan.background.Black? <==> Marks(doc.segments, pathExists) == [])
            && (plan.background.Black? ==> plan.background.duration == duration)
            && (plan.background.Images? ==>
                  var clips := plan.background.clips;
                  && |clips| == |Marks(doc.segments, pathExists)|
                  && (forall k :: 0 <= k < |clips| ==> clips[k].start == Marks(doc.segments, pathExists)[k].second)
                  && (forall k :: 0 <= k < |clips| - 1 ==> clips[k].start as real + clips[k].duration == clips[k + 1].start as real)
                  && clips[|clips| - 1].start as real + clips[|clips| - 1].duration == duration
                  && (AscendingSeconds(doc.segments) ==> forall k :: 0 <= k < |clips| - 1 ==> clips[k].duration > 0.0))
  {
    PlanImagesTile(doc.segments, pathExists, duration);
    if AscendingSeconds(doc.segments) {
      AscendingPlan(doc.segments, pathExists, duration);
    }
  }

  /** On a document whose seconds are in order, as the transcriber writes
      it, both generators build the same image track and background; the
      sorting in `VideoCreator` makes no difference there. */
  lemma GeneratorsAgreeOnImages(doc: Document, prefs: Option<Prefs>, duration: real, pathExists: string -> bool, renders: string -> bool)
    requires SortedSeconds(doc.segments)
    requires CreateVideoFromJson(doc, duration, pathExists, renders).Success?
    ensures CreateVideoFromJson(doc, duration, pathExists, renders).value.background
            == CreateVideo(doc, prefs, duration, pathExists, renders).background
  {
    SortKeepsSorted(doc.segments);
  }
}
