/** `VideoCreator` of the video generator: the clip plan it composes from a
    loaded transcript. moviepy clips become plain records; the audio length,
    file existence and whether a text clip can be rendered are parameters. */
module VideoCreator {
  import opened Wrappers
  import opened Text
  import opened Transcript
  import opened Clips
  import opened SlotOrder
  import opened SubtitleHandler

  /** `self.video_size` */
  const VideoWidth := 1920
  const VideoHeight := 1080

  /** Where a subtitle is anchored: `('center', 'center')`, centred
      horizontally at height `y`, or `('center', 'bottom')`. */
  datatype Position = Centered | CenterAt(y: int) | CenterBottom

  /** A text shown from second `start` for `duration` seconds. */
  datatype SubtitleClip = SubtitleClip(text: string, start: int, duration: int, position: Position, fontsize: int)

  /** What lies under the subtitles: the image clips, or, when there are
      none, one black clip as long as the audio. */
  datatype Background = Images(clips: seq<ImageClip>) | Black(duration: real)

  datatype VideoPlan = VideoPlan(background: Background, subtitles: seq<SubtitleClip>)

  /** Lines 114-118. */
  function SubtitlePosition(position: Placement, margin: int): Position {
    if position == Bottom then CenterAt(VideoHeight - margin) else Centered
  }

  /** The subtitle loop: one clip per slot whose text is not blank, unless
      building it fails (`renders` is false), in which case that text is
      skipped with a warning. */
  function SubtitlesFrom(slots: seq<Slot>, fontsize: int, position: Position, renders: string -> bool): (r: seq<SubtitleClip>)
    ensures |r| <= |slots|
  {
    if slots == [] then []
    else
      var s := slots[0];
      (if !Blank(s.entry.text) && renders(s.entry.text) then [SubtitleClip(s.entry.text, s.second, 1, position, fontsize)] else [])
      + SubtitlesFrom(slots[1..], fontsize, position, renders)
  }

  /** `_create_image_clips`: the image track over the slots sorted by
      second. */
  function CreateImageClips(doc: Document, pathExists: string -> bool, duration: real): seq<ImageClip> {
    PlanImages(SortBySecond(doc.segments), pathExists, duration)
  }

  /** `_create_subtitle_clips` */
  function CreateSubtitleClips(doc: Document, fontsize: int, position: Placement, margin: int, renders: string -> bool): seq<SubtitleClip> {
    SubtitlesFrom(SortBySecond(doc.segments), fontsize, SubtitlePosition(position, margin), renders)
  }

  /** `create_video` up to composition (lines 21-47): subtitles only for
      preferences that ask for them (`None` stands for no preferences). */
  function CreateVideo(doc: Document, prefs: Option<Prefs>, duration: real, pathExists: string -> bool, renders: string -> bool): VideoPlan {
    var images := CreateImageClips(doc, pathExists, duration);
    var subtitles :=
      match prefs
      case Some(Shown(fontsize, position, margin)) => CreateSubtitleClips(doc, fontsize, position, margin, renders)
      case _ => [];
    VideoPlan(if images == [] then Black(duration) else Images(images), subtitles)
  }

  // ---------------------------------------------------------------------

  /** A slot whose text is shown as a subtitle. */
  predicate Subtitled(slot: Slot, renders: string -> bool) {
    !Blank(slot.entry.text) && renders(slot.entry.text)
  }

  function ClipOf(slot: Slot, fontsize: int, position: Position): SubtitleClip {
    SubtitleClip(slot.entry.text, slot.second, 1, position, fontsize)
  }

  /** The subtitles are exactly the non-blank, renderable texts, each shown
      for one second from its own second with the given look. */
  lemma {:induction false} SubtitlesFromMembers(slots: seq<Slot>, fontsize: int, position: Position, renders: string -> bool)
    ensures forall c :: c in SubtitlesFrom(slots, fontsize, position, renders) <==>
              exists s :: s in slots && Subtitled(s, renders) && c == ClipOf(s, fontsize, position)
  {
    if slots != [] {
      var rest := SubtitlesFrom(slots[1..], fontsize, position, renders);
      SubtitlesFromMembers(slots[1..], fontsize, position, renders);
      assert slots == [slots[0]] + slots[1..];
      var head := if Subtitled(slots[0], renders) then [ClipOf(slots[0], fontsize, position)] else [];
      assert SubtitlesFrom(slots, fontsize, position, renders) == head + rest;
      forall c ensures c in SubtitlesFrom(slots, fontsize, position, renders) <==>
                 exists s :: s in slots && Subtitled(s, renders) && c == ClipOf(s, fontsize, position) {
        if c in head {
          assert slots[0] in slots;
        }
        if c in rest {
          var s :| s in slots[1..] && Subtitled(s, renders) && c == ClipOf(s, fontsize, position);
          assert s in slots;
        }
        if exists s :: s in slots && Subtitled(s, renders) && c == ClipOf(s, fontsize, position) {
          var s :| s in slots && Subtitled(s, renders) && c == ClipOf(s, fontsize, position);
          if s != slots[0] {
            var i :| 0 <= i < |slots| && slots[i] == s;
            assert slots[1..][i - 1] == s;
            assert c in rest;
          }
        }
      }
    }
  }

  lemma {:induction false} SubtitlesAbove(slots: seq<Slot>, fontsize: int, position: Position, renders: string -> bool, lo: int)
    requires forall i :: 0 <= i < |slots| ==> lo < slots[i].second
    ensures forall k :: 0 <= k < |SubtitlesFrom(slots, fontsize, position, renders)| ==>
              lo < SubtitlesFrom(slots, fontsize, position, renders)[k].start
  {
    if slots != [] {
      SubtitlesAbove(slots[1..], fontsize, position, renders, lo);
    }
  }

  /** Subtitles in strictly increasing order of their start. */
  predicate AscendingStarts(clips: seq<SubtitleClip>) {
    forall i, j :: 0 <= i < j < |clips| ==> clips[i].start < clips[j].start
  }

  /** Over slots in ascending order the subtitles come in ascending order
      of their start. */
  lemma {:induction false} SubtitlesAscending(slots: seq<Slot>, fontsize: int, position: Position, renders: string -> bool)
    requires AscendingSeconds(slots)
    ensures AscendingStarts(SubtitlesFrom(slots, fontsize, position, renders))
  {
    if slots != [] {
      var rest := SubtitlesFrom(slots[1..], fontsize, position, renders);
      SubtitlesAscending(slots[1..], fontsize, position, renders);
      SubtitlesAbove(slots[1..], fontsize, position, renders, slots[0].second);
      var s := slots[0];
      if !Blank(s.entry.text) && renders(s.entry.text) {
        var r := SubtitlesFrom(slots, fontsize, position, renders);
        assert r == [SubtitleClip(s.entry.text, s.second, 1, position, fontsize)] + rest;
        assert forall j :: 0 < j < |r| ==> r[j] == rest[j - 1];
      } else {
        assert SubtitlesFrom(slots, fontsize, position, renders) == rest;
      }
    }
  }

  /** A bottom subtitle sits `margin` pixels above the lower edge of the
      1080-pixel frame; any other is centred. */
  lemma SubtitlePositionShape(position: Placement, margin: int)
    ensures position == Bottom ==> SubtitlePosition(position, margin) == CenterAt(1080 - margin)
    ensures position == Center ==> SubtitlePosition(position, margin) == Centered
  {
  }

  /** The black background is used exactly when no second shows an image,
      and then it lasts as long as the audio; otherwise the image clips tile
      the track up to the audio's end. */
  lemma CreateVideoBackground(doc: Document, prefs: Option<Prefs>, duration: real, pathExists: string -> bool, renders: string -> bool)
    ensures var plan := CreateVideo(doc, prefs, duration, pathExists, renders);
            var marks := Marks(SortBySecond(doc.segments), pathExists);
            && (plan.background.Black? <==> marks == [])
            && (plan.background.Black? ==> plan.background.duration == duration)
            && (plan.background.Images? ==>
                  var clips := plan.background.clips;
                  && |clips| == |marks|
                  && (forall k :: 0 <= k < |clips| - 1 ==> clips[k].start as real + clips[k].duration == clips[k + 1].start as real)
                  && clips[|clips| - 1].start as real + clips[|clips| - 1].duration == duration)
  {
    PlanImagesTile(SortBySecond(doc.segments), pathExists, duration);
  }

  /** For a document with distinct seconds, image clips start at strictly
      increasing seconds and all but the last last a positive time; the
      subtitles come in order of their start. */
  lemma CreateVideoOrdered(doc: Document, prefs: Option<Prefs>, duration: real, pathExists: string -> bool, renders: string -> bool)
    requires DistinctSeconds(doc.segments)
    ensures var plan := CreateVideo(doc, prefs, duration, pathExists, renders);
            && (plan.background.Images? ==>
                  var clips := plan.background.clips;
                  && (forall i, j :: 0 <= i < j < |clips| ==> clips[i].start < clips[j].start)
                  && (forall k :: 0 <= k < |clips| - 1 ==> clips[k].duration > 0.0))
            && AscendingStarts(plan.subtitles)
  {
    var sorted := SortBySecond(doc.segments);
    SortAscending(doc.segments);
    AscendingPlan(sorted, pathExists, duration);
    if prefs.Some? && prefs.value.Shown? {
      var p := prefs.value;
      SubtitlesAscending(sorted, p.fontsize, SubtitlePosition(p.position, p.margin), renders);
      assert CreateVideo(doc, prefs, duration, pathExists, renders).subtitles
             == SubtitlesFrom(sorted, p.fontsize, SubtitlePosition(p.position, p.margin), renders);
    }
  }

  /** Subtitles appear only when the preferences ask for them, and then
      each is a non-blank text of the document, at its second, for one
      second, in the chosen size and position; every non-blank text that
      renders is shown. */
  lemma CreateVideoSubtitles(doc: Document, prefs: Option<Prefs>, duration: real, pathExists: string -> bool, renders: string -> bool)
    ensures var subs := CreateVideo(doc, prefs, duration, pathExists, renders).subtitles;
            && (!(prefs.Some? && prefs.value.Shown?) ==> subs == [])
            && (prefs.Some? && prefs.value.Shown? ==>
                  var p := prefs.value;
                  forall c :: c in subs <==>
                    exists s :: s in doc.segments && Subtitled(s, renders)
                                && c == ClipOf(s, p.fontsize, SubtitlePosition(p.position, p.margin)))
  {
    if prefs.Some? && prefs.value.Shown? {
      var p := prefs.value;
      var sorted := SortBySecond(doc.segments);
      SubtitlesFromMembers(sorted, p.fontsize, SubtitlePosition(p.position, p.margin), renders);
      SortMembers(doc.segments);
    }
  }
}
