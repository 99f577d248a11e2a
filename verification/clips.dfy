/** The image track both video generators build from a transcript: walking
    the slots, every second whose entry names an existing image closes the
    clip that is open (it lasts until this second) and opens a new one here,
    even when the path is the one already showing; the clip still open at
    the end lasts until the end of the audio. The audio length is a
    parameter, and so is file existence. */
module Clips {
  import opened Wrappers
  import opened Transcript

  /** An image shown from second `start` for `duration` seconds. */
  datatype ImageClip = ImageClip(path: string, start: int, duration: real)

  /** A second at which an image is to appear. */
  datatype Mark = Mark(second: int, path: string)

  /** `"image_path" in segment and os.path.exists(segment["image_path"])` */
  predicate ShowsImage(e: Entry, pathExists: string -> bool) {
    e.imagePath.Some? && pathExists(e.imagePath.value)
  }

  /** The seconds that show an image, in the order the slots are walked. */
  function Marks(slots: seq<Slot>, pathExists: string -> bool): (r: seq<Mark>)
    ensures |r| <= |slots|
  {
    if slots == [] then []
    else
      (if ShowsImage(slots[0].entry, pathExists) then [Mark(slots[0].second, slots[0].entry.imagePath.value)] else [])
      + Marks(slots[1..], pathExists)
  }

  /** The clip still open when the walk ends. */
  function Closing(current: Option<Mark>, duration: real): seq<ImageClip> {
    match current
    case None => []
    case Some(m) => [ImageClip(m.path, m.second, duration - m.second as real)]
  }

  /** The loop over the slots with `current_image`/`current_start` as the
      open clip `current` (`None` before the first image). */
  function PlanFrom(slots: seq<Slot>, pathExists: string -> bool, current: Option<Mark>, duration: real): seq<ImageClip> {
    if slots == [] then Closing(current, duration)
    else
      var e := slots[0].entry;
      if ShowsImage(e, pathExists) then
        var closed := match current
          case None => []
          case Some(m) => [ImageClip(m.path, m.second, (slots[0].second - m.second) as real)];
        closed + PlanFrom(slots[1..], pathExists, Some(Mark(slots[0].second, e.imagePath.value)), duration)
      else PlanFrom(slots[1..], pathExists, current, duration)
  }

  function PlanImages(slots: seq<Slot>, pathExists: string -> bool, duration: real): seq<ImageClip> {
    PlanFrom(slots, pathExists, None, duration)
  }

  /** The image track stated directly: the clip of the `k`-th image second
      lasts until the next image second, the last one until `duration`. */
  function Intervals(marks: seq<Mark>, duration: real): (r: seq<ImageClip>)
    ensures |r| == |marks|
  {
    seq(|marks|, k requires 0 <= k < |marks| =>
      ImageClip(marks[k].path, marks[k].second,
                if k + 1 < |marks| then (marks[k + 1].second - marks[k].second) as real
                else duration - marks[k].second as real))
  }

  // ---------------------------------------------------------------------

  /** The marks are exactly the image-showing slots' seconds and paths. */
  lemma {:induction false} MarksMembers(slots: seq<Slot>, pathExists: string -> bool)
    ensures forall m :: m in Marks(slots, pathExists) <==>
              exists i :: 0 <= i < |slots| && ShowsImage(slots[i].entry, pathExists)
                          && m == Mark(slots[i].second, slots[i].entry.imagePath.value)
  {
    if slots != [] {
      var rest := Marks(slots[1..], pathExists);
      MarksMembers(slots[1..], pathExists);
      forall m ensures m in Marks(slots, pathExists) <==>
                 exists i :: 0 <= i < |slots| && ShowsImage(slots[i].entry, pathExists)
                             && m == Mark(slots[i].second, slots[i].entry.imagePath.value) {
        if m in rest {
          var i :| 0 <= i < |slots[1..]| && ShowsImage(slots[1..][i].entry, pathExists)
                   && m == Mark(slots[1..][i].second, slots[1..][i].entry.imagePath.value);
          assert slots[i + 1] == slots[1..][i];
        }
        if exists i :: 0 <= i < |slots| && ShowsImage(slots[i].entry, pathExists)
                       && m == Mark(slots[i].second, slots[i].entry.imagePath.value) {
          var i :| 0 <= i < |slots| && ShowsImage(slots[i].entry, pathExists)
                   && m == Mark(slots[i].second, slots[i].entry.imagePath.value);
          if i > 0 {
            assert slots[1..][i - 1] == slots[i];
          }
        }
      }
    }
  }

  lemma IntervalsCons(m: Mark, marks: seq<Mark>, duration: real)
    requires marks != []
    ensures Intervals([m] + marks, duration)
            == [ImageClip(m.path, m.second, (marks[0].second - m.second) as real)] + Intervals(marks, duration)
  {
    var l := Intervals([m] + marks, duration);
    var r := [ImageClip(m.path, m.second, (marks[0].second - m.second) as real)] + Intervals(marks, duration);
    forall k | 0 <= k < |l| ensures l[k] == r[k] {
      if k > 0 {
        assert ([m] + marks)[k] == marks[k - 1];
      }
    }
  }

  function Opened(current: Option<Mark>): seq<Mark> {
    if current.Some? then [current.value] else []
  }

  lemma {:induction false} PlanFromIntervals(slots: seq<Slot>, pathExists: string -> bool, current: Option<Mark>, duration: real)
    ensures PlanFrom(slots, pathExists, current, duration) == Intervals(Opened(current) + Marks(slots, pathExists), duration)
  {
    if slots == [] {
      assert Opened(current) + Marks(slots, pathExists) == Opened(current);
    } else {
      var e := slots[0].entry;
      var rest := Marks(slots[1..], pathExists);
      if ShowsImage(e, pathExists) {
        var m := Mark(slots[0].second, e.imagePath.value);
        PlanFromIntervals(slots[1..], pathExists, Some(m), duration);
        assert Marks(slots, pathExists) == [m] + rest;
        match current
        case None =>
          assert Opened(current) + Marks(slots, pathExists) == [m] + rest;
        case Some(c) =>
          assert Opened(current) + Marks(slots, pathExists) == [c] + ([m] + rest);
          IntervalsCons(c, [m] + rest, duration);
      } else {
        PlanFromIntervals(slots[1..], pathExists, current, duration);
        assert Marks(slots, pathExists) == rest;
      }
    }
  }

  /** The loop builds exactly the intervals between consecutive image
      seconds: one clip per image second, showing that second's image. */
  lemma PlanImagesIntervals(slots: seq<Slot>, pathExists: string -> bool, duration: real)
    ensures PlanImages(slots, pathExists, duration) == Intervals(Marks(slots, pathExists), duration)
  {
    PlanFromIntervals(slots, pathExists, None, duration);
    assert Opened(None) + Marks(slots, pathExists) == Marks(slots, pathExists);
  }

  /** The intervals tile the track: each ends where the next starts, and
      the last ends at `duration`. */
  lemma IntervalsTile(marks: seq<Mark>, duration: real)
    ensures var clips := Intervals(marks, duration);
            && (forall k :: 0 <= k < |clips| - 1 ==> clips[k].start as real + clips[k].duration == clips[k + 1].start as real)
            && (clips != [] ==> clips[|clips| - 1].start as real + clips[|clips| - 1].duration == duration)
  {
  }

  /** One clip per image second, starting there and showing its image; the
      clips tile the track up to `duration`. */
  lemma PlanImagesTile(slots: seq<Slot>, pathExists: string -> bool, duration: real)
    ensures var clips := PlanImages(slots, pathExists, duration);
            var marks := Marks(slots, pathExists);
            && |clips| == |marks|
            && (forall k :: 0 <= k < |clips| ==> clips[k].start == marks[k].second && clips[k].path == marks[k].path)
            && (forall k :: 0 <= k < |clips| - 1 ==> clips[k].start as real + clips[k].duration == clips[k + 1].start as real)
            && (clips != [] ==> clips[|clips| - 1].start as real + clips[|clips| - 1].duration == duration)
  {
    var marks := Marks(slots, pathExists);
    PlanImagesIntervals(slots, pathExists, duration);
    IntervalsTile(marks, duration);
  }

  /** Strictly increasing seconds. */
  predicate AscendingMarks(marks: seq<Mark>) {
    forall i, j :: 0 <= i < j < |marks| ==> marks[i].second < marks[j].second
  }

  lemma {:induction false} MarksAbove(slots: seq<Slot>, pathExists: string -> bool, lo: int)
    requires forall i :: 0 <= i < |slots| ==> lo < slots[i].second
    ensures forall k :: 0 <= k < |Marks(slots, pathExists)| ==> lo < Marks(slots, pathExists)[k].second
  {
    if slots != [] {
      MarksAbove(slots[1..], pathExists, lo);
    }
  }

  /** Walking slots in ascending order meets the image seconds in ascending
      order. */
  lemma {:induction false} MarksAscending(slots: seq<Slot>, pathExists: string -> bool)
    requires AscendingSeconds(slots)
    ensures AscendingMarks(Marks(slots, pathExists))
  {
    if slots != [] {
      var rest := Marks(slots[1..], pathExists);
      MarksAscending(slots[1..], pathExists);
      MarksAbove(slots[1..], pathExists, slots[0].second);
      if ShowsImage(slots[0].entry, pathExists) {
        var m := Mark(slots[0].second, slots[0].entry.imagePath.value);
        assert Marks(slots, pathExists) == [m] + rest;
      } else {
        assert Marks(slots, pathExists) == rest;
      }
    }
  }

  /** Over slots in ascending order, clip starts strictly increase and every
      clip but the last lasts a positive number of seconds. */
  lemma AscendingPlan(slots: seq<Slot>, pathExists: string -> bool, duration: real)
    requires AscendingSeconds(slots)
    ensures var clips := PlanImages(slots, pathExists, duration);
            && (forall i, j :: 0 <= i < j < |clips| ==> clips[i].start < clips[j].start)
            && (forall k :: 0 <= k < |clips| - 1 ==> clips[k].duration > 0.0)
  {
    PlanImagesIntervals(slots, pathExists, duration);
    MarksAscending(slots, pathExists);
  }
}
