/** Timeline expansion and marker assignment of
    `transcribe_with_automatic_markers`: the sparse `words_by_second` becomes
    a dense document with one entry for every second from 0 to the largest
    key, a `MM:SS` timestamp on each, and a running marker on every second
    that is a key. */
module Timeline {
  import opened Wrappers
  import opened Text
  import opened Numerals
  import opened Transcript
  import opened Bucketizer

  /** `f"{second // 60:02d}:{second % 60:02d}"`. Dafny's `/` and `%` agree
      with Python's `//` and `%` for the positive divisor 60. */
  function Clock(second: int): string {
    ZeroPad(second / 60, 2) + ":" + ZeroPad(second % 60, 2)
  }

  /** Reads an `MM:SS` timestamp back into a number of seconds. */
  function ParseClock(t: string): Option<int> {
    if |t| < 4 || t[|t| - 3] != ':' then None
    else
      var mm := t[..|t| - 3];
      var ss := t[|t| - 2..];
      if AllDigits(mm) && AllDigits(ss) then Some(60 * DigitsValue(mm) + DigitsValue(ss)) else None
  }

  /** The timestamp of a second is at least two minute digits, a colon and
      exactly two second digits in `00..59`, and it reads back as the second. */
  lemma ClockRoundTrip(second: nat)
    ensures |Clock(second)| >= 5
    ensures Clock(second)[|Clock(second)| - 3] == ':'
    ensures var ss := Clock(second)[|Clock(second)| - 2..];
            AllDigits(ss) && DigitsValue(ss) == second % 60 < 60
    ensures ParseClock(Clock(second)) == Some(second)
  {
    var mm := ZeroPad(second / 60, 2);
    var ss := ZeroPad(second % 60, 2);
    ZeroPadDigits(second / 60, 2);
    ZeroPadDigits(second % 60, 2);
    NatToStringLength(second % 60, 2);
    var t := Clock(second);
    assert t == mm + ":" + ss;
    assert t[..|t| - 3] == mm;
    assert t[|t| - 2..] == ss;
  }

  /** The seconds from 0 up to (excluding) `x` that are keys. */
  function KeysBelow(m: Buckets, x: int): set<int> {
    set k | k in m && 0 <= k < x
  }

  /** The entries the expansion writes from `second` to `last`: the joined
      words and the next marker when the second is a key, otherwise empty text
      and no marker. No entry carries an image yet. `stamp` renders a second
      as its timestamp; the script passes `Clock`. */
  function ExpandFrom(m: Buckets, stamp: int -> string, second: int, last: int, marker: int): seq<Slot>
    decreases last + 1 - second
  {
    if second > last then []
    else if second in m then
      [Slot(second, Entry(stamp(second), Join(" ", m[second]), Some(marker), None))]
        + ExpandFrom(m, stamp, second + 1, last, marker + 1)
    else
      [Slot(second, Entry(stamp(second), "", None, None))] + ExpandFrom(m, stamp, second + 1, last, marker)
  }

  /** `for second in range(max_second + 1)` with `current_marker` starting at 1. */
  function Expand(m: Buckets, last: int): seq<Slot> {
    ExpandFrom(m, Clock, 0, last, 1)
  }

  /** The marker a second receives: one more than the number of keys before
      it, i.e. the k-th key in ascending order gets marker k. */
  function MarkerOf(m: Buckets, second: int): Option<int> {
    if second in m then Some(1 + |KeysBelow(m, second)|) else None
  }

  lemma KeysBelowStep(m: Buckets, x: int)
    requires 0 <= x
    ensures |KeysBelow(m, x + 1)| == |KeysBelow(m, x)| + (if x in m then 1 else 0)
  {
    if x in m {
      assert KeysBelow(m, x + 1) == KeysBelow(m, x) + {x};
    } else {
      assert KeysBelow(m, x + 1) == KeysBelow(m, x);
    }
  }

  lemma {:induction false} ExpandFromLength(m: Buckets, stamp: int -> string, lo: int, last: int, marker: int)
    ensures |ExpandFrom(m, stamp, lo, last, marker)| == if last < lo then 0 else last + 1 - lo
    decreases last + 1 - lo
  {
    if lo <= last {
      ExpandFromLength(m, stamp, lo + 1, last, if lo in m then marker + 1 else marker);
    }
  }

  /** Entry `j` of the expansion from `lo` is second `lo + j`, with the
      joined words or `""`, and the marker `MarkerOf` describes, provided the
      counter starts as one more than the number of keys before `lo`. */
  lemma {:induction false} ExpandFromEntryAt(m: Buckets, stamp: int -> string, lo: int, last: int, marker: int, j: nat)
    requires 0 <= lo && marker == 1 + |KeysBelow(m, lo)|
    requires j < |ExpandFrom(m, stamp, lo, last, marker)|
    ensures ExpandFrom(m, stamp, lo, last, marker)[j].second == lo + j
    ensures ExpandFrom(m, stamp, lo, last, marker)[j].entry.text == Join(" ", Get(m, lo + j))
    ensures ExpandFrom(m, stamp, lo, last, marker)[j].entry.marker == MarkerOf(m, lo + j)
    ensures ExpandFrom(m, stamp, lo, last, marker)[j].entry.imagePath == None
    decreases j
  {
    ExpandFromLength(m, stamp, lo, last, marker);
    if j > 0 {
      KeysBelowStep(m, lo);
      var next := if lo in m then marker + 1 else marker;
      ExpandFromTail(m, stamp, lo, last, marker);
      ExpandFromEntryAt(m, stamp, lo + 1, last, next, j - 1);
    }
  }

  /** Every timestamp of the expansion is the `MM:SS` form of its own second. */
  lemma {:induction false} ExpandFromStamps(m: Buckets, stamp: int -> string, lo: int, last: int, marker: int)
    ensures forall j :: 0 <= j < |ExpandFrom(m, stamp, lo, last, marker)| ==>
              ExpandFrom(m, stamp, lo, last, marker)[j].entry.timestamp == stamp(ExpandFrom(m, stamp, lo, last, marker)[j].second)
    decreases last + 1 - lo
  {
    if lo <= last {
      ExpandFromTail(m, stamp, lo, last, marker);
      ExpandFromStamps(m, stamp, lo + 1, last, if lo in m then marker + 1 else marker);
    }
  }

  lemma ExpandFromTail(m: Buckets, stamp: int -> string, lo: int, last: int, marker: int)
    requires lo <= last
    ensures ExpandFrom(m, stamp, lo, last, marker)[1..] == ExpandFrom(m, stamp, lo + 1, last, if lo in m then marker + 1 else marker)
  {
  }

  /** Markers strictly increase with the second among the seconds that carry
      one. */
  lemma MarkersIncrease(m: Buckets, p: int, q: int)
    requires 0 <= p < q && p in m && q in m
    ensures MarkerOf(m, p).value < MarkerOf(m, q).value
  {
    var below := KeysBelow(m, p);
    var upto := KeysBelow(m, q);
    assert below <= upto;
    assert p in upto - below;
    assert upto == below + (upto - below);
    assert |upto| == |below| + |upto - below|;
  }

  lemma KeysBelowMonotone(m: Buckets, x: int, y: int)
    requires x <= y
    ensures |KeysBelow(m, x)| <= |KeysBelow(m, y)|
  {
    var small := KeysBelow(m, x);
    var big := KeysBelow(m, y);
    assert big == small + (big - small);
  }

  /** The markers handed out from second `lo` on are exactly the values from
      the counter up to the number of keys in `0 .. last`: no value is
      skipped. */
  lemma {:induction false} ExpandFromMarkers(m: Buckets, stamp: int -> string, lo: int, last: int, marker: int)
    requires 0 <= lo <= last + 1 && marker == 1 + |KeysBelow(m, lo)|
    ensures MarkerSet(ExpandFrom(m, stamp, lo, last, marker)) == Range(marker, 1 + |KeysBelow(m, last + 1)|)
    decreases last + 1 - lo
  {
    var r := ExpandFrom(m, stamp, lo, last, marker);
    var top := 1 + |KeysBelow(m, last + 1)|;
    ExpandFromLength(m, stamp, lo, last, marker);
    if lo <= last {
      KeysBelowStep(m, lo);
      KeysBelowMonotone(m, lo + 1, last + 1);
      var next := if lo in m then marker + 1 else marker;
      ExpandFromEntryAt(m, stamp, lo, last, marker, 0);
      ExpandFromTail(m, stamp, lo, last, marker);
      ExpandFromMarkers(m, stamp, lo + 1, last, next);
      assert MarkerSet(r) == (if r[0].entry.marker.Some? then {r[0].entry.marker.value} else {}) + MarkerSet(r[1..]);
      if lo in m {
        assert Range(marker, top) == {marker} + Range(next, top);
      }
    }
  }

  /** Why no document is produced: `max()` of an empty key set. */
  datatype TranscribeError = NoSpeechDetected

  /** The document built from `words_by_second`: seconds `0 .. max(keys)`
      with markers, and the metadata; no keys means `max()` fails. */
  function Layout(m: Buckets, audioFile: string, processedDate: string): (r: Result<Document, TranscribeError>)
    ensures r.Failure? <==> m == map[]
    ensures r.Success? ==>
              && r.value.metadata.audioFile == audioFile
              && r.value.metadata.processedDate == processedDate
              && r.value.metadata.totalDuration == MaxOf(m.Keys) + 1
              && (forall k :: k in m ==> k < r.value.metadata.totalDuration)
  {
    if m == map[] then Failure(NoSpeechDetected)
    else
      var last := MaxOf(m.Keys);
      Success(Document(Metadata(audioFile, last + 1, processedDate), Expand(m, last)))
  }

  /** `transcribe_with_automatic_markers` after the recogniser: bucketize the
      segments, then lay out the seconds. The recogniser's output and the
      clock reading are parameters. */
  function Transcribe(segs: seq<Segment>, audioFile: string, processedDate: string): Result<Document, TranscribeError>
  {
    Layout(Bucketize(segs), audioFile, processedDate)
  }

  /** Laying out seconds `0 .. last` gives one slot per second, in order, each
      stamped with its own `MM:SS`; a second carries a marker exactly when it
      is a key (whatever its text), and that marker is its rank among the keys;
      its text is the second's words joined by single spaces, and no entry has
      an image yet. */
  lemma ExpandTimeline(m: Buckets, last: int)
    ensures last >= 0 ==> |Expand(m, last)| == last + 1
    ensures last < 0 ==> Expand(m, last) == []
    ensures forall j :: 0 <= j < |Expand(m, last)| ==>
              && Expand(m, last)[j].second == j
              && Expand(m, last)[j].entry.timestamp == Clock(j)
              && (Expand(m, last)[j].entry.marker.Some? <==> j in m)
              && (j in m ==> Expand(m, last)[j].entry.marker == Some(1 + |KeysBelow(m, j)|))
              && Expand(m, last)[j].entry.text == Join(" ", Get(m, j))
              && Expand(m, last)[j].entry.imagePath == None
  {
    ExpandFromLength(m, Clock, 0, last, 1);
    ExpandFromStamps(m, Clock, 0, last, 1);
    assert KeysBelow(m, 0) == {};
    var slots := Expand(m, last);
    forall j | 0 <= j < |slots|
      ensures slots[j].second == j
      ensures slots[j].entry.text == Join(" ", Get(m, j))
      ensures slots[j].entry.marker == MarkerOf(m, j)
      ensures slots[j].entry.imagePath == None
    {
      ExpandFromEntryAt(m, Clock, 0, last, 1, j);
    }
  }

  /** The laid-out document covers exactly the seconds `0 .. total_duration - 1`,
      as `ExpandTimeline` describes. */
  lemma LayoutTimeline(m: Buckets, audioFile: string, processedDate: string)
    requires m != map[]
    ensures var doc := Layout(m, audioFile, processedDate).value;
            && (doc.metadata.totalDuration >= 1 ==> |doc.segments| == doc.metadata.totalDuration)
            && (doc.metadata.totalDuration < 1 ==> doc.segments == [])
            && forall j :: 0 <= j < |doc.segments| ==>
                 && doc.segments[j].second == j
                 && doc.segments[j].entry.timestamp == Clock(j)
                 && (doc.segments[j].entry.marker.Some? <==> j in m)
                 && (j in m ==> doc.segments[j].entry.marker == Some(1 + |KeysBelow(m, j)|))
                 && doc.segments[j].entry.text == Join(" ", Get(m, j))
                 && doc.segments[j].entry.imagePath == None
  {
    ExpandTimeline(m, MaxOf(m.Keys));
  }

  /** When every key is a non-negative second, the markers handed out while
      laying out `0 .. max(keys)` are exactly `1 .. |keys|`. */
  lemma LayoutMarkersGapFree(m: Buckets, audioFile: string, processedDate: string)
    requires m != map[]
    requires forall k :: k in m ==> 0 <= k
    ensures MarkerSet(Layout(m, audioFile, processedDate).value.segments) == Range(1, |m| + 1)
  {
    var last := MaxOf(m.Keys);
    assert KeysBelow(m, 0) == {};
    ExpandFromMarkers(m, Clock, 0, last, 1);
    assert KeysBelow(m, last + 1) == m.Keys;
  }

  /** With non-negative, well-ordered segment times, the transcript's markers
      are exactly `1 .. |words_by_second|`, one per second that received
      something. */
  lemma TranscribeMarkersGapFree(segs: seq<Segment>, audioFile: string, processedDate: string)
    requires Transcribe(segs, audioFile, processedDate).Success?
    requires forall j :: 0 <= j < |segs| ==> 0.0 <= segs[j].start <= segs[j].end
    ensures MarkerSet(Transcribe(segs, audioFile, processedDate).value.segments)
            == Range(1, |Bucketize(segs)| + 1)
  {
    var m := Bucketize(segs);
    assert Transcribe(segs, audioFile, processedDate) == Layout(m, audioFile, processedDate);
    BucketSecondsNonNegative(segs);
    LayoutMarkersGapFree(m, audioFile, processedDate);
  }

  /** No segments, no document: the empty key set makes `max()` fail. */
  lemma NoSegmentsNoDocument(audioFile: string, processedDate: string)
    ensures Transcribe([], audioFile, processedDate) == Failure(NoSpeechDetected)
  {
  }
}
