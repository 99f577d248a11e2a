/** The data the scripts pass between each other: speech segments from the
    recogniser, and the transcript document (`transcription_markers.json`)
    with one entry per second. Seconds are genuine integers here; they become
    string keys only when the document is written as JSON. */
module Transcript {
  import opened Wrappers

  /** One recognised stretch of speech: start and end in seconds, and text. */
  datatype Segment = Segment(start: real, end: real, text: string)

  /** The record stored under one second. `imagePath` is absent until an image
      is attached to the entry's marker. */
  datatype Entry = Entry(timestamp: string, text: string, marker: Option<int>, imagePath: Option<string>)

  /** One key/value pair of the document's `segments` object, in file order. */
  datatype Slot = Slot(second: int, entry: Entry)

  datatype Metadata = Metadata(audioFile: string, totalDuration: int, processedDate: string)

  datatype Document = Document(metadata: Metadata, segments: seq<Slot>)

  /** No second appears twice (a JSON object has distinct keys). */
  predicate DistinctSeconds(slots: seq<Slot>) {
    forall i, j :: 0 <= i < j < |slots| ==> slots[i].second != slots[j].second
  }

  /** Seconds never decrease along the sequence. */
  predicate SortedSeconds(slots: seq<Slot>) {
    forall i, j :: 0 <= i < j < |slots| ==> slots[i].second <= slots[j].second
  }

  /** Seconds strictly increase along the sequence. */
  predicate AscendingSeconds(slots: seq<Slot>) {
    forall i, j :: 0 <= i < j < |slots| ==> slots[i].second < slots[j].second
  }

  /** The distinct non-null markers of the entries. */
  function MarkerSet(slots: seq<Slot>): (r: set<int>)
    ensures forall v :: v in r <==> exists i :: 0 <= i < |slots| && slots[i].entry.marker == Some(v)
  {
    if slots == [] then {}
    else
      var rest := MarkerSet(slots[1..]);
      assert forall i :: 1 <= i < |slots| ==> slots[i] == slots[1..][i - 1];
      (if slots[0].entry.marker.Some? then {slots[0].entry.marker.value} else {}) + rest
  }

  /** The integers `lo .. hi - 1`. */
  function Range(lo: int, hi: int): (r: set<int>)
    ensures forall v :: v in r <==> lo <= v < hi
    decreases hi - lo
  {
    if lo >= hi then {} else {lo} + Range(lo + 1, hi)
  }

  /** The largest element of a non-empty set of seconds (`max(keys)`). */
  function MaxOf(s: set<int>): (r: int)
    requires s != {}
    ensures r in s && forall k :: k in s ==> k <= r
  {
    MaxExists(s);
    var r :| r in s && forall k :: k in s ==> k <= r;
    r
  }

  lemma MaxExists(s: set<int>)
    requires s != {}
    ensures exists r :: r in s && forall k :: k in s ==> k <= r
    decreases |s|
  {
    HasElement(s);
    var x :| x in s;
    if s != {x} {
      MaxExists(s - {x});
      var y :| y in s - {x} && forall k :: k in s - {x} ==> k <= y;
      var r := if x > y then x else y;
      forall k | k in s ensures k <= r {
        if k != x {
          assert k in s - {x};
        }
      }
    } else {
      assert forall k :: k in s ==> k == x;
    }
  }

  lemma HasElement(s: set<int>)
    requires s != {}
    ensures exists x :: x in s
  {
    if forall x :: x !in s {
      assert false;
    }
  }

  /** `Range(lo, hi)` holds `hi - lo` values. */
  lemma {:induction false} RangeSize(lo: int, hi: int)
    requires lo <= hi
    ensures |Range(lo, hi)| == hi - lo
    decreases hi - lo
  {
    if lo < hi {
      RangeSize(lo + 1, hi);
      assert lo !in Range(lo + 1, hi);
    }
  }

  lemma SortedDistinctAscending(slots: seq<Slot>)
    requires SortedSeconds(slots) && DistinctSeconds(slots)
    ensures AscendingSeconds(slots)
  {
  }
}
