/** The segment bucketizer of `transcribe_with_automatic_markers`: every
    segment's words are spread over whole-second buckets (`words_by_second`,
    a `defaultdict(list)`), in segment order and word order. */
module Bucketizer {
  import opened Text
  import opened PyMath
  import opened Transcript

  /** `words_by_second`: the words collected for each second. A second is a
      key as soon as something was appended to it, even the empty string. */
  type Buckets = map<int, seq<string>>

  /** Reading a `defaultdict(list)` without creating the key. */
  function Get(m: Buckets, k: int): seq<string> {
    if k in m then m[k] else []
  }

  /** `words_by_second[k].append(w)` */
  function Append(m: Buckets, k: int, w: string): (r: Buckets)
    ensures r.Keys == m.Keys + {k}
    ensures Get(r, k) == Get(m, k) + [w]
    ensures forall j :: j != k ==> Get(r, j) == Get(m, j)
  {
    m[k := Get(m, k) + [w]]
  }

  /** The second word `i` of `n` is sent to when a segment runs from second
      `s` to second `e`: `s + int(i / (n / (e - s)))`. */
  function WordSecond(i: nat, n: nat, s: int, e: int): int
    requires i < n && s != e
  {
    RateNonZero(n, e - s);
    s + Trunc(i as real / (n as real / (e - s) as real))
  }

  lemma RateNonZero(n: nat, d: int)
    requires n > 0 && d != 0
    ensures n as real / d as real != 0.0
  {
    var q := n as real / d as real;
    assert q * d as real == n as real;
  }

  /** The seconds of all `n` words of a segment from `s` to `e`, in word
      order. */
  function WordSeconds(n: nat, s: int, e: int): (r: seq<int>)
    requires s != e
    ensures |r| == n
    ensures forall i :: 0 <= i < n ==> r[i] == WordSecond(i, n, s, e)
  {
    seq(n, i requires 0 <= i < n => WordSecond(i, n, s, e))
  }

  /** The word loop of a multi-second segment, from word `i` on: each word is
      appended to its second `secs[i]` unless that second lies beyond `e`. */
  function Spread(m: Buckets, words: seq<string>, secs: seq<int>, i: nat, e: int): Buckets
    requires i <= |words| == |secs|
    decreases |words| - i
  {
    if i == |words| then m
    else
      var b := secs[i];
      Spread(if b <= e then Append(m, b, words[i]) else m, words, secs, i + 1, e)
  }

  /** The rounded start and end second of a segment. */
  function StartSecond(seg: Segment): int {
    RoundHalfEven(seg.start)
  }

  function EndSecond(seg: Segment): int {
    RoundHalfEven(seg.end)
  }

  /** One iteration of the segment loop. */
  function AddSegment(m: Buckets, seg: Segment): (r: Buckets)
    ensures StartSecond(seg) == EndSecond(seg) ==>
              && r.Keys == m.Keys + {StartSecond(seg)}
              && Get(r, StartSecond(seg)) == Get(m, StartSecond(seg)) + [Strip(seg.text)]
              && forall k :: k != StartSecond(seg) ==> Get(r, k) == Get(m, k)
  {
    var s := StartSecond(seg);
    var e := EndSecond(seg);
    var text := Strip(seg.text);
    if s != e then
      var words := Words(text);
      Spread(m, words, WordSeconds(|words|, s, e), 0, e)
    else Append(m, s, text)
  }

  /** `words_by_second` after all segments, processed in the given order. */
  function Bucketize(segs: seq<Segment>): Buckets
  {
    if segs == [] then map[] else AddSegment(Bucketize(segs[..|segs| - 1]), segs[|segs| - 1])
  }

  // ---------------------------------------------------------------------
  // An independent description of what a segment contributes to a second.

  /** The words from index `i` on that the loop keeps in second `k`, in order. */
  function Kept(words: seq<string>, secs: seq<int>, i: nat, e: int, k: int): seq<string>
    requires i <= |words| == |secs|
    decreases |words| - i
  {
    if i == |words| then []
    else
      var b := secs[i];
      (if b == k && b <= e then [words[i]] else []) + Kept(words, secs, i + 1, e, k)
  }

  /** What one segment adds to second `k`. */
  function Contribution(seg: Segment, k: int): seq<string> {
    var s := StartSecond(seg);
    var e := EndSecond(seg);
    if s == e then (if k == s then [Strip(seg.text)] else [])
    else
      var words := Words(Strip(seg.text));
      Kept(words, WordSeconds(|words|, s, e), 0, e, k)
  }

  /** Whether processing `seg` makes `k` a key of `words_by_second`: a
      single-second segment always does (even with empty text); a
      multi-second one only where a word lands. */
  predicate Touches(seg: Segment, k: int) {
    if StartSecond(seg) == EndSecond(seg) then k == StartSecond(seg)
    else Contribution(seg, k) != []
  }

  /** Everything the segments contribute to second `k`, segment by segment. */
  function Collected(segs: seq<Segment>, k: int): seq<string> {
    if segs == [] then [] else Collected(segs[..|segs| - 1], k) + Contribution(segs[|segs| - 1], k)
  }

  /** The word loop appends exactly the kept words, in word order, and creates
      exactly the seconds where a word is kept. */
  lemma {:induction false} SpreadContentsAt(m: Buckets, words: seq<string>, secs: seq<int>, i: nat, e: int, k: int)
    requires i <= |words| == |secs|
    ensures Get(Spread(m, words, secs, i, e), k) == Get(m, k) + Kept(words, secs, i, e, k)
    ensures k in Spread(m, words, secs, i, e) <==> k in m || Kept(words, secs, i, e, k) != []
    decreases |words| - i
  {
    if i < |words| {
      var b := secs[i];
      var m' := if b <= e then Append(m, b, words[i]) else m;
      var head: seq<string> := if b == k && b <= e then [words[i]] else [];
      var rest := Kept(words, secs, i + 1, e, k);
      SpreadContentsAt(m', words, secs, i + 1, e, k);
      assert Get(m', k) == Get(m, k) + head;
      assert (Get(m, k) + head) + rest == Get(m, k) + (head + rest);
    }
  }

  /** A segment's effect on `words_by_second` at second `k`. */
  lemma AddSegmentContents(m: Buckets, seg: Segment, k: int)
    ensures Get(AddSegment(m, seg), k) == Get(m, k) + Contribution(seg, k)
    ensures k in AddSegment(m, seg) <==> k in m || Touches(seg, k)
  {
    var s := StartSecond(seg);
    var e := EndSecond(seg);
    if s != e {
      var words := Words(Strip(seg.text));
      SpreadContentsAt(m, words, WordSeconds(|words|, s, e), 0, e, k);
    }
  }

  /** Some segment of `segs` touches second `k`. */
  predicate AnyTouches(segs: seq<Segment>, k: int) {
    segs != [] && (AnyTouches(segs[..|segs| - 1], k) || Touches(segs[|segs| - 1], k))
  }

  lemma {:induction false} AnyTouchesWitness(segs: seq<Segment>, k: int)
    ensures AnyTouches(segs, k) <==> exists j :: 0 <= j < |segs| && Touches(segs[j], k)
  {
    if segs != [] {
      var init := segs[..|segs| - 1];
      AnyTouchesWitness(init, k);
      if AnyTouches(init, k) {
        var j :| 0 <= j < |init| && Touches(init[j], k);
        assert segs[j] == init[j];
      }
      if exists j :: 0 <= j < |segs| && Touches(segs[j], k) {
        var j :| 0 <= j < |segs| && Touches(segs[j], k);
        if j < |init| {
          assert segs[j] == init[j];
        }
      }
    }
  }

  lemma {:induction false} BucketizeContentsAt(segs: seq<Segment>, k: int)
    ensures Get(Bucketize(segs), k) == Collected(segs, k)
    ensures k in Bucketize(segs) <==> AnyTouches(segs, k)
  {
    if segs != [] {
      var init := segs[..|segs| - 1];
      BucketizeContentsAt(init, k);
      AddSegmentContents(Bucketize(init), segs[|segs| - 1], k);
    }
  }

  /** Each second's list holds the contributions of the segments in segment
      order (and, within a segment, in word order); a second is a key exactly
      when some segment touches it. */
  lemma BucketizeContents(segs: seq<Segment>)
    ensures forall k :: Get(Bucketize(segs), k) == Collected(segs, k)
    ensures forall k :: k in Bucketize(segs) <==> exists j :: 0 <= j < |segs| && Touches(segs[j], k)
  {
    forall k
      ensures Get(Bucketize(segs), k) == Collected(segs, k)
      ensures k in Bucketize(segs) <==> exists j :: 0 <= j < |segs| && Touches(segs[j], k)
    {
      BucketizeContentsAt(segs, k);
      AnyTouchesWitness(segs, k);
    }
  }

  // ---------------------------------------------------------------------
  // Multi-second segments lose no word.

  /** When `s < e`, word `i`'s second lies in `[s, e - 1]`, so the `<= e`
      guard always holds and the end second itself never receives a word. */
  lemma WordSecondInSpan(i: nat, n: nat, s: int, e: int)
    requires i < n && s < e
    ensures s <= WordSecond(i, n, s, e) <= e - 1
  {
    var d := (e - s) as real;
    var rate := n as real / d;
    RateNonZero(n, e - s);
    assert rate * d == n as real;
    var x := i as real / rate;
    assert x * rate == i as real;
    assert rate > 0.0;
    assert 0.0 <= x;
    if x >= d {
      MulLeq(d, x, rate);
      assert false;
    }
  }

  /** Later words never go to an earlier second. */
  lemma WordSecondMonotone(i: nat, j: nat, n: nat, s: int, e: int)
    requires i <= j < n && s < e
    ensures WordSecond(i, n, s, e) <= WordSecond(j, n, s, e)
  {
    var d := (e - s) as real;
    var rate := n as real / d;
    RateNonZero(n, e - s);
    assert rate * d == n as real;
    assert rate > 0.0;
    var x := i as real / rate;
    var y := j as real / rate;
    assert x * rate == i as real && y * rate == j as real;
    if x > y {
      MulLt(y, x, rate);
      assert false;
    }
  }

  /** The seconds of a segment's words never decrease. */
  predicate NonDecreasing(secs: seq<int>) {
    forall i, j :: 0 <= i <= j < |secs| ==> secs[i] <= secs[j]
  }

  /** Every word's second is below `e`. */
  predicate AllBelow(secs: seq<int>, e: int) {
    forall i :: 0 <= i < |secs| ==> secs[i] < e
  }

  /** With `start < end` the word seconds climb from `s` and stay below `e`. */
  lemma WordSecondsShape(n: nat, s: int, e: int)
    requires s < e
    ensures NonDecreasing(WordSeconds(n, s, e)) && AllBelow(WordSeconds(n, s, e), e)
    ensures forall i :: 0 <= i < n ==> s <= WordSeconds(n, s, e)[i]
  {
    var secs := WordSeconds(n, s, e);
    forall i, j | 0 <= i <= j < n ensures secs[i] <= secs[j] {
      WordSecondMonotone(i, j, n, s, e);
    }
    forall i | 0 <= i < n ensures s <= secs[i] < e {
      WordSecondInSpan(i, n, s, e);
    }
  }

  /** The words of seconds `lo .. hi - 1`, second by second. */
  function Gather(words: seq<string>, secs: seq<int>, i: nat, e: int, lo: int, hi: int): seq<string>
    requires i <= |words| == |secs|
    decreases hi - lo
  {
    if lo >= hi then [] else Kept(words, secs, i, e, lo) + Gather(words, secs, i, e, lo + 1, hi)
  }

  lemma {:induction false} GatherSplit(words: seq<string>, secs: seq<int>, i: nat, e: int, lo: int, mid: int, hi: int)
    requires i <= |words| == |secs| && lo <= mid <= hi
    ensures Gather(words, secs, i, e, lo, hi) == Gather(words, secs, i, e, lo, mid) + Gather(words, secs, i, e, mid, hi)
    decreases mid - lo
  {
    if lo < mid {
      GatherSplit(words, secs, i, e, lo + 1, mid, hi);
    }
  }

  /** No word from index `i` on is kept in a second below word `i`'s. */
  lemma {:induction false} KeptBelow(words: seq<string>, secs: seq<int>, i: nat, e: int, k: int)
    requires i < |words| == |secs| && NonDecreasing(secs) && k < secs[i]
    ensures Kept(words, secs, i, e, k) == []
    decreases |words| - i
  {
    if i + 1 < |words| {
      KeptBelow(words, secs, i + 1, e, k);
    }
  }

  lemma {:induction false} GatherBelow(words: seq<string>, secs: seq<int>, i: nat, e: int, lo: int, hi: int)
    requires i < |words| == |secs| && NonDecreasing(secs) && hi <= secs[i]
    ensures Gather(words, secs, i, e, lo, hi) == []
    decreases hi - lo
  {
    if lo < hi {
      KeptBelow(words, secs, i, e, lo);
      GatherBelow(words, secs, i, e, lo + 1, hi);
    }
  }

  lemma {:induction false} GatherAfterEnd(words: seq<string>, secs: seq<int>, e: int, lo: int, hi: int)
    requires |words| == |secs|
    ensures Gather(words, secs, |words|, e, lo, hi) == []
    decreases hi - lo
  {
    if lo < hi {
      GatherAfterEnd(words, secs, e, lo + 1, hi);
    }
  }

  /** Above word `i`'s second, word `i` contributes nothing. */
  lemma {:induction false} GatherSkipsWord(words: seq<string>, secs: seq<int>, i: nat, e: int, lo: int, hi: int)
    requires i < |words| == |secs| && secs[i] < lo
    ensures Gather(words, secs, i, e, lo, hi) == Gather(words, secs, i + 1, e, lo, hi)
    decreases hi - lo
  {
    if lo < hi {
      GatherSkipsWord(words, secs, i, e, lo + 1, hi);
    }
  }

  /** Word `i`'s own second holds word `i` first; the seconds after it hold
      nothing of word `i`. */
  lemma GatherAtWord(words: seq<string>, secs: seq<int>, i: nat, e: int)
    requires i < |words| == |secs| && secs[i] < e
    ensures Gather(words, secs, i, e, secs[i], e) == [words[i]] + Gather(words, secs, i + 1, e, secs[i], e)
  {
    var b := secs[i];
    GatherSkipsWord(words, secs, i, e, b + 1, e);
    var later := Gather(words, secs, i + 1, e, b + 1, e);
    assert Kept(words, secs, i, e, b) == [words[i]] + Kept(words, secs, i + 1, e, b);
    assert Gather(words, secs, i, e, b, e) == ([words[i]] + Kept(words, secs, i + 1, e, b)) + later;
  }

  /** Reading the seconds `lo .. e - 1` in order gives back the words from
      index `i` on, provided no such word goes below `lo` or reaches `e`. */
  lemma {:induction false} GatherFrom(words: seq<string>, secs: seq<int>, i: nat, e: int, lo: int)
    requires i <= |words| == |secs| && NonDecreasing(secs) && AllBelow(secs, e) && lo <= e
    requires i < |words| ==> lo <= secs[i]
    ensures Gather(words, secs, i, e, lo, e) == words[i..]
    decreases |words| - i
  {
    if i == |words| {
      GatherAfterEnd(words, secs, e, lo, e);
    } else {
      var b := secs[i];
      GatherSplit(words, secs, i, e, lo, b, e);
      GatherBelow(words, secs, i, e, lo, b);
      GatherAtWord(words, secs, i, e);
      GatherFrom(words, secs, i + 1, e, b);
      assert words[i..] == [words[i]] + words[i + 1..];
    }
  }

  /** In a segment whose rounded start is before its rounded end, no word is
      dropped: every word lands in `[start_sec, end_sec - 1]`, and reading
      those seconds in order gives back exactly the segment's words. */
  lemma SpreadKeepsEveryWord(seg: Segment)
    requires StartSecond(seg) < EndSecond(seg)
    ensures var n := |Words(Strip(seg.text))|;
            forall i :: 0 <= i < n ==>
              StartSecond(seg) <= WordSecond(i, n, StartSecond(seg), EndSecond(seg)) < EndSecond(seg)
    ensures var words := Words(Strip(seg.text));
            Gather(words, WordSeconds(|words|, StartSecond(seg), EndSecond(seg)), 0, EndSecond(seg), StartSecond(seg), EndSecond(seg))
            == words
  {
    var words := Words(Strip(seg.text));
    var s := StartSecond(seg);
    var e := EndSecond(seg);
    WordSecondsShape(|words|, s, e);
    GatherFrom(words, WordSeconds(|words|, s, e), 0, e, s);
  }

  /** A segment whose rounded end is before its rounded start sends every word
      past `end_sec`, so the guard drops them all. */
  lemma ReversedSegmentDropsWords(seg: Segment, k: int)
    requires StartSecond(seg) > EndSecond(seg)
    ensures Contribution(seg, k) == [] && !Touches(seg, k)
  {
    var words := Words(Strip(seg.text));
    var s := StartSecond(seg);
    var e := EndSecond(seg);
    var secs := WordSeconds(|words|, s, e);
    forall i | 0 <= i < |words| ensures secs[i] > e {
      WordSecondReversed(i, |words|, s, e);
    }
    KeptNone(words, secs, 0, e, k);
  }

  lemma {:induction false} KeptNone(words: seq<string>, secs: seq<int>, i: nat, e: int, k: int)
    requires i <= |words| == |secs|
    requires forall j :: i <= j < |secs| ==> secs[j] > e
    ensures Kept(words, secs, i, e, k) == []
    decreases |words| - i
  {
    if i < |words| {
      KeptNone(words, secs, i + 1, e, k);
    }
  }

  /** When `s > e`, word `i`'s second lies in `[e + 1, s]`. */
  lemma WordSecondReversed(i: nat, n: nat, s: int, e: int)
    requires i < n && s > e
    ensures e < WordSecond(i, n, s, e) <= s
  {
    var d := (e - s) as real;
    var rate := n as real / d;
    RateNonZero(n, e - s);
    assert rate * d == n as real;
    assert rate < 0.0;
    var x := i as real / rate;
    assert x * rate == i as real;
    assert x <= 0.0;
    if x <= d {
      MulLeq(-x, -d, -rate);
      assert false;
    }
  }

  /** With non-negative, well-ordered segment times every bucket second is
      non-negative, so the timeline starting at second 0 covers all of them. */
  lemma {:induction false} BucketSecondsNonNegative(segs: seq<Segment>)
    requires forall j :: 0 <= j < |segs| ==> 0.0 <= segs[j].start <= segs[j].end
    ensures forall k :: k in Bucketize(segs) ==> 0 <= k
  {
    BucketizeContents(segs);
    forall k | k in Bucketize(segs) ensures 0 <= k {
      var j :| 0 <= j < |segs| && Touches(segs[j], k);
      var seg := segs[j];
      RoundHalfEvenMonotone(0.0, seg.start);
      RoundHalfEvenMonotone(seg.start, seg.end);
      if StartSecond(seg) != EndSecond(seg) {
        var words := Words(Strip(seg.text));
        var i := KeptWitness(words, WordSeconds(|words|, StartSecond(seg), EndSecond(seg)), 0, EndSecond(seg), k);
        WordSecondInSpan(i, |words|, StartSecond(seg), EndSecond(seg));
      }
    }
  }

  /** A second that received a word received it from some word index. */
  lemma {:induction false} KeptWitness(words: seq<string>, secs: seq<int>, i: nat, e: int, k: int) returns (w: nat)
    requires i <= |words| == |secs| && Kept(words, secs, i, e, k) != []
    ensures i <= w < |words| && secs[w] == k
    decreases |words| - i
  {
    if secs[i] == k {
      w := i;
    } else {
      w := KeptWitness(words, secs, i + 1, e, k);
    }
  }
}
