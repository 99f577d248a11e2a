/** `audio-transcription.py`: recognised speech printed as WebVTT. A cue
    timing is written `HH:MM:SS.mmm`, the timestamp syntax of section 4.1 of
    the W3C WebVTT specification; the cues are numbered from 1. Times are
    exact reals, so the float rounding of `seconds - int(seconds)` is not
    modelled. */
module Vtt {
  import opened Wrappers
  import opened Text
  import opened Numerals
  import opened PyMath
  import opened Transcript

  /** The four numbers a timestamp is printed from. */
  datatype Fields = Fields(hours: int, minutes: int, secs: int, msecs: int)

  /** Lines 7-10 of `format_timestamp`. */
  function TimestampFields(x: real): (f: Fields)
    ensures 0 <= f.minutes < 60 && 0 <= f.secs < 60
    ensures x >= 0.0 ==> 0 <= f.hours && 0 <= f.msecs < 1000
    ensures x < 0.0 ==> f.hours < 0 && -1000 < f.msecs <= 0
    ensures x >= 0.0 ==> f.msecs as real <= (x - x.Floor as real) * 1000.0 < f.msecs as real + 1.0
    ensures x < 0.0 ==> f.msecs as real - 1.0 < (x - Trunc(x) as real) * 1000.0 <= f.msecs as real
  {
    Fields(FloorDiv(x, 3600.0),
           FloorDiv(FloorMod(x, 3600.0), 60.0),
           Trunc(FloorMod(x, 60.0)),
           Trunc((x - Trunc(x) as real) * 1000.0))
  }

  /** `format_timestamp(seconds)`: each field zero-padded, two digits for
      hours, minutes and seconds and three for milliseconds. */
  function FormatTimestamp(x: real): string {
    var f := TimestampFields(x);
    ZeroPad(f.hours, 2) + ":" + ZeroPad(f.minutes, 2) + ":" + ZeroPad(f.secs, 2) + "." + ZeroPad(f.msecs, 3)
  }

  /** Reads a timestamp back: hour digits, `:`, two digits, `:`, two
      digits, `.`, three digits. */
  function ParseTimestamp(t: string): Option<Fields> {
    if |t| < 12 then None
    else
      var n := |t|;
      var hh, mm, ss, mmm := t[..n - 10], t[n - 9..n - 7], t[n - 6..n - 4], t[n - 3..];
      if t[n - 10] == ':' && t[n - 7] == ':' && t[n - 4] == '.'
         && AllDigits(hh) && AllDigits(mm) && AllDigits(ss) && AllDigits(mmm)
      then Some(Fields(DigitsValue(hh), DigitsValue(mm), DigitsValue(ss), DigitsValue(mmm)))
      else None
  }

  /** One printed cue: its number, its timing line's two ends and its text. */
  datatype Cue = Cue(number: int, start: string, end: string, text: string)

  /** The cue printed for a segment under number `i`. */
  function CueOf(i: int, seg: Segment): Cue {
    Cue(i, FormatTimestamp(seg.start), FormatTimestamp(seg.end), Strip(seg.text))
  }

  /** What successive `print` calls write: each line and its newline. */
  function Printed(lines: seq<string>): string {
    if lines == [] then "" else lines[0] + "\n" + Printed(lines[1..])
  }

  /** Lines 32-34: the number, the timing line, and the text followed by an
      empty line. */
  function Render(c: Cue): string {
    Printed([IntToString(c.number), c.start + " --> " + c.end, c.text + "\n"])
  }

  /** The block the loop body prints for segment `seg` under number `i`. */
  function CueBlock(i: int, seg: Segment): string {
    Render(CueOf(i, seg))
  }

  /** The header line `print("WEBVTT\n")` writes. */
  const Header: string := "WEBVTT\n\n"

  /** `for i, segment in enumerate(segments, start)`, printing `block(i,
      segment)` each time round. */
  function Loop(segs: seq<Segment>, i: int, block: (int, Segment) -> string): string {
    if segs == [] then "" else block(i, segs[0]) + Loop(segs[1..], i + 1, block)
  }

  /** What `transcribe_to_vtt` prints for the recognised segments. */
  function TranscribeToVtt(segs: seq<Segment>): string {
    Header + Loop(segs, 1, CueBlock)
  }

  /** The blocks `block` prints for `segs`, the `k`-th under number `i + k`. */
  function Numbered(segs: seq<Segment>, i: int, block: (int, Segment) -> string): (r: seq<string>)
    ensures |r| == |segs|
  {
    seq(|segs|, k requires 0 <= k < |segs| => block(i + k, segs[k]))
  }

  /** The cue blocks stated directly: the `k`-th segment is printed as cue
      number `k + 1`. */
  function Blocks(segs: seq<Segment>): (r: seq<string>)
    ensures |r| == |segs|
  {
    Numbered(segs, 1, CueBlock)
  }

  // ---------------------------------------------------------------------

  /** Floor division by 60 is determined by its bounds. */
  lemma FloorDiv60Unique(x: real, q: int)
    requires q as real * 60.0 <= x < (q + 1) as real * 60.0
    ensures FloorDiv(x, 60.0) == q
  {
  }

  /** Hours, minutes and seconds add up to the whole seconds of `x`. */
  lemma TimestampWholeSeconds(x: real)
    ensures var f := TimestampFields(x);
            f.hours * 3600 + f.minutes * 60 + f.secs == x.Floor
  {
    var f := TimestampFields(x);
    var r1 := FloorMod(x, 3600.0);
    var r2 := FloorMod(r1, 60.0);
    assert x == f.hours as real * 3600.0 + f.minutes as real * 60.0 + r2;
    FloorDiv60Unique(x, f.hours * 60 + f.minutes);
    assert FloorMod(x, 60.0) == r2;
  }

  lemma ZeroPadWidth(n: nat, width: nat)
    requires 1 <= width && n < Pow10(width)
    ensures AllDigits(ZeroPad(n, width)) && |ZeroPad(n, width)| == width
    ensures DigitsValue(ZeroPad(n, width)) == n
  {
    NatToStringLength(n, width);
    ZeroPadDigits(n, width);
  }

  /** Where the fields and separators of `HH:MM:SS.mmm` sit, counted from
      the end. */
  lemma LayoutSlices(hh: string, mm: string, ss: string, mmm: string)
    requires |mm| == 2 && |ss| == 2 && |mmm| == 3
    ensures var t := hh + ":" + mm + ":" + ss + "." + mmm;
            var n := |t|;
            && n == |hh| + 10
            && t[n - 10] == ':' && t[n - 7] == ':' && t[n - 4] == '.'
            && t[..n - 10] == hh && t[n - 9..n - 7] == mm && t[n - 6..n - 4] == ss && t[n - 3..] == mmm
  {
    var p1 := hh + ":";
    var p2 := p1 + mm;
    var p3 := p2 + ":";
    var p4 := p3 + ss;
    var p5 := p4 + ".";
    var t := p5 + mmm;
    assert t[..|p5|] == p5 && p5[..|p4|] == p4 && p4[..|p3|] == p3 && p3[..|p2|] == p2 && p2[..|p1|] == p1;
    assert p2[|p1|..] == mm && p4[|p3|..] == ss;
  }

  /** Digit fields laid out as `HH:MM:SS.mmm` read back as their values. */
  lemma ParseLayout(hh: string, mm: string, ss: string, mmm: string)
    requires AllDigits(hh) && AllDigits(mm) && AllDigits(ss) && AllDigits(mmm)
    requires |hh| >= 2 && |mm| == 2 && |ss| == 2 && |mmm| == 3
    ensures ParseTimestamp(hh + ":" + mm + ":" + ss + "." + mmm)
            == Some(Fields(DigitsValue(hh), DigitsValue(mm), DigitsValue(ss), DigitsValue(mmm)))
  {
    LayoutSlices(hh, mm, ss, mmm);
  }

  /** For a time that is not negative the timestamp has the form
      `HH:MM:SS.mmm` (at least two hour digits, then exactly two, two and
      three) and reads back as the fields it was printed from. */
  lemma TimestampRoundTrip(x: real)
    requires x >= 0.0
    ensures |FormatTimestamp(x)| >= 12
    ensures ParseTimestamp(FormatTimestamp(x)) == Some(TimestampFields(x))
  {
    var f := TimestampFields(x);
    ZeroPadDigits(f.hours, 2);
    ZeroPadWidth(f.minutes, 2);
    ZeroPadWidth(f.secs, 2);
    ZeroPadWidth(f.msecs, 3);
    ParseLayout(ZeroPad(f.hours, 2), ZeroPad(f.minutes, 2), ZeroPad(f.secs, 2), ZeroPad(f.msecs, 3));
  }

  /** The enumerating loop prints its blocks one after another. */
  lemma {:induction false} LoopConcat(segs: seq<Segment>, i: int, block: (int, Segment) -> string)
    ensures Loop(segs, i, block) == Concat(Numbered(segs, i, block))
  {
    var blocks := Numbered(segs, i, block);
    if segs != [] {
      LoopConcat(segs[1..], i + 1, block);
      assert blocks[1..] == Numbered(segs[1..], i + 1, block);
    }
  }

  /** One more segment prints one more block at the end, numbered one past
      the segments before it; nothing printed before changes. */
  lemma LoopAppend(segs: seq<Segment>, seg: Segment, i: int, block: (int, Segment) -> string)
    ensures Loop(segs + [seg], i, block) == Loop(segs, i, block) + block(i + |segs|, seg)
  {
    var all := segs + [seg];
    LoopConcat(all, i, block);
    LoopConcat(segs, i, block);
    var blocks := Numbered(segs, i, block);
    assert Numbered(all, i, block) == blocks + [block(i + |segs|, seg)];
    ConcatAppend(blocks, [block(i + |segs|, seg)]);
    assert Concat([block(i + |segs|, seg)]) == block(i + |segs|, seg);
  }

  /** The printed file is the header followed by the `k`-th segment's block
      under number `k + 1`, in order. */
  lemma TranscribeToVttCues(segs: seq<Segment>)
    ensures TranscribeToVtt(segs) == Header + Concat(Blocks(segs))
  {
    LoopConcat(segs, 1, CueBlock);
  }

  /** Transcribing one more segment adds its cue at the end, numbered one
      past the segments before it. */
  lemma TranscribeToVttAppend(segs: seq<Segment>, seg: Segment)
    ensures TranscribeToVtt(segs + [seg]) == TranscribeToVtt(segs) + CueBlock(|segs| + 1, seg)
  {
    var f: (int, Segment) -> string := CueBlock;
    var before, c := Loop(segs, 1, f), CueBlock(|segs| + 1, seg);
    LoopAppend(segs, seg, 1, f);
    assert f(1 + |segs|, seg) == c;
    AppendAssoc(Header, before, c);
  }

  /** The output opens with the `WEBVTT` line and an empty line. */
  lemma VttHeader(segs: seq<Segment>)
    ensures |TranscribeToVtt(segs)| >= 8 && TranscribeToVtt(segs)[..8] == "WEBVTT\n\n"
  {
  }

  /** A cue's text has no surrounding whitespace and is empty only for a
      blank segment. */
  lemma CueText(i: int, seg: Segment)
    ensures var t := CueOf(i, seg).text;
            && (t == [] <==> Blank(seg.text))
            && (t == [] || (!IsSpace(t[0]) && !IsSpace(t[|t| - 1])))
  {
  }
}
