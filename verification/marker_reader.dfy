/** `read_markers`: summarise the markers of a transcript, then answer
    marker lookups and attach images to markers until the user quits. The
    console is a sequence of input lines and file existence a predicate;
    each save is recorded as the document written. */
module MarkerReader {
  import opened Wrappers
  import opened Text
  import opened Numerals
  import opened Transcript
  import Bucketizer
  import Timeline

  /** What is printed before the loop: the number of distinct markers and
      the largest one. */
  datatype Summary = Summary(total: nat, highest: int)

  /** `max(markers)` of an empty set raises, which ends the reader through
      its generic error handler. */
  datatype ReadError = NoMarkers

  function Summarize(slots: seq<Slot>): (r: Result<Summary, ReadError>)
    ensures r.Failure? <==> MarkerSet(slots) == {}
    ensures r.Success? ==>
              && r.value.total == |MarkerSet(slots)|
              && r.value.highest in MarkerSet(slots)
              && forall v :: v in MarkerSet(slots) ==> v <= r.value.highest
  {
    var markers := MarkerSet(slots);
    if markers == {} then Failure(NoMarkers) else Success(Summary(|markers|, MaxOf(markers)))
  }

  /** The entries whose marker is `n`, in document order. */
  function FindEntries(slots: seq<Slot>, n: int): (r: seq<Entry>)
    ensures |r| <= |slots|
    ensures forall k :: 0 <= k < |r| ==> r[k].marker == Some(n)
    ensures forall k :: 0 <= k < |r| ==> exists i :: 0 <= i < |slots| && slots[i].entry == r[k]
  {
    if slots == [] then []
    else (if slots[0].entry.marker == Some(n) then [slots[0].entry] else []) + FindEntries(slots[1..], n)
  }

  /** `FindEntries` distributes over concatenation; together with its
      value on a single slot this makes it the order-preserving selection of
      exactly the entries with marker `n`. */
  lemma {:induction false} FindEntriesAppend(a: seq<Slot>, b: seq<Slot>, n: int)
    ensures FindEntries(a + b, n) == FindEntries(a, n) + FindEntries(b, n)
  {
    if a == [] {
      assert a + b == b;
    } else {
      assert (a + b)[1..] == a[1..] + b;
      FindEntriesAppend(a[1..], b, n);
      var head := if a[0].entry.marker == Some(n) then [a[0].entry] else [];
      assert FindEntries(a + b, n) == head + (FindEntries(a[1..], n) + FindEntries(b, n));
      assert FindEntries(a, n) == head + FindEntries(a[1..], n);
    }
  }

  /** Every entry with marker `n` is found, at the position given by the
      matching entries before it. */
  lemma FindEntriesComplete(slots: seq<Slot>, n: int, i: nat)
    requires i < |slots| && slots[i].entry.marker == Some(n)
    ensures var found := FindEntries(slots, n);
            var before := |FindEntries(slots[..i], n)|;
            before < |found| && found[before] == slots[i].entry
  {
    assert slots == slots[..i] + slots[i..];
    FindEntriesAppend(slots[..i], slots[i..], n);
    assert slots[i..][0] == slots[i];
  }

  /** Line 66 applied to one entry. */
  function AttachEntry(e: Entry, n: int, path: string): Entry {
    if e.marker == Some(n) then e.(imagePath := Some(path)) else e
  }

  /** The attachment loop of lines 63-67, in document order: the slots with
      `image_path` set on every entry with marker `n`, and whether any entry
      matched (`modified`). */
  function Attach(slots: seq<Slot>, n: int, path: string): (r: (seq<Slot>, bool))
    ensures |r.0| == |slots|
  {
    if slots == [] then ([], false)
    else
      var rest := Attach(slots[1..], n, path);
      ([Slot(slots[0].second, AttachEntry(slots[0].entry, n, path))] + rest.0,
       slots[0].entry.marker == Some(n) || rest.1)
  }

  /** What the attachment loop does to each slot: an entry with marker `n`
      gets the image path and keeps everything else; any other slot stays
      exactly as it was; `modified` is set iff some entry matched. */
  lemma {:induction false} AttachContents(slots: seq<Slot>, n: int, path: string)
    ensures var r := Attach(slots, n, path);
            && (forall i :: 0 <= i < |slots| ==> r.0[i].second == slots[i].second)
            && (forall i :: 0 <= i < |slots| ==>
                 r.0[i].entry == slots[i].entry.(imagePath := r.0[i].entry.imagePath))
            && (forall i :: 0 <= i < |slots| && slots[i].entry.marker == Some(n) ==> r.0[i].entry.imagePath == Some(path))
            && (forall i :: 0 <= i < |slots| && slots[i].entry.marker != Some(n) ==> r.0[i] == slots[i])
            && (r.1 <==> exists i :: 0 <= i < |slots| && slots[i].entry.marker == Some(n))
  {
    if slots != [] {
      var r := Attach(slots, n, path);
      var rest := Attach(slots[1..], n, path);
      AttachContents(slots[1..], n, path);
      assert r.0 == [Slot(slots[0].second, AttachEntry(slots[0].entry, n, path))] + rest.0;
      assert forall i :: 1 <= i < |slots| ==> slots[i] == slots[1..][i - 1] && r.0[i] == rest.0[i - 1];
      if rest.1 {
        var i :| 0 <= i < |slots[1..]| && slots[1..][i].entry.marker == Some(n);
        assert slots[i + 1].entry.marker == Some(n);
      }
    }
  }

  /** Attaching the same path to the same marker twice is the same as once. */
  lemma AttachIdempotent(slots: seq<Slot>, n: int, path: string)
    ensures Attach(Attach(slots, n, path).0, n, path).0 == Attach(slots, n, path).0
  {
    var once := Attach(slots, n, path).0;
    var twice := Attach(once, n, path).0;
    AttachContents(slots, n, path);
    AttachContents(once, n, path);
    forall i | 0 <= i < |slots| ensures twice[i] == once[i] {
    }
  }

  /** Attaching changes no marker, so the marker set is unchanged. */
  lemma AttachKeepsMarkers(slots: seq<Slot>, n: int, path: string)
    ensures MarkerSet(Attach(slots, n, path).0) == MarkerSet(slots)
  {
    var r := Attach(slots, n, path).0;
    AttachContents(slots, n, path);
    forall v ensures v in MarkerSet(r) <==> v in MarkerSet(slots) {
      if v in MarkerSet(r) {
        var i :| 0 <= i < |r| && r[i].entry.marker == Some(v);
        assert slots[i].entry.marker == Some(v);
      }
      if v in MarkerSet(slots) {
        var i :| 0 <= i < |slots| && slots[i].entry.marker == Some(v);
        assert r[i].entry.marker == Some(v);
      }
    }
  }

  /** The attachment loop modifies something exactly when the lookup found
      entries, so after a successful lookup the file is always rewritten. */
  lemma {:induction false} ModifiedIffFound(slots: seq<Slot>, n: int, path: string)
    ensures Attach(slots, n, path).1 <==> FindEntries(slots, n) != []
  {
    if slots != [] {
      ModifiedIffFound(slots[1..], n, path);
    }
  }

  // ---------------------------------------------------------------------
  // The input loop.

  /** One line typed at the marker prompt. */
  datatype Command = Quit | View(n: int) | NotANumber

  /** The prompt strips the line; `q` in either case quits; anything else
      goes through `int()`, whose `ValueError` is reported and the loop goes
      on. */
  function ParseCommand(line: string): (c: Command)
    ensures c == Quit <==> Strip(line) == "q" || Strip(line) == "Q"
    ensures c.View? ==> ParseInt(Strip(line)) == Some(c.n)
    ensures c == NotANumber <==> Strip(line) != "q" && Strip(line) != "Q" && ParseInt(Strip(line)) == None
  {
    var t := Strip(line);
    LowerOneLetter(t, 'q');
    if Lower(t) == "q" then Quit
    else
      match ParseInt(t)
      case Some(n) => View(n)
      case None => NotANumber
  }

  /** Typing a number, in its usual notation, views that marker. */
  lemma ParseCommandNumber(n: int)
    ensures ParseCommand(IntToString(n)) == View(n)
  {
    var s := IntToString(n);
    StripUnchanged(s);
    ParseIntRoundTrip(n);
    StripUnchanged(Strip(s));
    assert s[0] == '-' || IsDigit(s[0]);
    assert Lower(s)[0] != 'q';
  }

  /** How the loop ended: `q`, or the console ran out (`input()` raises
      `EOFError`, which the generic handler reports). */
  datatype Ending = QuitTyped | InputEnded

  /** One console line, as each of the three prompts reads it: the marker
      prompt as a command, the y/n prompt as "is it `y` after stripping and
      lowering" (line 55), the path prompt as the stripped text (line 58). */
  datatype Line = Line(command: Command, yes: bool, path: string)

  function ReadLine(raw: string): (l: Line)
    ensures exists i :: BetweenBlanks(raw, l.path, i)
    ensures l.path == [] || (!IsSpace(l.path[0]) && !IsSpace(l.path[|l.path| - 1]))
    ensures l.path == [] <==> Blank(raw)
    ensures l.yes <==> l.path == "y" || l.path == "Y"
    ensures l.command == Quit <==> l.path == "q" || l.path == "Q"
    ensures l.command.View? ==> ParseInt(l.path) == Some(l.command.n)
    ensures l.command == NotANumber <==> l.path != "q" && l.path != "Q" && ParseInt(l.path) == None
  {
    var t := Strip(raw);
    StripBetweenBlanks(raw);
    LowerOneLetter(t, 'y');
    Line(ParseCommand(raw), Lower(t) == "y", t)
  }

  /** The result of one pass of the loop body: the loop ends, or it goes on
      with `doc`, after reading `used` lines and writing `doc` to the file
      when `saved`. */
  datatype Round = Stop(ending: Ending) | Continue(doc: Document, saved: bool, used: nat)

  /** Seconds, timestamps, texts and markers of the transcript never
      change during a session; only image paths do, and the metadata stays. */
  predicate SameSkeleton(a: Document, b: Document) {
    && a.metadata == b.metadata
    && |a.segments| == |b.segments|
    && forall i :: 0 <= i < |a.segments| ==>
         && a.segments[i].second == b.segments[i].second
         && a.segments[i].entry.timestamp == b.segments[i].entry.timestamp
         && a.segments[i].entry.text == b.segments[i].entry.text
         && a.segments[i].entry.marker == b.segments[i].entry.marker
  }

  lemma SkeletonTransitive(a: Document, b: Document, c: Document)
    requires SameSkeleton(a, b) && SameSkeleton(b, c)
    ensures SameSkeleton(a, c)
  {
  }

  /** The line typed at the marker prompt names a marker with entries. */
  predicate Found(doc: Document, line: Line) {
    line.command.View? && FindEntries(doc.segments, line.command.n) != []
  }

  /** One pass of the body of the `while True` loop (lines 30-81): the
      marker prompt, then for a marker with entries the y/n prompt, then for
      `y` the path prompt. A round reads at least one line; a document is
      written exactly when the path exists and an entry was modified, and
      what is written keeps the transcript's skeleton. A round ends the
      session only on `q` or when a prompt finds no line left. */
  function PromptRound(doc: Document, lines: seq<Line>, pathExists: string -> bool): (r: Round)
    requires lines != []
    ensures r.Continue? ==> 1 <= r.used <= |lines|
    ensures r.Continue? && !r.saved ==> r.doc == doc
    ensures r.Continue? ==> SameSkeleton(doc, r.doc)
    ensures r.Stop? && r.ending == QuitTyped <==> lines[0].command == Quit
    ensures r.Continue? && r.saved ==>
              && Found(doc, lines[0]) && 3 <= |lines| && lines[1].yes && pathExists(lines[2].path)
              && r.doc == doc.(segments := Attach(doc.segments, lines[0].command.n, lines[2].path).0)
    ensures lines[0].command == NotANumber ==> r == Continue(doc, false, 1)
    ensures lines[0].command.View? && !Found(doc, lines[0]) ==> r == Continue(doc, false, 1)
    ensures Found(doc, lines[0]) && 2 <= |lines| && !lines[1].yes ==> r == Continue(doc, false, 2)
    ensures (Found(doc, lines[0]) && 3 <= |lines| && lines[1].yes && !pathExists(lines[2].path)) ==> r == Continue(doc, false, 3)
    ensures r == Stop(InputEnded) <==> Found(doc, lines[0]) && (|lines| < 2 || (lines[1].yes && |lines| < 3))
    ensures (Found(doc, lines[0]) && 3 <= |lines| && lines[1].yes && pathExists(lines[2].path)) ==>
              r == Continue(doc.(segments := Attach(doc.segments, lines[0].command.n, lines[2].path).0), true, 3)
  {
    match lines[0].command
    case Quit => Stop(QuitTyped)
    case NotANumber => Continue(doc, false, 1)
    case View(n) =>
      if FindEntries(doc.segments, n) == [] then Continue(doc, false, 1)
      else if |lines| < 2 then Stop(InputEnded)
      else if !lines[1].yes then Continue(doc, false, 2)
      else if |lines| < 3 then Stop(InputEnded)
      else
        var path := lines[2].path;
        if !pathExists(path) then Continue(doc, false, 3)
        else
          var (segments, modified) := Attach(doc.segments, n, path);
          AttachContents(doc.segments, n, path);
          ModifiedIffFound(doc.segments, n, path);
          Continue(if modified then doc.(segments := segments) else doc, modified, 3)
  }

  /** The state after the loop: the document in memory, every document
      written to the file, in order, and how the loop ended. */
  datatype Session = Session(doc: Document, saves: seq<Document>, ending: Ending)

  /** The `while True` loop of lines 29-81 over the remaining input lines. */
  function Run(doc: Document, lines: seq<Line>, pathExists: string -> bool): (s: Session)
    decreases |lines|
  {
    if lines == [] then Session(doc, [], InputEnded)
    else
      match PromptRound(doc, lines, pathExists)
      case Stop(ending) => Session(doc, [], ending)
      case Continue(next, saved, used) =>
        var s := Run(next, lines[used..], pathExists);
        if saved then s.(saves := [next] + s.saves) else s
  }

  /** `read_markers` after loading: the summary must exist before the loop
      starts, which then reads the console line by line. */
  function ReadMarkers(doc: Document, console: seq<string>, pathExists: string -> bool): (r: Result<(Summary, Session), ReadError>)
    ensures r.Failure? <==> MarkerSet(doc.segments) == {}
  {
    var summary :- Summarize(doc.segments);
    var lines := seq(|console|, i requires 0 <= i < |console| => ReadLine(console[i]));
    Success((summary, Run(doc, lines, pathExists)))
  }

  // ---------------------------------------------------------------------

  /** `q` ends the loop at once, with nothing written. */
  lemma QuitEndsSession(doc: Document, line: Line, rest: seq<Line>, pathExists: string -> bool)
    requires line.command == Quit
    ensures Run(doc, [line] + rest, pathExists) == Session(doc, [], QuitTyped)
  {
  }

  /** A line that is not a number is skipped without effect. */
  lemma InvalidInputContinues(doc: Document, line: Line, rest: seq<Line>, pathExists: string -> bool)
    requires line.command == NotANumber
    ensures Run(doc, [line] + rest, pathExists) == Run(doc, rest, pathExists)
  {
    assert ([line] + rest)[1..] == rest;
  }

  /** The file holds what is in memory: the last document written is the
      final one, and when nothing was written the document is unchanged. */
  lemma {:induction false} LastSaveIsFinal(doc: Document, lines: seq<Line>, pathExists: string -> bool)
    ensures var s := Run(doc, lines, pathExists);
            if s.saves == [] then s.doc == doc else s.saves[|s.saves| - 1] == s.doc
    decreases |lines|
  {
    if lines != [] {
      var r := PromptRound(doc, lines, pathExists);
      if r.Continue? {
        var s := Run(r.doc, lines[r.used..], pathExists);
        LastSaveIsFinal(r.doc, lines[r.used..], pathExists);
        if r.saved {
          var saves := [r.doc] + s.saves;
          assert Run(doc, lines, pathExists) == s.(saves := saves);
          assert saves[|saves| - 1] == if s.saves == [] then r.doc else s.saves[|s.saves| - 1];
        } else {
          assert Run(doc, lines, pathExists) == s;
        }
      }
    }
  }

  /** Every document in memory and every document written during a session
      has the skeleton of the one loaded. */
  lemma {:induction false} SessionKeepsSkeleton(doc: Document, lines: seq<Line>, pathExists: string -> bool)
    ensures SameSkeleton(doc, Run(doc, lines, pathExists).doc)
    ensures forall k :: 0 <= k < |Run(doc, lines, pathExists).saves| ==> SameSkeleton(doc, Run(doc, lines, pathExists).saves[k])
    decreases |lines|
  {
    if lines != [] {
      var r := PromptRound(doc, lines, pathExists);
      if r.Continue? {
        var s := Run(r.doc, lines[r.used..], pathExists);
        SessionKeepsSkeleton(r.doc, lines[r.used..], pathExists);
        SkeletonTransitive(doc, r.doc, s.doc);
        forall k | 0 <= k < |s.saves| ensures SameSkeleton(doc, s.saves[k]) {
          SkeletonTransitive(doc, r.doc, s.saves[k]);
        }
        if r.saved {
          var saves := [r.doc] + s.saves;
          assert Run(doc, lines, pathExists) == s.(saves := saves);
          assert forall k :: 1 <= k < |saves| ==> saves[k] == s.saves[k - 1];
        } else {
          assert Run(doc, lines, pathExists) == s;
        }
      }
    }
  }

  /** A path that does not exist leaves the document as it was: that round
      writes nothing. */
  lemma MissingImageChangesNothing(doc: Document, line: Line, answer: Line, path: Line, rest: seq<Line>, pathExists: string -> bool)
    requires line.command.View? && FindEntries(doc.segments, line.command.n) != []
    requires answer.yes && !pathExists(path.path)
    ensures Run(doc, [line, answer, path] + rest, pathExists) == Run(doc, rest, pathExists)
  {
    var lines := [line, answer, path] + rest;
    assert lines[0] == line && lines[1] == answer && lines[2] == path;
    assert PromptRound(doc, lines, pathExists) == Continue(doc, false, 3);
    assert lines[3..] == rest;
  }

  /** For a transcript the transcriber produced (non-negative, well-ordered
      segment times), the summary reports `n` markers ranging from 1 to `n`,
      where `n` is the number of seconds that received something. */
  lemma TranscriptSummary(segs: seq<Segment>, audioFile: string, processedDate: string)
    requires Timeline.Transcribe(segs, audioFile, processedDate).Success?
    requires forall j :: 0 <= j < |segs| ==> 0.0 <= segs[j].start <= segs[j].end
    ensures var n := |Bucketizer.Bucketize(segs)|;
            Summarize(Timeline.Transcribe(segs, audioFile, processedDate).value.segments) == Success(Summary(n, n))
  {
    var n := |Bucketizer.Bucketize(segs)|;
    var slots := Timeline.Transcribe(segs, audioFile, processedDate).value.segments;
    Timeline.TranscribeMarkersGapFree(segs, audioFile, processedDate);
    assert MarkerSet(slots) == Range(1, n + 1);
    RangeSize(1, n + 1);
    assert n >= 1 by {
      assert Bucketizer.Bucketize(segs) != map[];
      var k :| k in Bucketizer.Bucketize(segs);
    }
    assert n in MarkerSet(slots);
    var r := Summarize(slots);
    assert r.value.highest <= n && r.value.highest >= n;
  }
}
