/** `SubtitleHandler.get_preferences`: three console questions (subtitles
    or not, where, how big), each asked again until the answer, lowered and
    stripped, is one of the listed words; then the preferences record. */
module SubtitleHandler {
  import opened Wrappers
  import opened Text

  datatype Placement = Center | Bottom

  datatype Size = Small | Big

  /** `{'show_subtitles': False}` or the full record. */
  datatype Prefs = Hidden | Shown(fontsize: int, position: Placement, margin: int)

  /** `FONT_SIZES` */
  function FontSize(size: Size): int {
    match size
    case Small => 40
    case Big => 70
  }

  /** The record returned once every question has a valid answer. */
  function PrefsFor(want: bool, position: Placement, size: Size): Prefs {
    if !want then Hidden
    else Shown(FontSize(size), position, if position == Bottom then 100 else 0)
  }

  /** An answer as the prompts compare it: `.lower().strip()`. */
  function Normalize(answer: string): string {
    Strip(Lower(answer))
  }

  /** The position of the first answer that is accepted; `None` when the
      console runs out first (`input()` raises `EOFError`). */
  function FirstAccepted(answers: seq<string>, accepted: set<string>): (r: Option<nat>)
    ensures r.Some? ==> r.value < |answers| && answers[r.value] in accepted
    ensures r.Some? ==> forall j :: 0 <= j < r.value ==> answers[j] !in accepted
    ensures r.None? ==> forall j :: 0 <= j < |answers| ==> answers[j] !in accepted
  {
    if answers == [] then None
    else if answers[0] in accepted then Some(0)
    else
      match FirstAccepted(answers[1..], accepted)
      case None => None
      case Some(i) => Some(i + 1)
  }

  /** The position and size loops, over the answers after `y`. */
  function Choices(rest: seq<string>): Option<Prefs> {
    var j :- FirstAccepted(rest, {"center", "bottom"});
    var rest2 := rest[j + 1..];
    var k :- FirstAccepted(rest2, {"small", "big"});
    Some(PrefsFor(true, if rest[j] == "bottom" then Bottom else Center, if rest2[k] == "small" then Small else Big))
  }

  /** The three loops over the normalised answers, in order. */
  function Ask(answers: seq<string>): (r: Option<Prefs>) {
    var i :- FirstAccepted(answers, {"y", "n"});
    if answers[i] == "n" then Some(PrefsFor(false, Center, Small))
    else Choices(answers[i + 1..])
  }

  /** `get_preferences` reading console lines. */
  function GetPreferences(console: seq<string>): Option<Prefs> {
    Ask(seq(|console|, i requires 0 <= i < |console| => Normalize(console[i])))
  }

  // ---------------------------------------------------------------------

  /** The record says which size and position were chosen: font size 40 or
      70, and a margin of 100 exactly for the bottom position, else 0. */
  lemma PrefsForShape(position: Placement, size: Size)
    ensures var p := PrefsFor(true, position, size);
            && p.Shown? && p.position == position
            && (p.fontsize == 40 <==> size == Small) && (p.fontsize == 70 <==> size == Big)
            && (p.margin == 100 <==> position == Bottom) && (p.margin == 0 <==> position == Center)
  {
  }

  /** Different choices give different records. */
  lemma PrefsForInjective(p1: Placement, s1: Size, p2: Placement, s2: Size)
    requires PrefsFor(true, p1, s1) == PrefsFor(true, p2, s2)
    ensures p1 == p2 && s1 == s2
  {
  }

  /** Whatever is typed, a completed dialogue gives either the bare record
      or a full one with a listed size and the margin of its position. */
  lemma AskShape(answers: seq<string>)
    requires Ask(answers).Some?
    ensures var p := Ask(answers).value;
            p.Shown? ==> && (p.fontsize == 40 || p.fontsize == 70)
                         && (p.margin == 100 <==> p.position == Bottom)
                         && (p.margin == 0 <==> p.position == Center)
  {
  }

  /** The first `y`/`n` answer decides: `n` gives the bare record however
      the console goes on; invalid answers before it are skipped. */
  lemma NoMeansHidden(skipped: seq<string>, rest: seq<string>)
    requires forall j :: 0 <= j < |skipped| ==> skipped[j] != "y" && skipped[j] != "n"
    ensures Ask(skipped + ["n"] + rest) == Some(Hidden)
  {
    var answers := skipped + ["n"] + rest;
    assert answers[|skipped|] == "n";
    assert forall j :: 0 <= j < |skipped| ==> answers[j] == skipped[j];
  }

  /** No answer of `s` is accepted. */
  predicate NoneAccepted(s: seq<string>, accepted: set<string>) {
    forall j :: 0 <= j < |s| ==> s[j] !in accepted
  }

  /** The loop stops at the first accepted answer, whatever follows it. */
  lemma FirstAcceptedAt(skipped: seq<string>, a: string, rest: seq<string>, accepted: set<string>)
    requires NoneAccepted(skipped, accepted) && a in accepted
    ensures FirstAccepted(skipped + [a] + rest, accepted) == Some(|skipped|)
  {
    var s := skipped + [a] + rest;
    assert s[|skipped|] == a;
    assert forall j :: 0 <= j < |skipped| ==> s[j] == skipped[j];
  }

  /** After the first `y`, each question is asked again until it gets a
      listed answer; the first position and the first size then decide the
      record, and later lines are never read. */
  lemma YesThenChoices(s1: seq<string>, s2: seq<string>, s3: seq<string>, position: string, size: string, rest: seq<string>)
    requires NoneAccepted(s1, {"y", "n"}) && NoneAccepted(s2, {"center", "bottom"}) && NoneAccepted(s3, {"small", "big"})
    requires position == "center" || position == "bottom"
    requires size == "small" || size == "big"
    ensures Ask(s1 + ["y"] + s2 + [position] + s3 + [size] + rest) ==
              Some(PrefsFor(true, if position == "bottom" then Bottom else Center,
                            if size == "small" then Small else Big))
  {
    var tail2 := s2 + [position] + (s3 + [size] + rest);
    var answers := s1 + ["y"] + tail2;
    assert s1 + ["y"] + s2 + [position] + s3 + [size] + rest == answers;
    FirstAcceptedAt(s1, "y", tail2, {"y", "n"});
    assert answers[|s1|] == "y" && answers[|s1| + 1..] == tail2;
    ChoicesAt(s2, position, s3, size, rest);
  }

  /** The position and size loops skip unlisted answers and stop at the
      first listed one. */
  lemma ChoicesAt(s2: seq<string>, position: string, s3: seq<string>, size: string, rest: seq<string>)
    requires NoneAccepted(s2, {"center", "bottom"}) && NoneAccepted(s3, {"small", "big"})
    requires position == "center" || position == "bottom"
    requires size == "small" || size == "big"
    ensures Choices(s2 + [position] + (s3 + [size] + rest)) ==
              Some(PrefsFor(true, if position == "bottom" then Bottom else Center,
                            if size == "small" then Small else Big))
  {
    var tail3 := s3 + [size] + rest;
    var tail2 := s2 + [position] + tail3;
    FirstAcceptedAt(s2, position, tail3, {"center", "bottom"});
    assert tail2[|s2|] == position && tail2[|s2| + 1..] == tail3;
    FirstAcceptedAt(s3, size, rest, {"small", "big"});
    assert tail3[|s3|] == size;
  }
}
