/** The pieces of Python's `str` that the scripts lean on: `isspace`,
    `strip`, `split()` with no separator, `" ".join`, `lower` and `endswith`.
    Lowering is ASCII-only; every comparison the scripts make after lowering
    is against ASCII words or suffixes, and no non-ASCII character lowers to
    one of the ASCII letters involved, so the outcome of those comparisons is
    the same as with Python's full Unicode lowering. */
module Text {

  /** Python's `str.isspace` for a single character. */
  predicate IsSpace(c: char) {
    || c == ' '
    || ('\t' <= c <= '\r')
    || ('\U{1C}' <= c <= '\U{1F}')
    || c == '\U{85}' || c == '\U{A0}' || c == '\U{1680}'
    || ('\U{2000}' <= c <= '\U{200A}')
    || c == '\U{2028}' || c == '\U{2029}' || c == '\U{202F}'
    || c == '\U{205F}' || c == '\U{3000}'
  }

  /** Every character is whitespace (so `s.strip()` is empty). */
  predicate Blank(s: string) {
    forall i :: 0 <= i < |s| ==> IsSpace(s[i])
  }

  /** No character is whitespace. */
  predicate NoSpace(s: string) {
    forall i :: 0 <= i < |s| ==> !IsSpace(s[i])
  }

  /** `s.lstrip()` */
  function TrimStart(s: string): (r: string)
    ensures |r| <= |s| && r == s[|s| - |r|..]
    ensures Blank(s[..|s| - |r|])
    ensures r == [] || !IsSpace(r[0])
  {
    if s != [] && IsSpace(s[0]) then
      var r := TrimStart(s[1..]);
      var n := |s| - 1 - |r|;
      assert s[|s| - |r|..] == s[1..][n..];
      assert s[..n + 1] == [s[0]] + s[1..][..n];
      r
    else s
  }

  /** `s.rstrip()` */
  function TrimEnd(s: string): (r: string)
    ensures |r| <= |s| && r == s[..|r|]
    ensures Blank(s[|r|..])
    ensures r == [] || !IsSpace(r[|r| - 1])
  {
    if s != [] && IsSpace(s[|s| - 1]) then
      var r := TrimEnd(s[..|s| - 1]);
      assert s[|r|..] == s[..|s| - 1][|r|..] + [s[|s| - 1]];
      r
    else s
  }

  /** `s.strip()`: the text between the leading and the trailing whitespace. */
  function Strip(s: string): (r: string)
    ensures r == [] <==> Blank(s)
    ensures r == [] || (!IsSpace(r[0]) && !IsSpace(r[|r| - 1]))
  {
    var t := TrimStart(s);
    assert s == s[..|s| - |t|] + t;
    TrimEnd(t)
  }

  /** `Strip` removes exactly a blank prefix and a blank suffix. */
  lemma StripShape(s: string) returns (i: nat, j: nat)
    ensures i <= j <= |s|
    ensures Strip(s) == s[i..j]
    ensures Blank(s[..i]) && Blank(s[j..])
  {
    var t := TrimStart(s);
    i := |s| - |t|;
    var r := TrimEnd(t);
    j := i + |r|;
    assert t == s[i..];
    assert s[i..][..|r|] == s[i..j];
    assert s[i..][|r|..] == s[j..];
  }

  /** `t` sits at position `i` of `s` with only whitespace before and after. */
  predicate BetweenBlanks(s: string, t: string, i: int) {
    0 <= i && i + |t| <= |s| && s[i..i + |t|] == t && Blank(s[..i]) && Blank(s[i + |t|..])
  }

  lemma StripBetweenBlanks(s: string)
    ensures exists i :: BetweenBlanks(s, Strip(s), i)
  {
    var i, j := StripShape(s);
    assert BetweenBlanks(s, Strip(s), i);
  }

  /** A string that neither starts nor ends with whitespace is its own strip. */
  lemma StripUnchanged(s: string)
    requires s != [] && !IsSpace(s[0]) && !IsSpace(s[|s| - 1])
    ensures Strip(s) == s
  {
  }

  /** Length of the longest whitespace-free prefix. */
  function WordLength(s: string): (n: nat)
    ensures n <= |s| && NoSpace(s[..n])
    ensures n == |s| || IsSpace(s[n])
  {
    if s == [] || IsSpace(s[0]) then 0 else 1 + WordLength(s[1..])
  }

  /** `s.split()`: the maximal runs of non-whitespace characters, in order. */
  function Words(s: string): (ws: seq<string>)
    ensures forall i :: 0 <= i < |ws| ==> ws[i] != [] && NoSpace(ws[i])
    ensures ws == [] <==> Blank(s)
  {
    if s == [] then []
    else if IsSpace(s[0]) then
      var ws := Words(s[1..]);
      assert Blank(s) <==> Blank(s[1..]) by {
        assert forall i :: 1 <= i < |s| ==> s[i] == s[1..][i - 1];
      }
      ws
    else
      var n := WordLength(s);
      [s[..n]] + Words(s[n..])
  }

  /** `sep.join(ws)` */
  function Join(sep: string, ws: seq<string>): string
  {
    if ws == [] then []
    else if |ws| == 1 then ws[0]
    else ws[0] + sep + Join(sep, ws[1..])
  }

  /** `"".join(ws)`: the strings one after another. */
  function Concat(ws: seq<string>): string {
    if ws == [] then "" else ws[0] + Concat(ws[1..])
  }

  /** The characters of `s` that are not whitespace, in order. */
  function NonSpace(s: string): string {
    if s == [] then "" else (if IsSpace(s[0]) then "" else [s[0]]) + NonSpace(s[1..])
  }

  lemma {:induction false} ConcatAppend(a: seq<string>, b: seq<string>)
    ensures Concat(a + b) == Concat(a) + Concat(b)
  {
    if a == [] {
      assert a + b == b;
    } else {
      ConcatAppend(a[1..], b);
      assert (a + b)[1..] == a[1..] + b;
      assert (a + b)[0] == a[0];
      assert Concat(a + b) == a[0] + Concat(a[1..] + b);
      AppendAssoc(a[0], Concat(a[1..]), Concat(b));
    }
  }

  lemma AppendAssoc(a: string, b: string, c: string)
    ensures a + (b + c) == (a + b) + c
  {
  }

  lemma {:induction false} NonSpaceAppend(a: string, b: string)
    ensures NonSpace(a + b) == NonSpace(a) + NonSpace(b)
  {
    if a == [] {
      assert a + b == b;
    } else {
      var h := if IsSpace(a[0]) then "" else [a[0]];
      NonSpaceAppend(a[1..], b);
      assert (a + b)[0] == a[0] && (a + b)[1..] == a[1..] + b;
      assert NonSpace(a + b) == h + (NonSpace(a[1..]) + NonSpace(b));
      assert h + (NonSpace(a[1..]) + NonSpace(b)) == (h + NonSpace(a[1..])) + NonSpace(b);
    }
  }

  lemma {:induction false} NonSpaceOfWord(w: string)
    requires NoSpace(w)
    ensures NonSpace(w) == w
  {
    if w != [] {
      NonSpaceOfWord(w[1..]);
    }
  }

  /** `split()` loses nothing but whitespace: the words, put back together,
      are the non-whitespace characters of `s` in their original order. */
  lemma {:induction false} WordsKeepLetters(s: string)
    ensures Concat(Words(s)) == NonSpace(s)
    decreases |s|
  {
    if s != [] {
      if IsSpace(s[0]) {
        WordsKeepLetters(s[1..]);
      } else {
        var n := WordLength(s);
        assert s == s[..n] + s[n..];
        WordsKeepLetters(s[n..]);
        NonSpaceAppend(s[..n], s[n..]);
        NonSpaceOfWord(s[..n]);
      }
    }
  }

  /** A word followed by whitespace or by nothing is read whole. */
  lemma {:induction false} WordLengthOfWord(w: string, rest: string)
    requires NoSpace(w)
    requires rest == [] || IsSpace(rest[0])
    ensures WordLength(w + rest) == |w|
  {
    if w != [] {
      assert (w + rest)[1..] == w[1..] + rest;
      WordLengthOfWord(w[1..], rest);
    } else {
      assert w + rest == rest;
    }
  }

  /** Whitespace reached after the first word, or at the end of the
      string's own word, does not lengthen that word. */
  lemma {:induction false} WordLengthAppend(a: string, rest: string)
    requires WordLength(a) < |a| || rest == [] || IsSpace(rest[0])
    ensures WordLength(a + rest) == WordLength(a)
  {
    if a == [] {
      assert a + rest == rest;
    } else if !IsSpace(a[0]) {
      assert (a + rest)[1..] == a[1..] + rest;
      WordLengthAppend(a[1..], rest);
    }
  }

  /** Unfolding `Words` at a leading space. */
  lemma WordsAtSpace(s: string)
    requires s != [] && IsSpace(s[0])
    ensures Words(s) == Words(s[1..])
  {
  }

  /** Unfolding `Words` at the start of a word. */
  lemma WordsAtWord(s: string)
    requires s != [] && !IsSpace(s[0])
    ensures Words(s) == [s[..WordLength(s)]] + Words(s[WordLength(s)..])
  {
  }

  /** Text that begins with whitespace adds its words after those of `a`. */
  lemma {:induction false} WordsAppendAtSpace(a: string, r: string)
    requires r != [] && IsSpace(r[0])
    ensures Words(a + r) == Words(a) + Words(r)
    decreases |a|
  {
    if a == [] {
      assert a + r == r;
    } else if IsSpace(a[0]) {
      assert (a + r)[0] == a[0] && (a + r)[1..] == a[1..] + r;
      WordsAtSpace(a + r);
      WordsAtSpace(a);
      WordsAppendAtSpace(a[1..], r);
    } else {
      var m := WordLength(a);
      WordsAppendAtSpace(a[m..], r);
      WordsAppendWordStep(a, r, m);
    }
  }

  /** The inductive step of `WordsAppendAtSpace` when `a` opens with a word. */
  lemma WordsAppendWordStep(a: string, r: string, m: nat)
    requires a != [] && !IsSpace(a[0]) && m == WordLength(a)
    requires r != [] && IsSpace(r[0])
    requires Words(a[m..] + r) == Words(a[m..]) + Words(r)
    ensures Words(a + r) == Words(a) + Words(r)
  {
    WordsAppendFirstWord(a, r, m);
    WordsAtWord(a);
    ListAssoc([a[..m]], Words(a[m..]), Words(r));
  }

  lemma ListAssoc(x: seq<string>, y: seq<string>, z: seq<string>)
    ensures x + (y + z) == (x + y) + z
  {
  }

  /** The first word of `a + r` is the first word of `a` when `r` opens with whitespace. */
  lemma WordsAppendFirstWord(a: string, r: string, m: nat)
    requires a != [] && !IsSpace(a[0]) && m == WordLength(a)
    requires r != [] && IsSpace(r[0])
    ensures Words(a + r) == [a[..m]] + Words(a[m..] + r)
  {
    var s := a + r;
    assert WordLength(s) == m by {
      WordLengthAppend(a, r);
    }
    AppendSlices(a, r, m);
    WordsAtWord(s);
  }

  lemma AppendSlices(a: string, r: string, m: nat)
    requires 0 < m <= |a|
    ensures (a + r)[0] == a[0] && (a + r)[..m] == a[..m] && (a + r)[m..] == a[m..] + r
  {
  }

  /** Any whitespace character separates words: splitting at it splits the word list. */
  lemma WordsSplitAt(a: string, c: char, b: string)
    requires IsSpace(c)
    ensures Words(a + [c] + b) == Words(a) + Words(b)
  {
    var r := [c] + b;
    assert a + [c] + b == a + r;
    assert r[1..] == b;
    WordsAppendAtSpace(a, r);
    WordsAtSpace(r);
  }

  /** A non-empty string without whitespace is one word. */
  lemma WordsOfWord(w: string)
    requires w != [] && NoSpace(w)
    ensures Words(w) == [w]
  {
    WordsJoinRoundTrip([w]);
  }

  /** `split()` undoes `" ".join`: words without whitespace, none empty,
      joined by single spaces, split back into the same words. */
  lemma {:induction false} WordsJoinRoundTrip(ws: seq<string>)
    requires forall i :: 0 <= i < |ws| ==> ws[i] != [] && NoSpace(ws[i])
    ensures Words(Join(" ", ws)) == ws
  {
    if ws != [] {
      var w := ws[0];
      if |ws| == 1 {
        WordLengthOfWord(w, "");
        assert w + "" == w;
        assert w[|w|..] == [];
      } else {
        var tail := Join(" ", ws[1..]);
        var s := w + (" " + tail);
        assert Join(" ", ws) == s;
        WordLengthOfWord(w, " " + tail);
        assert s[..|w|] == w;
        assert s[|w|..] == " " + tail;
        assert (" " + tail)[1..] == tail;
        WordsJoinRoundTrip(ws[1..]);
      }
    }
  }

  function LowerChar(c: char): char {
    if 'A' <= c <= 'Z' then (c as int + 32) as char else c
  }

  /** `s.lower()` on the ASCII letters. */
  function Lower(s: string): (r: string)
    ensures |r| == |s|
    ensures forall i :: 0 <= i < |s| ==> r[i] == LowerChar(s[i])
  {
    seq(|s|, i requires 0 <= i < |s| => LowerChar(s[i]))
  }

  /** `s.endswith(suffix)` */
  predicate EndsWith(s: string, suffix: string) {
    |suffix| <= |s| && s[|s| - |suffix|..] == suffix
  }

  /** Lowering distributes over concatenation. */
  lemma LowerAppend(a: string, b: string)
    ensures Lower(a + b) == Lower(a) + Lower(b)
  {
  }

  /** A string lowers to a single lower-case letter exactly when it is that
      letter in either case. */
  lemma LowerOneLetter(t: string, c: char)
    requires 'a' <= c <= 'z'
    ensures Lower(t) == [c] <==> t == [c] || t == [(c as int - 32) as char]
  {
    if |t| == 1 {
      assert Lower(t) == [LowerChar(t[0])];
    }
  }

  /** A string with no upper-case ASCII letter is its own lowering. */
  lemma LowerFixed(s: string)
    requires forall i :: 0 <= i < |s| ==> !('A' <= s[i] <= 'Z')
    ensures Lower(s) == s
  {
  }
}
