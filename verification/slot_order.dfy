/** `sorted(segments.items(), key=lambda x: int(x[0]))`: the document's slots
    in order of their second. Python's sort is stable; so is this insertion
    sort, which puts a slot before every later slot with the same second. */
module SlotOrder {
  import opened Transcript

  /** Places `x` in front of the first slot whose second is not smaller. */
  function Insert(x: Slot, s: seq<Slot>): (r: seq<Slot>)
    ensures |r| == |s| + 1
    ensures multiset(r) == multiset(s) + multiset{x}
  {
    if s == [] || x.second <= s[0].second then [x] + s
    else
      assert s == [s[0]] + s[1..];
      [s[0]] + Insert(x, s[1..])
  }

  function SortBySecond(s: seq<Slot>): (r: seq<Slot>)
    ensures |r| == |s|
    ensures multiset(r) == multiset(s)
  {
    if s == [] then []
    else
      assert s == [s[0]] + s[1..];
      Insert(s[0], SortBySecond(s[1..]))
  }

  /** Sorting keeps exactly the slots it was given. */
  lemma SortMembers(s: seq<Slot>)
    ensures forall x :: x in SortBySecond(s) <==> x in s
  {
    forall x ensures x in SortBySecond(s) <==> x in s {
      assert x in SortBySecond(s) <==> x in multiset(SortBySecond(s));
      assert x in s <==> x in multiset(s);
    }
  }

  /** Every slot of `Insert(x, s)` is `x` or a slot of `s`. */
  lemma InsertMembers(x: Slot, s: seq<Slot>)
    ensures forall k :: 0 <= k < |Insert(x, s)| ==> Insert(x, s)[k] == x || Insert(x, s)[k] in s
  {
    var r := Insert(x, s);
    forall k | 0 <= k < |r| ensures r[k] == x || r[k] in s {
      assert r[k] in multiset(r);
    }
  }

  lemma {:induction false} InsertSorted(x: Slot, s: seq<Slot>)
    requires SortedSeconds(s)
    ensures SortedSeconds(Insert(x, s))
  {
    if s != [] && x.second > s[0].second {
      var rest := Insert(x, s[1..]);
      InsertSorted(x, s[1..]);
      InsertMembers(x, s[1..]);
      assert Insert(x, s) == [s[0]] + rest;
      forall k | 0 <= k < |rest| ensures s[0].second <= rest[k].second {
        if rest[k] != x {
          var j :| 0 <= j < |s[1..]| && s[1..][j] == rest[k];
          assert s[j + 1] == rest[k];
        }
      }
    }
  }

  /** The result is ordered by second. */
  lemma {:induction false} SortSorted(s: seq<Slot>)
    ensures SortedSeconds(SortBySecond(s))
  {
    if s != [] {
      SortSorted(s[1..]);
      InsertSorted(s[0], SortBySecond(s[1..]));
    }
  }

  lemma {:induction false} InsertAscending(x: Slot, s: seq<Slot>)
    requires AscendingSeconds(s)
    requires forall k :: 0 <= k < |s| ==> s[k].second != x.second
    ensures AscendingSeconds(Insert(x, s))
  {
    if s != [] && x.second > s[0].second {
      var rest := Insert(x, s[1..]);
      InsertAscending(x, s[1..]);
      InsertMembers(x, s[1..]);
      assert Insert(x, s) == [s[0]] + rest;
      forall k | 0 <= k < |rest| ensures s[0].second < rest[k].second {
        if rest[k] != x {
          var j :| 0 <= j < |s[1..]| && s[1..][j] == rest[k];
          assert s[j + 1] == rest[k];
        }
      }
    }
  }

  /** With distinct seconds the seconds of the sorted slots strictly
      increase. */
  lemma {:induction false} SortAscending(s: seq<Slot>)
    requires DistinctSeconds(s)
    ensures AscendingSeconds(SortBySecond(s))
  {
    if s != [] {
      var sorted := SortBySecond(s[1..]);
      SortAscending(s[1..]);
      forall k | 0 <= k < |sorted| ensures sorted[k].second != s[0].second {
        assert sorted[k] in multiset(s[1..]);
        var j :| 0 <= j < |s[1..]| && s[1..][j] == sorted[k];
        assert s[j + 1] == sorted[k];
      }
      InsertAscending(s[0], sorted);
    }
  }

  /** Slots already in order of their second are left where they are, so a
      document the transcriber wrote is walked in the same order whether it
      is sorted first or not. */
  lemma {:induction false} SortKeepsSorted(s: seq<Slot>)
    requires SortedSeconds(s)
    ensures SortBySecond(s) == s
  {
    if s != [] {
      SortKeepsSorted(s[1..]);
      assert SortBySecond(s[1..]) == s[1..];
      assert s == [s[0]] + s[1..];
    }
  }
}
