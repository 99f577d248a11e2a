/** The JSON values the scripts load with `json.load`, and the two Python
    operations they apply to them: `key in value` and `value[key]` with a
    string key. Objects keep their members in file order; when a key occurs
    twice, `json.load` keeps the last occurrence. Numbers are integers here:
    no document field the scripts inspect is fractional. */
module Json {
  import opened Wrappers
  import opened Text

  datatype Json =
    | JNull
    | JBool(b: bool)
    | JNum(n: int)
    | JStr(s: string)
    | JArr(items: seq<Json>)
    | JObj(members: seq<(string, Json)>)

  /** The `TypeError`s the two operations raise on a value of the wrong
      kind. */
  datatype PyError =
    | NotIterable      // `k in v` for a number, a boolean or `null`
    | NotSubscriptable // `v[k]` for anything but an object
    | MissingKey(key: string)

  /** Some member of the object is named `key`. */
  predicate HasKey(members: seq<(string, Json)>, key: string) {
    members != [] && (members[|members| - 1].0 == key || HasKey(members[..|members| - 1], key))
  }

  /** The value `json.load` keeps for `key`: the last member named `key`. */
  function Lookup(members: seq<(string, Json)>, key: string): Json
    requires HasKey(members, key)
  {
    var n := |members| - 1;
    if members[n].0 == key then members[n].1 else Lookup(members[..n], key)
  }

  lemma {:induction false} HasKeyIff(members: seq<(string, Json)>, key: string)
    ensures HasKey(members, key) <==> exists i :: 0 <= i < |members| && members[i].0 == key
  {
    if members != [] {
      var init := members[..|members| - 1];
      HasKeyIff(init, key);
      if exists i :: 0 <= i < |init| && init[i].0 == key {
        var i :| 0 <= i < |init| && init[i].0 == key;
        assert members[i] == init[i];
      }
      if exists i :: 0 <= i < |members| && members[i].0 == key {
        var i :| 0 <= i < |members| && members[i].0 == key;
        if i < |init| {
          assert init[i] == members[i];
        }
      }
    }
  }

  /** The last member named `key` is the one `Lookup` returns. */
  lemma {:induction false} LookupLast(members: seq<(string, Json)>, i: nat, key: string)
    requires i < |members| && members[i].0 == key
    requires forall j :: i < j < |members| ==> members[j].0 != key
    ensures HasKey(members, key) && Lookup(members, key) == members[i].1
    decreases |members|
  {
    var n := |members| - 1;
    if i < n {
      var init := members[..n];
      assert init[i] == members[i];
      LookupLast(init, i, key);
    }
  }

  /** `needle` occurs in `hay` starting at some position (Python's `in` on
      two strings; the empty string occurs everywhere). */
  predicate Contains(hay: string, needle: string) {
    (|needle| <= |hay| && hay[..|needle|] == needle) || (hay != [] && Contains(hay[1..], needle))
  }

  /** `needle` sits in `hay` at position `i`. */
  predicate OccursAt(hay: string, needle: string, i: int) {
    0 <= i && i + |needle| <= |hay| && hay[i..i + |needle|] == needle
  }

  lemma {:induction false} ContainsIff(hay: string, needle: string)
    ensures Contains(hay, needle) <==> exists i :: OccursAt(hay, needle, i)
  {
    if |needle| <= |hay| && hay[..|needle|] == needle {
      assert OccursAt(hay, needle, 0);
    }
    if hay != [] {
      ContainsIff(hay[1..], needle);
      if exists i :: OccursAt(hay[1..], needle, i) {
        var i :| OccursAt(hay[1..], needle, i);
        assert hay[1..][i..i + |needle|] == hay[i + 1..i + 1 + |needle|];
        assert OccursAt(hay, needle, i + 1);
      }
      if exists i :: OccursAt(hay, needle, i) {
        var i :| OccursAt(hay, needle, i);
        if i > 0 {
          assert hay[1..][i - 1..i - 1 + |needle|] == hay[i..i + |needle|];
          assert OccursAt(hay[1..], needle, i - 1);
        }
      }
    }
  }

  /** Member `i` is the last one named `key`. */
  predicate LastNamed(members: seq<(string, Json)>, key: string, i: int) {
    0 <= i < |members| && members[i].0 == key && forall j :: i < j < |members| ==> members[j].0 != key
  }

  lemma {:induction false} LookupIsLast(members: seq<(string, Json)>, key: string)
    requires HasKey(members, key)
    ensures exists i :: LastNamed(members, key, i) && Lookup(members, key) == members[i].1
  {
    var n := |members| - 1;
    if members[n].0 == key {
      assert LastNamed(members, key, n);
    } else {
      var init := members[..n];
      LookupIsLast(init, key);
      var i :| LastNamed(init, key, i) && Lookup(init, key) == init[i].1;
      assert forall j :: i < j < n ==> members[j] == init[j];
      assert LastNamed(members, key, i);
    }
  }

  /** Python's `key in value` for a string `key`: membership among an
      object's keys, equality with an element of an array, substring of a
      string; any other value is not iterable. */
  function PyIn(key: string, value: Json): (r: Result<bool, PyError>)
    ensures value.JObj? ==> (r == Success(true) <==> exists i :: 0 <= i < |value.members| && value.members[i].0 == key)
    ensures value.JArr? ==> (r == Success(true) <==> exists i :: 0 <= i < |value.items| && value.items[i] == JStr(key))
    ensures value.JStr? ==> (r == Success(true) <==> exists i :: OccursAt(value.s, key, i))
    ensures r.Failure? <==> value.JNull? || value.JBool? || value.JNum?
    ensures r.Failure? ==> r.error == NotIterable
  {
    match value
    case JObj(ms) => HasKeyIff(ms, key); Success(HasKey(ms, key))
    case JArr(xs) => Success(JStr(key) in xs)
    case JStr(s) => ContainsIff(s, key); Success(Contains(s, key))
    case _ => Failure(NotIterable)
  }

  /** Python's `value[key]` for a string `key`: only an object can be
      indexed by a string, and the key must be present; the value is that of
      the last member with the name. */
  function PyIndex(value: Json, key: string): (r: Result<Json, PyError>)
    ensures r.Success? <==> value.JObj? && exists i :: 0 <= i < |value.members| && value.members[i].0 == key
    ensures r.Success? ==> exists i :: LastNamed(value.members, key, i) && r.value == value.members[i].1
    ensures !value.JObj? ==> r == Failure(NotSubscriptable)
    ensures r.Failure? && value.JObj? ==> r == Failure(MissingKey(key))
  {
    match value
    case JObj(ms) =>
      HasKeyIff(ms, key);
      if HasKey(ms, key) then LookupIsLast(ms, key); Success(Lookup(ms, key)) else Failure(MissingKey(key))
    case _ => Failure(NotSubscriptable)
  }

  /** A string contains itself and the empty string. */
  lemma ContainsSelf(s: string)
    ensures Contains(s, s) && Contains(s, "")
  {
    assert s[..|s|] == s;
  }
}
