/** The starred-question store of App.tsx. A JavaScript `Set<string>` keeps
    its elements in insertion order without repeats, so it is modelled as a
    sequence of distinct ids. Local storage is a map from keys to the stored
    list of ids, where `None` stands for a value that does not parse. */
module Stars {
  import opened Types

  /** Local storage: key to parsed id list; `None` marks an empty or
      unparseable stored value. */
  type Storage = map<string, Option<seq<string>>>

  predicate Distinct(s: seq<string>)
  {
    forall i, j :: 0 <= i < j < |s| ==> s[i] != s[j]
  }

  const StarPrefix: string := "starred_questions_"

  /** The storage key under which a test's stars are kept. */
  function StarKey(testId: string): string
  {
    StarPrefix + testId
  }

  /** Different tests never share a storage key. */
  lemma StarKeyInjective(a: string, b: string)
    ensures StarKey(a) == StarKey(b) ==> a == b
  {
    if StarKey(a) == StarKey(b) {
      assert a == StarKey(a)[|StarPrefix|..];
      assert b == StarKey(b)[|StarPrefix|..];
    }
  }

  /** `Set.delete`: every element but `x`, in the same order. */
  function Remove(s: seq<string>, x: string): (r: seq<string>)
    ensures forall y :: y in r <==> y in s && y != x
    ensures Distinct(s) ==> Distinct(r)
    ensures x !in s ==> r == s
  {
    if s == [] then []
    else if s[0] == x then
      assert s == [s[0]] + s[1..];
      DistinctCons(s[0], s[1..]);
      Remove(s[1..], x)
    else
      var rest := Remove(s[1..], x);
      DistinctCons(s[0], s[1..]);
      DistinctCons(s[0], rest);
      [s[0]] + rest
  }

  lemma DistinctCons(a: string, t: seq<string>)
    ensures Distinct([a] + t) <==> a !in t && Distinct(t)
  {
    var at := [a] + t;
    if Distinct(at) {
      forall i, j | 0 <= i < j < |t|
        ensures t[i] != t[j]
      {
        assert at[i + 1] == t[i] && at[j + 1] == t[j];
      }
      forall k | 0 <= k < |t|
        ensures t[k] != a
      {
        assert at[0] == a && at[k + 1] == t[k];
      }
    }
    if a !in t && Distinct(t) {
      forall i, j | 0 <= i < j < |at|
        ensures at[i] != at[j]
      {
        assert at[j] == t[j - 1];
        if 0 < i {
          assert at[i] == t[i - 1];
        }
      }
    }
  }

  /** In a set, deleting the element at position `i` closes the gap. */
  lemma {:induction false} RemoveAt(s: seq<string>, i: nat)
    requires Distinct(s) && i < |s|
    ensures Remove(s, s[i]) == s[..i] + s[i + 1..]
  {
    if i == 0 {
      assert s[0] !in s[1..];
    } else {
      RemoveAt(s[1..], i - 1);
      assert s[1..][i - 1] == s[i];
      assert [s[0]] + (s[1..][..i - 1] + s[1..][i..]) == s[..i] + s[i + 1..];
    }
  }

  lemma {:induction false} RemoveAppended(s: seq<string>, x: string)
    requires x !in s
    ensures Remove(s + [x], x) == s
  {
    if s == [] {
      assert [] + [x] == [x];
    } else {
      assert (s + [x])[1..] == s[1..] + [x];
      RemoveAppended(s[1..], x);
    }
  }

  /** The star toggle: delete `x` when present, otherwise add it at the end. */
  function Toggled(s: seq<string>, x: string): seq<string>
  {
    if x in s then Remove(s, x) else s + [x]
  }

  /** Toggling flips the membership of `x` alone and keeps the set a set. */
  lemma ToggledMembership(s: seq<string>, x: string)
    requires Distinct(s)
    ensures x in Toggled(s, x) <==> x !in s
    ensures forall y :: y != x ==> (y in Toggled(s, x) <==> y in s)
    ensures Distinct(Toggled(s, x))
  {
  }

  /** Toggling twice gives back the same set; when `x` was absent, even the
      same order. */
  lemma ToggleTwice(s: seq<string>, x: string)
    requires Distinct(s)
    ensures forall y :: y in Toggled(Toggled(s, x), x) <==> y in s
    ensures x !in s ==> Toggled(Toggled(s, x), x) == s
  {
    ToggledMembership(s, x);
    ToggledMembership(Toggled(s, x), x);
    if x !in s {
      RemoveAppended(s, x);
    }
  }

  /** `new Set(list)`: the list without repeats, first occurrences kept. */
  function Dedup(s: seq<string>): (r: seq<string>)
    ensures Distinct(r)
    ensures forall y :: y in r <==> y in s
  {
    if s == [] then []
    else
      var d := Dedup(s[..|s| - 1]);
      if s[|s| - 1] in d then d else d + [s[|s| - 1]]
  }

  lemma {:induction false} DedupOfDistinct(s: seq<string>)
    requires Distinct(s)
    ensures Dedup(s) == s
  {
    if s != [] {
      var init := s[..|s| - 1];
      DedupOfDistinct(init);
      assert s[|s| - 1] !in init;
      assert init + [s[|s| - 1]] == s;
    }
  }

  /** Reading a test's stars: an absent or unparseable value gives the empty
      set, otherwise exactly the ids listed. */
  function LoadStars(storage: Storage, testId: string): (r: seq<string>)
    ensures Distinct(r)
    ensures StarKey(testId) !in storage || storage[StarKey(testId)].None? ==> r == []
    ensures StarKey(testId) in storage && storage[StarKey(testId)].Some? ==>
              forall y :: y in r <==> y in storage[StarKey(testId)].value
  {
    var key := StarKey(testId);
    if key in storage then
      match storage[key]
      case Some(list) => Dedup(list)
      case None => []
    else []
  }

  /** Writing a set and reading it back gives the same set, in the same
      order. */
  lemma StoreThenLoad(storage: Storage, testId: string, s: seq<string>)
    requires Distinct(s)
    ensures LoadStars(storage[StarKey(testId) := Some(s)], testId) == s
  {
    DedupOfDistinct(s);
  }

  /** Writing one test's stars leaves every other test's stars as they were. */
  lemma StoreLeavesOtherTests(storage: Storage, testId: string, other: string, s: seq<string>)
    requires other != testId
    ensures LoadStars(storage[StarKey(testId) := Some(s)], other) == LoadStars(storage, other)
  {
    StarKeyInjective(testId, other);
  }
}
