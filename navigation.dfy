/** The navigation resolver of App.tsx: all questions of all sections laid
    out in one line, the selected question found in it by id, and its
    neighbours derived from the position found. */
module Navigation {
  import opened Types

  /** All questions of `sections`, section after section, each section's
      questions in their own order. */
  function Flatten(sections: seq<Section>): seq<Question>
  {
    if sections == [] then []
    else Flatten(sections[..|sections| - 1]) + sections[|sections| - 1].questions
  }

  /** The number of questions over all sections. */
  function QuestionCount(sections: seq<Section>): nat
  {
    if sections == [] then 0
    else QuestionCount(sections[..|sections| - 1]) + |sections[|sections| - 1].questions|
  }

  lemma {:induction false} FlattenLength(sections: seq<Section>)
    ensures |Flatten(sections)| == QuestionCount(sections)
  {
    if sections != [] {
      FlattenLength(sections[..|sections| - 1]);
    }
  }

  /** Question `j` of section `i` sits in the flattened line right after the
      questions of the sections before `i`. */
  lemma {:induction false} FlattenAt(sections: seq<Section>, i: nat, j: nat)
    requires i < |sections| && j < |sections[i].questions|
    ensures QuestionCount(sections[..i]) + j < |Flatten(sections)|
    ensures Flatten(sections)[QuestionCount(sections[..i]) + j] == sections[i].questions[j]
  {
    var n := |sections|;
    var init := sections[..n - 1];
    FlattenLength(init);
    FlattenLength(sections);
    if i == n - 1 {
      assert sections[..i] == init;
    } else {
      assert init[..i] == sections[..i];
      FlattenAt(init, i, j);
    }
  }

  /** A question is in the flattened line exactly when some section holds it. */
  lemma {:induction false} FlattenMembers(sections: seq<Section>, q: Question)
    ensures q in Flatten(sections) <==> exists i :: 0 <= i < |sections| && q in sections[i].questions
  {
    if sections != [] {
      var n := |sections|;
      var init := sections[..n - 1];
      FlattenMembers(init, q);
      if q in Flatten(init) {
        var i :| 0 <= i < |init| && q in init[i].questions;
        assert sections[i] == init[i];
      } else if q in sections[n - 1].questions {
      } else {
        forall i | 0 <= i < n
          ensures q !in sections[i].questions
        {
          if i < n - 1 {
            assert sections[i] == init[i];
          }
        }
      }
    }
  }

  /** The predicate `q => q._id === id` that the resolver searches with. */
  function HasId(id: string): Question -> bool
  {
    (q: Question) => q.id == id
  }

  /** What the resolver hands to the rest of the page. */
  datatype Nav = Nav(current: Option<Question>, nextId: Option<string>, prevId: Option<string>)

  /** The navigation memo: no test data or a falsy selection gives nothing;
      otherwise the first question with the selected id and the ids either
      side of its position, where a missing id counts as position -1. */
  function Navigate(data: Option<TestData>, selected: Option<string>): (r: Nav)
    ensures r.current.Some? ==>
              data.Some? && IsTruthy(selected) && r.current.value.id == selected.value &&
              r.current.value in Flatten(data.value.sections)
    ensures r.prevId.Some? ==> r.current.Some?
  {
    if data.None? || !IsTruthy(selected) then Nav(None, None, None)
    else
      var all := Flatten(data.value.sections);
      var i := FindIndex(all, HasId(selected.value));
      Nav(if 0 <= i then Some(all[i]) else None,
          if i < |all| - 1 then Some(all[i + 1].id) else None,
          if 0 < i then Some(all[i - 1].id) else None)
  }

  lemma NavigateWithoutSelection(data: Option<TestData>, selected: Option<string>)
    requires data.None? || !IsTruthy(selected)
    ensures Navigate(data, selected) == Nav(None, None, None)
  {
  }

  /** When the selected id first occurs at position `i` of the flattened
      line, the current question is that one and the neighbours are the ids
      at `i - 1` and `i + 1`, whenever those positions exist. */
  lemma NavigateAt(data: TestData, id: string, i: nat)
    requires id != ""
    requires i < |Flatten(data.sections)|
    requires Flatten(data.sections)[i].id == id
    requires forall k :: 0 <= k < i ==> Flatten(data.sections)[k].id != id
    ensures var all := Flatten(data.sections);
            Navigate(Some(data), Some(id)) ==
            Nav(Some(all[i]),
                if i < |all| - 1 then Some(all[i + 1].id) else None,
                if 0 < i then Some(all[i - 1].id) else None)
  {
    FindIndexIsFirst(Flatten(data.sections), HasId(id), i);
  }

  /** A stale selection (an id no question carries) has no current question
      and no previous one, but its next is the first question of the line,
      because position -1 lies before the last position. */
  lemma NavigateStale(data: TestData, id: string)
    requires id != ""
    requires forall k :: 0 <= k < |Flatten(data.sections)| ==> Flatten(data.sections)[k].id != id
    ensures var all := Flatten(data.sections);
            Navigate(Some(data), Some(id)) ==
            Nav(None, if |all| > 0 then Some(all[0].id) else None, None)
  {
  }

  /** With distinct, non-empty ids, stepping forward and then back returns to
      the question one started from. */
  lemma NextThenPrev(data: TestData, id: string)
    requires forall k :: 0 <= k < |Flatten(data.sections)| ==> Flatten(data.sections)[k].id != ""
    requires forall k, m :: 0 <= k < m < |Flatten(data.sections)| ==>
               Flatten(data.sections)[k].id != Flatten(data.sections)[m].id
    requires Navigate(Some(data), Some(id)).current.Some?
    requires Navigate(Some(data), Some(id)).nextId.Some?
    ensures Navigate(Some(data), Navigate(Some(data), Some(id)).nextId).prevId == Some(id)
  {
    var all := Flatten(data.sections);
    var i := FindIndex(all, HasId(id));
    NavigateAt(data, all[i + 1].id, i + 1);
  }

  /** The navigation memo as the source runs it: the flattened line is built
      by appending each section's questions, then scanned from the front. */
  method Resolve(data: Option<TestData>, selected: Option<string>) returns (nav: Nav)
    ensures nav == Navigate(data, selected)
  {
    if data.None? || !IsTruthy(selected) {
      return Nav(None, None, None);
    }
    var sections := data.value.sections;
    var id := selected.value;
    var all: seq<Question> := [];
    var s := 0;
    while s < |sections|
      invariant 0 <= s <= |sections|
      invariant all == Flatten(sections[..s])
    {
      assert sections[..s + 1][..s] == sections[..s];
      all := all + sections[s].questions;
      s := s + 1;
    }
    assert sections[..s] == sections;
    var i := 0;
    while i < |all| && all[i].id != id
      invariant 0 <= i <= |all|
      invariant forall k :: 0 <= k < i ==> all[k].id != id
    {
      i := i + 1;
    }
    var index := if i < |all| then i else -1;
    if i < |all| {
      FindIndexIsFirst(all, HasId(id), i);
    }
    assert index == FindIndex(all, HasId(id));
    var current := if 0 <= index then Some(all[index]) else None;
    var nextId := if index < |all| - 1 then Some(all[index + 1].id) else None;
    var prevId := if 0 < index then Some(all[index - 1].id) else None;
    nav := Nav(current, nextId, prevId);
  }
}
