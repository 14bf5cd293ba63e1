/** The page state of App.tsx: the current test, its loaded data, the
    selected question and the starred set, with the handlers that change
    them. The test registry and the bundled documents are constant; local
    storage is a field. */
module App {
  import opened Types
  import opened Navigation
  import opened Stars
  import QuestionView

  /** The predicate `t => t.id === id` of the registry lookup. */
  function HasTestId(id: string): TestMetadata -> bool
  {
    (t: TestMetadata) => t.id == id
  }

  /** `MOCK_TEST_DATA[fileName]`, undefined when the file is not bundled. */
  function Lookup(files: map<string, TestData>, fileName: string): Option<TestData>
  {
    if fileName in files then Some(files[fileName]) else None
  }

  /** The id of the first question of the first section, when both exist. */
  function FirstQuestionId(data: Option<TestData>): Option<string>
  {
    if data.Some? && |data.value.sections| > 0 && |data.value.sections[0].questions| > 0
    then Some(data.value.sections[0].questions[0].id)
    else None
  }

  /** The first question of the first section heads the flattened line. */
  lemma FirstQuestionLeadsTheLine(data: TestData)
    requires FirstQuestionId(Some(data)).Some?
    ensures |Flatten(data.sections)| > 0
    ensures FirstQuestionId(Some(data)) == Some(Flatten(data.sections)[0].id)
  {
    FlattenAt(data.sections, 0, 0);
    assert data.sections[..0] == [];
  }

  /** The part of the page state that the load effect rewrites. */
  datatype View = View(testData: Option<TestData>, selected: Option<string>, starred: seq<string>)

  /** The load effect: for a registered test, its document (possibly
      missing), its first question when there is one (else the old
      selection) and its stars from storage; an unregistered id changes
      nothing. */
  function AfterLoad(tests: seq<TestMetadata>, files: map<string, TestData>, storage: Storage,
                     testId: string, v: View): View
  {
    match Find(tests, HasTestId(testId))
    case None => v
    case Some(meta) =>
      var data := Lookup(files, meta.fileName);
      View(data,
           if FirstQuestionId(data).Some? then FirstQuestionId(data) else v.selected,
           LoadStars(storage, testId))
  }

  lemma LoadUnknownTest(tests: seq<TestMetadata>, files: map<string, TestData>, storage: Storage,
                        testId: string, v: View)
    requires forall k :: 0 <= k < |tests| ==> tests[k].id != testId
    ensures AfterLoad(tests, files, storage, testId, v) == v
  {
  }

  /** Loading a test with a first question selects it, so the detail view
      opens on the head of the navigation line, with no previous question.
      Entry `k` is the first registry entry with the id. */
  lemma LoadSelectsFirst(tests: seq<TestMetadata>, files: map<string, TestData>, storage: Storage,
                         testId: string, v: View, k: nat)
    requires k < |tests| && tests[k].id == testId
    requires forall m :: 0 <= m < k ==> tests[m].id != testId
    requires tests[k].fileName in files
    requires FirstQuestionId(Some(files[tests[k].fileName])).Some?
    ensures var after := AfterLoad(tests, files, storage, testId, v);
            var all := Flatten(files[tests[k].fileName].sections);
            |all| > 0 &&
            after.testData == Some(files[tests[k].fileName]) &&
            after.selected == Some(all[0].id) &&
            Navigate(after.testData, after.selected).prevId == None
  {
    FindIndexIsFirst(tests, HasTestId(testId), k);
    var data := files[tests[k].fileName];
    FirstQuestionLeadsTheLine(data);
    var all := Flatten(data.sections);
    if all[0].id != "" {
      NavigateAt(data, all[0].id, 0);
    }
  }

  /** Loading a test whose first section has no first question keeps the
      old selection. */
  lemma LoadKeepsSelection(tests: seq<TestMetadata>, files: map<string, TestData>, storage: Storage,
                           testId: string, v: View)
    requires Find(tests, HasTestId(testId)).Some?
    requires FirstQuestionId(Lookup(files, Find(tests, HasTestId(testId)).value.fileName)).None?
    ensures AfterLoad(tests, files, storage, testId, v).selected == v.selected
  {
  }

  /** A load restores exactly the ids stored under the test's key, and the
      empty set when the value is absent or does not parse. */
  lemma LoadRestoresStars(tests: seq<TestMetadata>, files: map<string, TestData>, storage: Storage,
                          testId: string, v: View)
    requires Find(tests, HasTestId(testId)).Some?
    ensures var stars := AfterLoad(tests, files, storage, testId, v).starred;
            Distinct(stars) &&
            (StarKey(testId) !in storage || storage[StarKey(testId)].None? ==> stars == []) &&
            (StarKey(testId) in storage && storage[StarKey(testId)].Some? ==>
               forall y :: y in stars <==> y in storage[StarKey(testId)].value)
  {
  }

  /** `hasPrev` and `hasNext` are the truthiness of the resolver's ids. */
  function ControlsOf(nav: Nav): QuestionView.NavControls
  {
    QuestionView.Controls(IsTruthy(nav.prevId), IsTruthy(nav.nextId))
  }

  /** With non-empty ids, Previous is disabled exactly on the first question
      of the line and Next exactly on the last. */
  lemma ControlsAtBoundaries(data: TestData, id: string, i: nat)
    requires forall k :: 0 <= k < |Flatten(data.sections)| ==> Flatten(data.sections)[k].id != ""
    requires i < |Flatten(data.sections)| && Flatten(data.sections)[i].id == id
    requires forall k :: 0 <= k < i ==> Flatten(data.sections)[k].id != id
    ensures ControlsOf(Navigate(Some(data), Some(id))).prevDisabled <==> i == 0
    ensures ControlsOf(Navigate(Some(data), Some(id))).nextDisabled <==> i == |Flatten(data.sections)| - 1
  {
    NavigateAt(data, id, i);
  }

  class Session {
    const tests: seq<TestMetadata>
    const files: map<string, TestData>
    var currentTestId: string
    var testData: Option<TestData>
    var selectedQuestionId: Option<string>
    var starred: seq<string>
    var storage: Storage

    /** The starred list is a set. */
    ghost predicate Valid()
      reads this
    {
      Distinct(starred)
    }

    function ViewOf(): View
      reads this
    {
      View(testData, selectedQuestionId, starred)
    }

    /** Mounting the page: the first registry entry is current, nothing is
        loaded, selected or starred, and then the load effect runs. */
    constructor (tests: seq<TestMetadata>, files: map<string, TestData>, storage: Storage)
      requires |tests| > 0
      ensures Valid()
      ensures this.tests == tests && this.files == files && this.storage == storage
      ensures currentTestId == tests[0].id
      ensures ViewOf() == AfterLoad(tests, files, storage, tests[0].id, View(None, None, []))
    {
      this.tests := tests;
      this.files := files;
      this.storage := storage;
      currentTestId := tests[0].id;
      testData := None;
      selectedQuestionId := None;
      starred := [];
      new;
      LoadTest();
    }

    /** The load effect for the current test id; it reads storage but never
        writes it. */
    method LoadTest()
      requires Valid()
      modifies this
      ensures Valid()
      ensures currentTestId == old(currentTestId) && storage == old(storage)
      ensures ViewOf() == AfterLoad(tests, files, storage, currentTestId, old(ViewOf()))
    {
      var k := 0;
      while k < |tests| && tests[k].id != currentTestId
        invariant 0 <= k <= |tests|
        invariant forall m :: 0 <= m < k ==> tests[m].id != currentTestId
      {
        k := k + 1;
      }
      if k < |tests| {
        FindIndexIsFirst(tests, HasTestId(currentTestId), k);
        var data := Lookup(files, tests[k].fileName);
        testData := data;
        if data.Some? && |data.value.sections| > 0 && |data.value.sections[0].questions| > 0 {
          selectedQuestionId := Some(data.value.sections[0].questions[0].id);
        }
        starred := LoadStars(storage, currentTestId);
      }
    }

    /** The test selector: choosing another test makes it current and reruns
        the load effect; choosing the current one changes nothing. */
    method SelectTest(id: string)
      requires Valid()
      modifies this
      ensures Valid()
      ensures currentTestId == id && storage == old(storage)
      ensures ViewOf() == if id == old(currentTestId) then old(ViewOf())
                          else AfterLoad(tests, files, storage, id, old(ViewOf()))
    {
      if id != currentTestId {
        currentTestId := id;
        LoadTest();
      }
    }

    /** A palette button selects its question. */
    method SelectQuestion(id: string)
      modifies this`selectedQuestionId
      ensures selectedQuestionId == Some(id)
    {
      selectedQuestionId := Some(id);
    }

    /** `handleToggleStar`: with no (or an empty) selection nothing happens;
        otherwise the selection's membership flips and the whole new set is
        written under the current test's key. On the page the star button
        exists only while a question is shown; the handler itself does not
        check that, so calls with a stale selection are admitted here and
        act as the handler would. */
    method ToggleStar()
      requires Valid()
      modifies this`starred, this`storage
      ensures Valid()
      ensures !IsTruthy(selectedQuestionId) ==> starred == old(starred) && storage == old(storage)
      ensures IsTruthy(selectedQuestionId) ==>
                starred == Toggled(old(starred), selectedQuestionId.value) &&
                storage == old(storage)[StarKey(currentTestId) := Some(starred)]
    {
      if !IsTruthy(selectedQuestionId) {
        return;
      }
      var id := selectedQuestionId.value;
      var newStarred := starred;
      if id in newStarred {
        newStarred := Remove(newStarred, id);
      } else {
        newStarred := newStarred + [id];
      }
      ToggledMembership(starred, id);
      starred := newStarred;
      storage := storage[StarKey(currentTestId) := Some(newStarred)];
    }

    /** The Next button: it exists only while a question is shown and acts
        only when the resolver gives a next id. */
    method GoNext()
      modifies this`selectedQuestionId
      ensures var nav := Navigate(testData, old(selectedQuestionId));
              selectedQuestionId ==
                if nav.current.Some? && IsTruthy(nav.nextId) then nav.nextId else old(selectedQuestionId)
    {
      var nav := Resolve(testData, selectedQuestionId);
      if nav.current.Some? && IsTruthy(nav.nextId) {
        selectedQuestionId := nav.nextId;
      }
    }

    /** The Previous button, the mirror image of Next. */
    method GoPrev()
      modifies this`selectedQuestionId
      ensures var nav := Navigate(testData, old(selectedQuestionId));
              selectedQuestionId ==
                if nav.current.Some? && IsTruthy(nav.prevId) then nav.prevId else old(selectedQuestionId)
    {
      var nav := Resolve(testData, selectedQuestionId);
      if nav.current.Some? && IsTruthy(nav.prevId) {
        selectedQuestionId := nav.prevId;
      }
    }
  }

  /** After a toggle, reloading the current test gives back the in-memory
      set, and every other test's stars are as they were. */
  lemma ToggleSurvivesReload(storage: Storage, testId: string, stars: seq<string>, id: string, other: string)
    requires Distinct(stars) && other != testId
    ensures var after := Toggled(stars, id);
            var written := storage[StarKey(testId) := Some(after)];
            LoadStars(written, testId) == after &&
            LoadStars(written, other) == LoadStars(storage, other)
  {
    ToggledMembership(stars, id);
    StoreThenLoad(storage, testId, Toggled(stars, id));
    StoreLeavesOtherTests(storage, testId, other, Toggled(stars, id));
  }

  /** A stale selection shows no question, so Next and Previous are not on
      the page and cannot act on the resolver's stale next id. */
  lemma StaleSelectionCannotStep(data: TestData, id: string)
    requires id != ""
    requires forall k :: 0 <= k < |Flatten(data.sections)| ==> Flatten(data.sections)[k].id != id
    ensures Navigate(Some(data), Some(id)).current.None?
    ensures |Flatten(data.sections)| > 0 ==> Navigate(Some(data), Some(id)).nextId.Some?
  {
    NavigateStale(data, id);
  }
}
