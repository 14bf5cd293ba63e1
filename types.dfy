/** The test-result document (types.ts), restricted to the fields that the
    viewer's logic reads, and the two array searches (`find`, `findIndex`)
    that the viewer's logic is built from. */
module Types {

  /** The conventional Some/None wrapper; JavaScript's `null`/`undefined`
      is `None`. */
  datatype Option<+T> = None | Some(value: T)

  /** A JavaScript value declared `string | number`. Numbers are modelled as
      integers. */
  datatype Scalar = Str(text: string) | Num(n: int)

  datatype QuestionKind = MultipleChoice | Integer

  /** One answer option of a question (the `Option` interface). */
  datatype AnswerOption = AnswerOption(
    id: string,
    nameText: Option<Scalar>,
    isCorrect: bool,
    isMarked: bool,
    solution: Option<Scalar>)

  datatype Question = Question(
    id: string,
    kind: QuestionKind,
    options: seq<AnswerOption>,
    solution: Option<string>,
    isAttempted: bool,
    isCorrect: bool,
    isPartiallyCorrect: bool,
    markForReview: bool,
    order: int)

  datatype Section = Section(id: string, sectionMarks: int, questions: seq<Question>)

  datatype SectionStats = SectionStats(sectionId: string, marksScored: int, sectionMarks: int)

  /** The `data` part of a test-result document. */
  datatype TestData = TestData(sections: seq<Section>, sectionWiseStats: Option<seq<SectionStats>>)

  /** One entry of the test registry. */
  datatype TestMetadata = TestMetadata(id: string, fileName: string)

  /** JavaScript truthiness of a `string | null`: null and "" are falsy. */
  predicate IsTruthy(s: Option<string>)
  {
    s.Some? && s.value != ""
  }

  /** JavaScript truthiness of an optional `string | number`: undefined, ""
      and 0 are falsy. */
  predicate ScalarIsTruthy(v: Option<Scalar>)
  {
    match v
    case None => false
    case Some(Str(t)) => t != ""
    case Some(Num(n)) => n != 0
  }

  /** `s.findIndex(p)`: the index of the first element satisfying `p`, or -1
      when there is none. */
  function FindIndex<T>(s: seq<T>, p: T -> bool): (r: int)
    ensures -1 <= r < |s|
    ensures 0 <= r ==> p(s[r])
    ensures forall k :: 0 <= k < |s| && (r < 0 || k < r) ==> !p(s[k])
  {
    if s == [] then -1
    else if p(s[0]) then 0
    else
      var r := FindIndex(s[1..], p);
      if r < 0 then -1 else r + 1
  }

  /** The first-match characterisation pins `FindIndex` down: any index
      whose element matches, with no match before it, is the one found. */
  lemma FindIndexIsFirst<T>(s: seq<T>, p: T -> bool, i: int)
    requires 0 <= i < |s| && p(s[i])
    requires forall k :: 0 <= k < i ==> !p(s[k])
    ensures FindIndex(s, p) == i
  {
  }

  /** `s.find(p)`: the first element satisfying `p`, if any. */
  function Find<T>(s: seq<T>, p: T -> bool): (r: Option<T>)
    ensures r.None? <==> forall k :: 0 <= k < |s| ==> !p(s[k])
    ensures r.Some? ==> p(r.value) && r.value in s
    ensures r.Some? ==> r.value == s[FindIndex(s, p)]
  {
    var i := FindIndex(s, p);
    if i < 0 then None else Some(s[i])
  }
}
