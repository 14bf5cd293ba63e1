/** The detail view of components/QuestionView.tsx: how the header badge,
    each option, the integer-answer cells and the solution panel are chosen
    from the question's recorded fields. */
module QuestionView {
  import opened Types
  import Sidebar

  /** The option styles of `getOptionClass`. */
  datatype OptionStyle = CorrectAnswer | WrongChoice | Neutral

  /** `getOptionClass`: the correct answer is always highlighted, a marked
      wrong option is flagged, everything else is plain. */
  function OptionClass(opt: AnswerOption): (r: OptionStyle)
    ensures (r == CorrectAnswer) <==> opt.isCorrect
    ensures (r == WrongChoice) <==> opt.isMarked && !opt.isCorrect
    ensures (r == Neutral) <==> !opt.isMarked && !opt.isCorrect
  {
    if opt.isCorrect then CorrectAnswer
    else if opt.isMarked && !opt.isCorrect then WrongChoice
    else Neutral
  }

  /** The colour of the round letter beside each option, chosen by its own
      nested conditional. */
  function LetterStyle(opt: AnswerOption): OptionStyle
  {
    if opt.isCorrect then CorrectAnswer
    else if opt.isMarked then WrongChoice
    else Neutral
  }

  /** The letter and the option box are always coloured alike. */
  lemma LetterMatchesOption(opt: AnswerOption)
    ensures LetterStyle(opt) == OptionClass(opt)
  {
  }

  /** Badge variants of the ui/Badge component that the view uses. */
  datatype BadgeVariant = Success | Destructive | Secondary

  /** The "Your Answer" badge of a multiple-choice option, if shown. */
  function YourAnswerBadge(opt: AnswerOption): (r: Option<BadgeVariant>)
    ensures r.Some? <==> opt.isMarked
    ensures r == Some(Success) <==> opt.isMarked && opt.isCorrect
    ensures r == Some(Destructive) <==> opt.isMarked && !opt.isCorrect
  {
    if opt.isMarked then Some(if opt.isCorrect then Success else Destructive) else None
  }

  /** A marked correct option is coloured as the correct answer and still
      labelled as the user's answer: the label follows marking alone, the
      colour follows correctness first. */
  lemma MarkedCorrectOption(opt: AnswerOption)
    requires opt.isMarked && opt.isCorrect
    ensures OptionClass(opt) == CorrectAnswer && YourAnswerBadge(opt) == Some(Success)
  {
  }

  /** `String.fromCharCode(65 + idx)`: the UTF-16 code unit of the option's
      letter; `fromCharCode` keeps its argument modulo 2^16. */
  function OptionLetter(idx: nat): nat
  {
    (65 + idx) % 0x1_0000
  }

  /** The first 26 options are lettered A to Z in order. */
  lemma OptionLettersAreCapitals(idx: nat)
    requires idx < 26
    ensures 'A' as nat <= OptionLetter(idx) <= 'Z' as nat
    ensures OptionLetter(idx) - 'A' as nat == idx
  {
  }

  /** Options before the wrap-around get different letters. */
  lemma OptionLettersDistinct(i: nat, j: nat)
    requires i < j < 0x1_0000 - 65
    ensures OptionLetter(i) < OptionLetter(j)
  {
  }

  /** The header badge of `renderStatusBadge`. */
  datatype HeaderBadge = CorrectBadge | IncorrectBadge | NotAttemptedBadge

  /** `renderStatusBadge`: correct, else incorrect when attempted, else not
      attempted. Partial correctness is not consulted. */
  function StatusBadge(q: Question): (r: HeaderBadge)
    ensures (r == CorrectBadge) <==> q.isCorrect
    ensures (r == IncorrectBadge) <==> q.isAttempted && !q.isCorrect
    ensures (r == NotAttemptedBadge) <==> !q.isAttempted && !q.isCorrect
  {
    if q.isCorrect then CorrectBadge
    else if q.isAttempted && !q.isCorrect then IncorrectBadge
    else NotAttemptedBadge
  }

  function BadgeVariantOf(b: HeaderBadge): BadgeVariant
  {
    match b
    case CorrectBadge => Success
    case IncorrectBadge => Destructive
    case NotAttemptedBadge => Secondary
  }

  /** The header badge a palette colour corresponds to, when there is one. */
  function BadgeForStatus(s: Sidebar.PaletteStatus): Option<HeaderBadge>
  {
    match s
    case Correct => Some(CorrectBadge)
    case Incorrect => Some(IncorrectBadge)
    case Unattempted => Some(NotAttemptedBadge)
    case _ => None
  }

  /** Header and palette agree on every question that is not partially
      correct, or is correct as well. */
  lemma HeaderAgreesWithPalette(q: Question)
    requires q.isCorrect || !q.isPartiallyCorrect
    ensures BadgeForStatus(Sidebar.StatusClass(q, false)) == Some(StatusBadge(q))
  {
  }

  /** On a partially correct question that is not correct the two disagree:
      the palette shows it as partial, the header as incorrect when it was
      attempted and as not attempted otherwise. */
  lemma HeaderDisagreesOnPartial(q: Question)
    requires !q.isCorrect && q.isPartiallyCorrect
    ensures Sidebar.StatusClass(q, false) == Sidebar.Partial
    ensures StatusBadge(q) == if q.isAttempted then IncorrectBadge else NotAttemptedBadge
  {
  }

  /** The "Correct Answer" cell of an integer question:
      `opt.solution || opt.nameText`. */
  function CorrectAnswerCell(opt: AnswerOption): Option<Scalar>
  {
    if ScalarIsTruthy(opt.solution) then opt.solution else opt.nameText
  }

  /** A solution recorded as the number 0 or as "" is falsy, so the cell
      falls back to the option's text. */
  lemma ZeroSolutionFallsBack(opt: AnswerOption)
    requires opt.solution == Some(Num(0)) || opt.solution == Some(Str(""))
    ensures CorrectAnswerCell(opt) == opt.nameText
  {
  }

  /** The "Your Answer" cell of an integer question: the option's text when
      marked, "--" otherwise. */
  function UserAnswerCell(opt: AnswerOption): Option<Scalar>
  {
    if opt.isMarked then opt.nameText else Some(Str("--"))
  }

  datatype AnswerColour = Green | Rose

  /** The colour of the "Your Answer" cell. */
  function UserAnswerColour(opt: AnswerOption): (r: AnswerColour)
    ensures r == Green <==> opt.isMarked && opt.isCorrect
  {
    if opt.isMarked && opt.isCorrect then Green else Rose
  }

  /** How the two cells of an integer answer relate: an unmarked option shows
      "--" in rose; a marked option without a truthy solution shows the same
      value in both cells; green appears exactly when the small badge reads
      Correct, which is the multiple-choice "Your Answer" success badge. */
  lemma IntegerAnswerCells(opt: AnswerOption)
    ensures !opt.isMarked ==> UserAnswerCell(opt) == Some(Str("--")) && UserAnswerColour(opt) == Rose
    ensures opt.isMarked && !ScalarIsTruthy(opt.solution) ==> UserAnswerCell(opt) == CorrectAnswerCell(opt)
    ensures opt.isMarked ==> UserAnswerCell(opt) == opt.nameText
    ensures UserAnswerColour(opt) == Green <==> YourAnswerBadge(opt) == Some(Success)
  {
  }

  /** `userSelectedOption`: the first marked option, if any. */
  function UserSelectedOption(q: Question): (r: Option<AnswerOption>)
    ensures r.None? <==> forall k :: 0 <= k < |q.options| ==> !q.options[k].isMarked
    ensures r.Some? ==> r.value.isMarked && r.value in q.options
    ensures r.Some? ==> exists k :: 0 <= k < |q.options| && q.options[k] == r.value &&
                          forall m :: 0 <= m < k ==> !q.options[m].isMarked
  {
    Find(q.options, (o: AnswerOption) => o.isMarked)
  }

  /** ECMAScript white space and line terminators, which `trim` removes. */
  predicate IsJsWhitespace(c: char)
  {
    var u := c as int;
    u == 0x09 || u == 0x0A || u == 0x0B || u == 0x0C || u == 0x0D || u == 0x20 ||
    u == 0xA0 || u == 0x1680 || (0x2000 <= u <= 0x200A) || u == 0x2028 || u == 0x2029 ||
    u == 0x202F || u == 0x205F || u == 0x3000 || u == 0xFEFF
  }

  /** `s` without its leading white space. */
  function TrimStart(s: string): (r: string)
    ensures |r| <= |s| && r == s[|s| - |r|..]
    ensures r == [] || !IsJsWhitespace(r[0])
    ensures forall k :: 0 <= k < |s| - |r| ==> IsJsWhitespace(s[k])
  {
    if s != [] && IsJsWhitespace(s[0]) then TrimStart(s[1..]) else s
  }

  /** `s` without its trailing white space. */
  function TrimEnd(s: string): (r: string)
    ensures |r| <= |s| && r == s[..|r|]
    ensures r == [] || !IsJsWhitespace(r[|r| - 1])
    ensures forall k :: |r| <= k < |s| ==> IsJsWhitespace(s[k])
  {
    if s != [] && IsJsWhitespace(s[|s| - 1]) then TrimEnd(s[..|s| - 1]) else s
  }

  /** `s.trim()`: no white space is left at either end. */
  function Trim(s: string): (r: string)
    ensures |r| <= |s|
    ensures r == [] || (!IsJsWhitespace(r[0]) && !IsJsWhitespace(r[|r| - 1]))
  {
    TrimEnd(TrimStart(s))
  }

  /** `.length` counts UTF-16 code units: characters beyond the Basic
      Multilingual Plane count twice. */
  function Utf16Length(s: string): (n: nat)
    ensures |s| <= n <= 2 * |s|
  {
    if s == [] then 0
    else Utf16Length(s[..|s| - 1]) + (if s[|s| - 1] as int > 0xFFFF then 2 else 1)
  }

  /** The solution panel is shown for a present solution whose trimmed
      length exceeds 60. */
  predicate ShowsSolution(q: Question)
  {
    q.solution.Some? && q.solution.value != "" && Utf16Length(Trim(q.solution.value)) > 60
  }

  /** Every character of `s` is white space. */
  predicate AllWhitespace(s: string)
  {
    forall k :: 0 <= k < |s| ==> IsJsWhitespace(s[k])
  }

  /** A shown solution has more than 30 characters that are not white space
      at either end; a solution of white space alone is never shown. */
  lemma ShownSolutionHasContent(q: Question)
    ensures ShowsSolution(q) ==>
              |Trim(q.solution.value)| > 30 &&
              !IsJsWhitespace(Trim(q.solution.value)[0])
    ensures q.solution.Some? && AllWhitespace(q.solution.value) ==> !ShowsSolution(q)
  {
    if q.solution.Some? {
      var s := q.solution.value;
      var t := TrimStart(s);
      if ShowsSolution(q) {
        assert Trim(s) != [];
        assert Trim(s)[0] == t[0];
      }
    }
  }

  lemma {:induction false} TrimStartSkipsPadding(pad: string, s: string)
    requires AllWhitespace(pad)
    ensures TrimStart(pad + s) == TrimStart(s)
  {
    if pad != [] {
      assert (pad + s)[1..] == pad[1..] + s;
      TrimStartSkipsPadding(pad[1..], s);
    } else {
      assert pad + s == s;
    }
  }

  lemma {:induction false} TrimEndSkipsPadding(s: string, pad: string)
    requires AllWhitespace(pad)
    ensures TrimEnd(s + pad) == TrimEnd(s)
  {
    if pad != [] {
      assert (s + pad)[..|s + pad| - 1] == s + pad[..|pad| - 1];
      TrimEndSkipsPadding(s, pad[..|pad| - 1]);
    } else {
      assert s + pad == s;
    }
  }

  lemma {:induction false} TrimStartKeepsTail(s: string, pad: string)
    requires AllWhitespace(pad)
    ensures TrimStart(s + pad) == if TrimStart(s) == [] then [] else TrimStart(s) + pad
  {
    if s == [] {
      assert s + pad == pad;
    } else {
      assert (s + pad)[0] == s[0];
      if IsJsWhitespace(s[0]) {
        assert (s + pad)[1..] == s[1..] + pad;
        TrimStartKeepsTail(s[1..], pad);
      }
    }
  }

  /** Leading padding is gone after `TrimStart`. */
  lemma {:induction false} TrimStartPadded(lead: string, s: string, trail: string)
    requires AllWhitespace(lead)
    ensures TrimStart(lead + s + trail) == TrimStart(s + trail)
  {
    assert lead + s + trail == lead + (s + trail);
    TrimStartSkipsPadding(lead, s + trail);
  }

  /** Trailing padding is gone after `TrimEnd`, once `TrimStart` has run. */
  lemma {:induction false} TrimEndPadded(s: string, trail: string)
    requires AllWhitespace(trail)
    ensures TrimEnd(TrimStart(s + trail)) == TrimEnd(TrimStart(s))
  {
    TrimStartKeepsTail(s, trail);
    if TrimStart(s) != [] {
      TrimEndSkipsPadding(TrimStart(s), trail);
    }
  }

  lemma TrimSkipsPadding(lead: string, s: string, trail: string)
    requires AllWhitespace(lead) && AllWhitespace(trail)
    ensures Trim(lead + s + trail) == Trim(s)
  {
    calc {
      Trim(lead + s + trail);
      TrimEnd(TrimStart(lead + s + trail));
      { TrimStartPadded(lead, s, trail); }
      TrimEnd(TrimStart(s + trail));
      { TrimEndPadded(s, trail); }
      TrimEnd(TrimStart(s));
      Trim(s);
    }
  }

  /** White space around a solution never decides whether its panel shows. */
  lemma PaddingDoesNotShowSolution(q: Question, lead: string, trail: string)
    requires q.solution.Some?
    requires AllWhitespace(lead) && AllWhitespace(trail)
    ensures ShowsSolution(q.(solution := Some(lead + q.solution.value + trail))) == ShowsSolution(q)
  {
    var s := q.solution.value;
    var padded := lead + s + trail;
    var q2 := q.(solution := Some(padded));
    TrimSkipsPadding(lead, s, trail);
    var n := Utf16Length(Trim(s));
    assert ShowsSolution(q2) == (padded != "" && n > 60);
    assert ShowsSolution(q) == (s != "" && n > 60);
    if s == "" {
      assert Trim(s) == "";
      assert n == 0;
    } else {
      assert padded != "" by {
        assert |padded| == |lead| + |s| + |trail|;
      }
    }
  }

  /** The Previous and Next buttons: Previous is disabled exactly when
      `hasPrev` is false, Next exactly when `hasNext` is false. */
  datatype NavControls = NavControls(prevDisabled: bool, nextDisabled: bool)

  function Controls(hasPrev: bool, hasNext: bool): (r: NavControls)
    ensures r.prevDisabled <==> !hasPrev
    ensures r.nextDisabled <==> !hasNext
  {
    NavControls(!hasPrev, !hasNext)
  }
}
