# Test-result viewer: navigation, stars and status classifiers

This project models the logic of a single-page viewer for pre-graded test
results. The rest of the viewer is markup. The model covers:

- **The page state (App.tsx).** This is the current test id, its loaded
  document, the selected question id and the set of starred question ids.
  Handlers change it: load a test, select a test, select a question, toggle
  a star, and step to the next or previous question.
- **The navigation resolver (App.tsx).** It lays the questions of all
  sections out in one line, finds the first question with the selected id,
  and derives the previous and next ids from that position.
- **The star store (App.tsx).** Each test's starred set is written to local
  storage under `starred_questions_<testId>` and read back when the test is
  loaded.
- **The question palette (components/Sidebar.tsx).** It has a colour for
  each question with a fixed precedence, star and review overlays, and
  per-section scores.
- **The detail view (components/QuestionView.tsx).** This covers option
  styling, the "Your Answer" badge, the header badge, option letters, the
  integer-answer cells, the solution panel, and the Previous/Next controls.

Modules:

- `Types` (types.dfy) holds the data model. It also holds `FindIndex` and
  `Find`, the two array searches everything else is built on.
- `Navigation` (navigation.dfy) holds the resolver.
- `Stars` (stars.dfy) holds the star store.
- `App` (app.dfy) holds the page state as the class `Session`.
- `Sidebar` (sidebar.dfy) holds the palette.
- `QuestionView` (question_view.dfy) holds the detail view.

Two modelling choices need stating:

- **The starred set.** A JavaScript `Set` keeps insertion order and has no
  repeats. It is modelled as a sequence of distinct ids. Deleting keeps the
  order of the others, and adding appends.
- **JavaScript truthiness.** It is kept where the code relies on it:
  - An empty selected id counts as no selection in App.tsx.
  - A solution of `0` or `""` counts as missing in the integer answer cell.

Three behaviours of the code are easy to misread:

- **Stale selection.** A selection that no question carries still gets a
  next id. Its position is -1, which is before the last position, so next
  is the first question of the line (`NavigateStale`). No question is shown
  in that state, so Previous and Next are not on the page
  (`StaleSelectionCannotStep`, `Session.GoNext`). The star handler has no
  such guard of its own (`Session.ToggleStar`); only the page keeps its
  button away while no question is shown.
- **Header badge versus palette.** The header badge ignores partial
  correctness, while the palette does not (`HeaderDisagreesOnPartial`).
- **Selection on load.** Switching tests selects the first question only
  when the first section has one; otherwise the old selection stays
  (`LoadKeepsSelection`).

## Model

| member | source | states |
|---|---|---|
| Types.FindIndex | App.tsx:103-105 | `findIndex`: the result is -1 or a valid index. A found index matches. No earlier element matches, and with -1 none matches at all. |
| Types.FindIndexIsFirst | App.tsx:103-105 | Any matching index with no match before it is the one `findIndex` returns, so the first match wins. |
| Types.Find | components/Sidebar.tsx:70 | `find`: nothing exactly when no element matches; otherwise a matching member of the array, the one at the first matching index. |
| Navigation.Flatten | App.tsx:100-101 | The flattened line: every section's questions, section after section. Its behaviour is stated by `FlattenLength`, `FlattenAt` and `FlattenMembers`. |
| Navigation.FlattenLength | App.tsx:100-101 | The flattened line is as long as the sum of the section lengths. |
| Navigation.FlattenAt | App.tsx:100-101 | Question j of section i is at position (questions of sections before i) + j: sections in order, each in its own order. |
| Navigation.FlattenMembers | App.tsx:100-101 | A question is in the line exactly when some section holds it. |
| Navigation.Navigate | App.tsx:90-116 | The resolver. A current question exists only with test data and a non-empty selection; it carries the selected id and lies on the flattened line. A previous id exists only with a current question. `NavigateAt` and `NavigateStale` give the full result. |
| Navigation.NavigateWithoutSelection | App.tsx:92-97 | With no test data, or a null or empty selection, current, next and previous are all null. |
| Navigation.NavigateAt | App.tsx:103-113 | Suppose the selected id first occurs at position i. Then current is element i. Previous is the id at i-1 exactly when i > 0. Next is the id at i+1 exactly when i < n-1. |
| Navigation.NavigateStale | App.tsx:106-113 | For an id no question carries, current and previous are null. Next is the first question's id when the line is non-empty, and null when it is empty. |
| Navigation.NextThenPrev | App.tsx:108-113 | With distinct, non-empty ids, the previous of the next question is the starting question. |
| Navigation.Resolve | App.tsx:90-116 | The memo as written: flatten with an append loop, then scan from the front. It returns exactly the resolver's specified result. |
| Stars.StarKeyInjective | App.tsx:80-81 | Two test ids with the same storage key are the same id. |
| Stars.StarKey | App.tsx:40-41 | The key `starred_questions_<testId>`, used by both the read and the write; `StarKeyInjective` states that tests never share one. |
| Stars.Remove | App.tsx:73 | `Set.delete`: keeps exactly the other elements, keeps a set a set, and changes nothing when x is absent. |
| Stars.RemoveAt | App.tsx:71-73 | Deleting the element at position i of a set closes the gap, and the order of the rest is kept. |
| Stars.Toggled | App.tsx:71-76 | The toggle: delete when present, otherwise append. `ToggledMembership` and `ToggleTwice` state its behaviour. |
| Stars.ToggledMembership | App.tsx:71-76 | A toggle flips the membership of the toggled id. It leaves every other id's membership alone and keeps the set free of repeats. |
| Stars.ToggleTwice | App.tsx:71-76 | Toggling twice restores the set. Starting from an absent id, it restores the exact order too. |
| Stars.Dedup | App.tsx:45 | `new Set(list)`: it has no repeats and holds exactly the listed ids. |
| Stars.DedupOfDistinct | App.tsx:45 | A list without repeats becomes a set with the same elements in the same order. |
| Stars.LoadStars | App.tsx:40-52 | An absent key or an unparseable value gives the empty set. Otherwise the result is exactly the stored ids, without repeats. |
| Stars.StoreThenLoad | App.tsx:78-83 | Writing a set under a test's key and reading it back gives the same set. |
| Stars.StoreLeavesOtherTests | App.tsx:80-83 | Writing one test's stars leaves every other test's stars unchanged. |
| App.FirstQuestionLeadsTheLine | App.tsx:31-37 | The first question of the first section is the head of the flattened line. |
| App.FirstQuestionId | App.tsx:31-36 | The first question of the first section, when the document, the section and the question all exist. `FirstQuestionLeadsTheLine` ties it to the navigation line. |
| App.AfterLoad | App.tsx:23-54 | The load effect's outcome. `LoadUnknownTest`, `LoadSelectsFirst`, `LoadKeepsSelection` and `LoadRestoresStars` state each of its cases. |
| App.LoadUnknownTest | App.tsx:24-25 | Loading an id that is not in the registry changes nothing. |
| App.LoadSelectsFirst | App.tsx:27-37 | Loading a registered test whose first section has a question does three things. It sets the document, selects the head of the line, and gives no previous question. |
| App.LoadKeepsSelection | App.tsx:31-37 | When the first section has no first question, or the document is missing, the old selection stays. |
| App.LoadRestoresStars | App.tsx:39-52 | After a load, the stars are a set. They are empty for an absent or unparseable value, and otherwise exactly the stored ids. |
| App.ControlsOf | App.tsx:167-168 | `hasNext` and `hasPrev` are the truthiness of the resolver's ids; `ControlsAtBoundaries` states where the buttons are disabled. |
| App.ControlsAtBoundaries | App.tsx:167-168 | With non-empty ids, Previous is disabled exactly at the first position and Next exactly at the last. |
| App.ToggleSurvivesReload | App.tsx:78-83 | After a toggle, reloading the test gives back the in-memory set, and other tests' stars are untouched. |
| App.StaleSelectionCannotStep | App.tsx:149-174 | A stale selection shows no question even though the resolver's next id is set. |
| App.Session.constructor | App.tsx:9-20 | On mount, the first registry entry is current, nothing else is set, and then the load effect runs. |
| App.Session.LoadTest | App.tsx:23-54 | The load effect, with its own `find` loop: the page state becomes the specified load outcome. The current test id and storage are unchanged, and the star set stays a set. |
| App.Session.SelectTest | App.tsx:130 | Choosing a different test makes it current and reruns the load. Choosing the current test changes nothing, because the effect's dependency did not change. |
| App.Session.SelectQuestion | App.tsx:142 | A palette click selects that question's id. |
| App.Session.ToggleStar | App.tsx:68-84 | With a null or empty selection, nothing changes. Otherwise the selection is toggled, and storage gets the new set under the current test's key and nothing else. |
| App.Session.GoNext | App.tsx:157-161 | Next moves to the resolver's next id only while a question is shown and that id is non-empty. |
| App.Session.GoPrev | App.tsx:162-166 | Previous moves to the resolver's previous id only while a question is shown and that id is non-empty. |
| Sidebar.StatusClass | components/Sidebar.tsx:23-66 | Precedence: selected, then correct, then partial (whatever isAttempted says), then incorrect exactly when attempted and neither correct nor partial, then unattempted. Each combination of flags gets exactly one status. |
| Sidebar.StatusReadsOnlyFlags | components/Sidebar.tsx:35-65 | The status depends only on the selection and the three correctness flags, so markForReview never changes it. |
| Sidebar.SectionScore | components/Sidebar.tsx:68-72 | With no stats, null. Otherwise the marks of the first entry for the section, or null when no entry matches. |
| Sidebar.SectionBadge | components/Sidebar.tsx:98-104 | The header shows the section's own marks exactly when there is no score. Otherwise it shows `scored/total` of the section's score. |
| Sidebar.Button | components/Sidebar.tsx:109-138 | One palette button. `ButtonOverlays` states its label, star and dot; `StatusClass` states its colour. |
| Sidebar.Panel | components/Sidebar.tsx:84-140 | One section's panel: its score badge and one button per question, in order. `PaletteFollowsNavigationOrder` states the order. |
| Sidebar.Palette | components/Sidebar.tsx:83-140 | One panel per section, in section order. `PaletteFollowsNavigationOrder` states that its buttons follow the navigation line. |
| Sidebar.ButtonOverlays | components/Sidebar.tsx:109-137 | The star shows exactly when the id is starred, and the review dot exactly when the question is marked for review. The label is `order`. Flipping markForReview leaves the colour unchanged. |
| Sidebar.PaletteFollowsNavigationOrder | components/Sidebar.tsx:83-139 | The palette's buttons, section after section, are exactly the flattened navigation line, one button per question. |
| QuestionView.OptionClass | components/QuestionView.tsx:48-69 | A correct option is styled as the correct answer whether or not it is marked. A marked wrong option is styled as a wrong choice. Every other option is neutral. |
| QuestionView.LetterStyle | components/QuestionView.tsx:209-217 | The letter circle's own nested conditional. `LetterMatchesOption` states that it always agrees with `OptionClass`. |
| QuestionView.LetterMatchesOption | components/QuestionView.tsx:209-217 | The letter circle's colour rule always agrees with the option box's. |
| QuestionView.YourAnswerBadge | components/QuestionView.tsx:228-236 | The badge shows exactly when the option is marked. Its variant is success exactly when the option is also correct. |
| QuestionView.MarkedCorrectOption | components/QuestionView.tsx:56-59 | A marked correct option is coloured as the correct answer and still labelled as the user's answer. |
| QuestionView.OptionLetter | components/QuestionView.tsx:219 | `String.fromCharCode(65 + idx)`, taken modulo 2^16. `OptionLettersAreCapitals` and `OptionLettersDistinct` state its values. |
| QuestionView.OptionLettersAreCapitals | components/QuestionView.tsx:219 | Options 0 to 25 are lettered 'A' + idx, that is A to Z. |
| QuestionView.OptionLettersDistinct | components/QuestionView.tsx:219 | Before the 16-bit wrap-around, later options get strictly later letters. |
| QuestionView.StatusBadge | components/QuestionView.tsx:71-91 | The header says Correct exactly when correct, Incorrect exactly when attempted and not correct, and Not Attempted otherwise. |
| QuestionView.HeaderAgreesWithPalette | components/QuestionView.tsx:71-90 | For an unselected question that is correct or not partially correct, the header and the palette name the same status. |
| QuestionView.HeaderDisagreesOnPartial | components/QuestionView.tsx:79-85 | A partially correct question that is not correct is Partial in the palette. Its header says Incorrect if attempted and Not Attempted otherwise. |
| QuestionView.CorrectAnswerCell | components/QuestionView.tsx:252 | `opt.solution || opt.nameText`. `ZeroSolutionFallsBack` and `IntegerAnswerCells` state its behaviour. |
| QuestionView.ZeroSolutionFallsBack | components/QuestionView.tsx:252 | A solution of 0 or "" is falsy, so the correct-answer cell shows the option's text. |
| QuestionView.UserAnswerCell | components/QuestionView.tsx:269 | The option's text when marked, "--" otherwise. `IntegerAnswerCells` states its behaviour. |
| QuestionView.UserAnswerColour | components/QuestionView.tsx:261-266 | The user's answer is green exactly when the option is marked and correct. |
| QuestionView.IntegerAnswerCells | components/QuestionView.tsx:256-283 | Unmarked shows "--" in rose. Marked shows the option's text, which equals the correct-answer cell when there is no truthy solution. Green exactly when the Correct badge is shown. |
| QuestionView.UserSelectedOption | components/QuestionView.tsx:45 | The first marked option, or none exactly when no option is marked. |
| QuestionView.TrimStart | components/QuestionView.tsx:292 | A suffix of the input that does not start with white space, where everything dropped is white space. |
| QuestionView.TrimEnd | components/QuestionView.tsx:292 | A prefix of the input that does not end with white space, where everything dropped is white space. |
| QuestionView.Trim | components/QuestionView.tsx:292 | `trim()`: the result is no longer than the input, and neither end of it is white space. `TrimSkipsPadding` states that padding does not change it. |
| QuestionView.ShowsSolution | components/QuestionView.tsx:292 | The panel's condition. `ShownSolutionHasContent` and `PaddingDoesNotShowSolution` state its behaviour. |
| QuestionView.Utf16Length | components/QuestionView.tsx:292 | The UTF-16 length lies between the character count and twice that. |
| QuestionView.ShownSolutionHasContent | components/QuestionView.tsx:292 | A shown solution keeps more than 30 characters after trimming and starts with a non-space. A solution of white space alone is never shown. |
| QuestionView.TrimSkipsPadding | components/QuestionView.tsx:292 | Trimming ignores white space added at either end. |
| QuestionView.PaddingDoesNotShowSolution | components/QuestionView.tsx:292 | Adding white space around a solution never changes whether the panel shows. |
| QuestionView.Controls | components/QuestionView.tsx:310-326 | Previous is disabled exactly when `hasPrev` is false, and Next exactly when `hasNext` is false. |

## Left out

- Zoom in and out (App.tsx:86-87) and the zoom-bound checks (components/QuestionView.tsx:135, 145): floating-point steps of 0.1, not modelled.
- The theme toggle and its change to the document's class list (App.tsx:56-65): DOM I/O.
- `localStorage` and `JSON.parse`/`JSON.stringify`: storage is a map from key to the parsed id list, with `None` for an empty or unparseable value. A JSON value that parses but is not a list of strings, such as a number or a string, is not modelled. The write stores the list itself, so serialising and reparsing is taken to give the same list back.
- The test registry and bundled documents (constants.ts): these are the constructor's `tests` and `files` parameters. The registry must be non-empty, because the page reads `TESTS[0]`.
- `formatTime` and `cn` from `../utils`: utils is not part of this model. Time, marks and class-name strings are not modelled.
- HTML bodies (question, option and solution markup) are opaque. Only the solution text is read, by the visibility rule.
- components/TopBar.tsx, components/ui/Button.tsx and components/ui/Badge.tsx: presentation only. The test selector's choice is `Session.SelectTest`'s parameter.
- React's memoisation and render batching: the resolver is a function of the test data and the selection, and each handler's updates are applied together.
- Numbers in the documents (`order`, marks, `nameText`, `solution`) are modelled as integers. Fractional values and NaN are not modelled.
- Fields that no modelled logic reads are dropped: question marks, time taken, submit order, option HTML, section names and order, and the other statistics counters.
- The star and review overlays' lighter shades on a selected button (components/Sidebar.tsx:122, 132), and the star button's "Starred"/"Star Question" caption: colour and text variants only.
- The dispatch on the question kind (components/QuestionView.tsx:201-204): option boxes and their letters for multiple choice, the two answer cells otherwise, under an "Options" or "Answer" heading. The model keeps the kind as the field `Question.kind` but reads it nowhere; the option-box functions and the answer-cell functions are each modelled on their own, without the choice between them.
