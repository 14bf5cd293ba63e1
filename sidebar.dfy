/** The question palette of components/Sidebar.tsx: one panel per section,
    headed by the section's score, holding one button per question, each
    coloured by the question's status and overlaid with star and review
    marks. */
module Sidebar {
  import opened Types
  import opened Navigation

  /** The palette colours, highest precedence first. */
  datatype PaletteStatus = Selected | Correct | Partial | Incorrect | Unattempted

  /** `getQuestionStatusClass`: selection wins, then correct, then partially
      correct, then attempted-and-wrong; everything else is unattempted. */
  function StatusClass(q: Question, isSelected: bool): (r: PaletteStatus)
    ensures (r == Selected) <==> isSelected
    ensures (r == Correct) <==> !isSelected && q.isCorrect
    ensures (r == Partial) <==> !isSelected && !q.isCorrect && q.isPartiallyCorrect
    ensures (r == Incorrect) <==> !isSelected && q.isAttempted && !q.isCorrect && !q.isPartiallyCorrect
    ensures (r == Unattempted) <==> !isSelected && !q.isAttempted && !q.isCorrect && !q.isPartiallyCorrect
  {
    if isSelected then Selected
    else if q.isCorrect then Correct
    else if q.isPartiallyCorrect then Partial
    else if q.isAttempted && !q.isCorrect && !q.isPartiallyCorrect then Incorrect
    else Unattempted
  }

  /** The status reads the selection and three flags and nothing else: in
      particular not `markForReview`. */
  lemma StatusReadsOnlyFlags(q1: Question, q2: Question, isSelected: bool)
    requires q1.isCorrect == q2.isCorrect
    requires q1.isPartiallyCorrect == q2.isPartiallyCorrect
    requires q1.isAttempted == q2.isAttempted
    ensures StatusClass(q1, isSelected) == StatusClass(q2, isSelected)
  {
  }

  /** A section's score, `{scored, total}`. */
  datatype Score = Score(scored: int, total: int)

  /** `getSectionScore`: nothing without statistics; otherwise the marks of
      the first statistics entry for the section, or nothing if none is. */
  function SectionScore(stats: Option<seq<SectionStats>>, sectionId: string): (r: Option<Score>)
    ensures stats.None? ==> r.None?
    ensures stats.Some? && r.None? ==>
              forall k :: 0 <= k < |stats.value| ==> stats.value[k].sectionId != sectionId
    ensures r.Some? ==>
              stats.Some? &&
              var k := FindIndex(stats.value, (s: SectionStats) => s.sectionId == sectionId);
              0 <= k < |stats.value| && stats.value[k].sectionId == sectionId &&
              (forall m :: 0 <= m < k ==> stats.value[m].sectionId != sectionId) &&
              r.value == Score(stats.value[k].marksScored, stats.value[k].sectionMarks)
  {
    if stats.None? then None
    else
      match Find(stats.value, (s: SectionStats) => s.sectionId == sectionId)
      case Some(stat) => Some(Score(stat.marksScored, stat.sectionMarks))
      case None => None
  }

  /** The text in a section's header badge. */
  datatype ScoreLabel = ScoredOutOf(scored: int, total: int) | MarksOnly(marks: int)

  /** The section header: `scored/total` when the section has a score,
      otherwise the section's own marks. */
  function SectionBadge(section: Section, stats: Option<seq<SectionStats>>): (r: ScoreLabel)
    ensures r.MarksOnly? <==> SectionScore(stats, section.id).None?
    ensures r.MarksOnly? ==> r.marks == section.sectionMarks
    ensures r.ScoredOutOf? ==> SectionScore(stats, section.id) == Some(Score(r.scored, r.total))
  {
    match SectionScore(stats, section.id)
    case Some(score) => ScoredOutOf(score.scored, score.total)
    case None => MarksOnly(section.sectionMarks)
  }

  /** What one palette button shows. */
  datatype PaletteButton = PaletteButton(
    questionId: string,
    number: int,
    status: PaletteStatus,
    star: bool,
    reviewDot: bool)

  /** One palette button: labelled with the question's order, selected when
      the selection equals its id, starred when its id is in the star set,
      and dotted when it is marked for review. */
  function Button(q: Question, selected: Option<string>, starred: seq<string>): PaletteButton
  {
    PaletteButton(q.id, q.order, StatusClass(q, selected == Some(q.id)), q.id in starred, q.markForReview)
  }

  /** The overlays are independent of the colour: the star follows the star
      set alone and the review dot follows `markForReview` alone. */
  lemma ButtonOverlays(q: Question, selected: Option<string>, starred: seq<string>)
    ensures Button(q, selected, starred).star <==> q.id in starred
    ensures Button(q, selected, starred).reviewDot <==> q.markForReview
    ensures Button(q, selected, starred).number == q.order
    ensures Button(q.(markForReview := !q.markForReview), selected, starred).status ==
            Button(q, selected, starred).status
  {
  }

  datatype SectionPanel = SectionPanel(sectionId: string, badge: ScoreLabel, buttons: seq<PaletteButton>)

  function Panel(section: Section, stats: Option<seq<SectionStats>>, selected: Option<string>,
                 starred: seq<string>): SectionPanel
  {
    SectionPanel(section.id, SectionBadge(section, stats),
      seq(|section.questions|, k requires 0 <= k < |section.questions| =>
        Button(section.questions[k], selected, starred)))
  }

  /** The palette: one panel per section, in section order. */
  function Palette(sections: seq<Section>, stats: Option<seq<SectionStats>>, selected: Option<string>,
                   starred: seq<string>): seq<SectionPanel>
  {
    seq(|sections|, i requires 0 <= i < |sections| => Panel(sections[i], stats, selected, starred))
  }

  /** The buttons of all panels, in the order they appear on the page. */
  function AllButtons(panels: seq<SectionPanel>): seq<PaletteButton>
  {
    if panels == [] then []
    else AllButtons(panels[..|panels| - 1]) + panels[|panels| - 1].buttons
  }

  /** The palette lists the questions in exactly the order the navigation
      resolver steps through them. */
  lemma {:induction false} PaletteFollowsNavigationOrder(sections: seq<Section>, stats: Option<seq<SectionStats>>,
                                                        selected: Option<string>, starred: seq<string>)
    ensures |AllButtons(Palette(sections, stats, selected, starred))| == |Flatten(sections)|
    ensures forall k :: 0 <= k < |Flatten(sections)| ==>
              AllButtons(Palette(sections, stats, selected, starred))[k] ==
              Button(Flatten(sections)[k], selected, starred)
  {
    if sections != [] {
      var n := |sections|;
      var init := sections[..n - 1];
      PaletteFollowsNavigationOrder(init, stats, selected, starred);
      var panels := Palette(sections, stats, selected, starred);
      assert panels[..n - 1] == Palette(init, stats, selected, starred);
      var front := AllButtons(Palette(init, stats, selected, starred));
      var last := panels[n - 1].buttons;
      assert AllButtons(panels) == front + last;
      assert Flatten(sections) == Flatten(init) + sections[n - 1].questions;
      forall k | 0 <= k < |Flatten(sections)|
        ensures AllButtons(panels)[k] == Button(Flatten(sections)[k], selected, starred)
      {
        if k >= |front| {
          assert Flatten(sections)[k] == sections[n - 1].questions[k - |front|];
        }
      }
    }
  }
}
