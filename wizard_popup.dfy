/**
 * The arithmetic behind the wizard popup: which of the eight progress
 * rows is the current one, and which ten meetings the manual-linking list
 * shows around the selection.
 */
module WizardPopup {
  import opened TuiTypes

  /** `matches_current_step`: does progress row `stepNum` belong to the current step. */
  function MatchesCurrentStep(stepNum: nat, step: WizardStep): (r: bool)
  {
    match (stepNum, step)
    case (1, Syncing) => true
    case (2, AutoLinking) => true
    case (2, ManualLinking(_, _)) => true
    case (3, CreatingMeetingWorklogs) => true
    case (4, CreatingGitHubWorklogs(_, _)) => true
    case (5, FillingGaps(_)) => true
    case (6, ReviewingWorklogs(_)) => true
    case (7, Pushing) => true
    case (8, Complete) => true
    case _ => false
  }

  /** The progress row a step is drawn on; auto and manual linking share row 2. */
  function StepNumber(step: WizardStep): (n: nat)
    ensures 1 <= n <= 8
  {
    match step
    case Syncing => 1
    case AutoLinking => 2
    case ManualLinking(_, _) => 2
    case CreatingMeetingWorklogs => 3
    case CreatingGitHubWorklogs(_, _) => 4
    case FillingGaps(_) => 5
    case ReviewingWorklogs(_) => 6
    case Pushing => 7
    case Complete => 8
  }

  /** Every step matches exactly one row, and every other (row, step) pair is false. */
  lemma MatchesExactlyOneRow(stepNum: nat, step: WizardStep)
    ensures MatchesCurrentStep(stepNum, step) <==> stepNum == StepNumber(step)
  {
  }

  /** Row 2 is lit for both linking steps, and only for them. */
  lemma RowTwoIsLinking(step: WizardStep)
    ensures MatchesCurrentStep(2, step) <==> step.AutoLinking? || step.ManualLinking?
  {
  }

  const MaxVisible: nat := 10

  /** The `[start, end)` slice of the unlinked meetings the popup lists. */
  function ScrollWindow(total: nat, selected: nat): (w: (nat, nat))
    ensures w.0 <= w.1 <= total
    ensures w.1 - w.0 == if total <= MaxVisible then total else MaxVisible
    ensures selected < total ==> w.0 <= selected < w.1
  {
    var half := MaxVisible / 2;
    var start: nat :=
      if total <= MaxVisible then 0
      else if selected < half then 0
      else if selected >= total - half then total - MaxVisible
      else selected - half;
    var end := if start + MaxVisible < total then start + MaxVisible else total;
    (start, end)
  }

  /** Short lists are shown whole; a selection near the end pins the window to the last ten rows. */
  lemma ScrollWindowExamples()
    ensures ScrollWindow(7, 3) == (0, 7)
    ensures ScrollWindow(30, 2) == (0, 10)
    ensures ScrollWindow(30, 12) == (7, 17)
    ensures ScrollWindow(30, 27) == (20, 30)
  {
  }
}
