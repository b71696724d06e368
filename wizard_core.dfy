/**
 * The wizard's own bookkeeping, which touches nothing but the wizard
 * state: its initial state, what it records about the worklogs it
 * creates, the end of the push step, the spinner and the log of push
 * progress lines.
 */
module WizardCore {
  import opened Wrappers
  import opened Model
  import opened TuiTypes
  import opened TuiState

  /** `launch_wizard`'s state for a sprint: Syncing, nothing completed, nothing recorded yet. */
  function NewWizard(sprint: Sprint, startup: Option<string>): (w: WizardState)
    ensures w.currentStep == Syncing && w.completedSteps == {}
    ensures w.rollbackLog == EmptyRollbackLog && w.summary == EmptySummary && w.skipReasons == map[]
    ensures w.sprintId == sprint.id && w.sprintName == sprint.name
    ensures w.pushLogs == [] && w.spinnerFrame == 0 && w.pushCurrent == 0 && w.pushTotal == 0
    ensures w.startupMessage == startup
  {
    WizardState(sprint.id, sprint.name, Syncing, {}, EmptySummary, EmptyRollbackLog, map[], [], 0, 0, 0, startup)
  }

  // ---------------------------------------------------------------------
  // What the wizard records
  // ---------------------------------------------------------------------

  /** A worklog created from a meeting: counted, its time added, its id kept for rollback. */
  function RecordMeetingWorklog(w: WizardState, seconds: int, id: string): (r: WizardState)
    ensures r.summary.worklogsFromMeetings == w.summary.worklogsFromMeetings + 1
    ensures r.summary.totalSeconds == w.summary.totalSeconds + seconds
    ensures r.rollbackLog.createdWorklogIds == w.rollbackLog.createdWorklogIds + [id]
    ensures r.rollbackLog.linkedMeetingIds == w.rollbackLog.linkedMeetingIds
    ensures r.currentStep == w.currentStep && r.completedSteps == w.completedSteps
  {
    w.(summary := w.summary.(worklogsFromMeetings := w.summary.worklogsFromMeetings + 1,
                             totalSeconds := w.summary.totalSeconds + seconds),
       rollbackLog := w.rollbackLog.(createdWorklogIds := w.rollbackLog.createdWorklogIds + [id]))
  }

  /** A worklog created from a GitHub session: only its id is kept, for rollback. */
  function RecordCreatedWorklog(w: WizardState, id: string): (r: WizardState)
    ensures r.rollbackLog.createdWorklogIds == w.rollbackLog.createdWorklogIds + [id]
    ensures r.rollbackLog.linkedMeetingIds == w.rollbackLog.linkedMeetingIds
    ensures r.summary == w.summary && r.currentStep == w.currentStep && r.completedSteps == w.completedSteps
  {
    w.(rollbackLog := w.rollbackLog.(createdWorklogIds := w.rollbackLog.createdWorklogIds + [id]))
  }

  /** A meeting the auto-linking linked: it had no link before, and its id is kept for rollback. */
  function RecordLinkedMeeting(w: WizardState, meetingId: string): (r: WizardState)
    ensures r.rollbackLog.linkedMeetingIds == w.rollbackLog.linkedMeetingIds + [meetingId]
    ensures r.rollbackLog.originalMeetingLinks == w.rollbackLog.originalMeetingLinks[meetingId := None]
    ensures r.rollbackLog.createdWorklogIds == w.rollbackLog.createdWorklogIds
    ensures r.summary == w.summary && r.currentStep == w.currentStep && r.completedSteps == w.completedSteps
  {
    w.(rollbackLog := w.rollbackLog.(
         originalMeetingLinks := w.rollbackLog.originalMeetingLinks[meetingId := None],
         linkedMeetingIds := w.rollbackLog.linkedMeetingIds + [meetingId]))
  }

  // ---------------------------------------------------------------------
  // Finishing the push, the spinner, the push log
  // ---------------------------------------------------------------------

  /** `wizard_push_complete`: step 7 is done and the wizard shows Complete. */
  function PushCompleted(w: WizardState): (r: WizardState)
    ensures r.currentStep == Complete && 7 in r.completedSteps
    ensures r.completedSteps - {7} == w.completedSteps - {7}
    ensures r.summary == w.summary && r.rollbackLog == w.rollbackLog && r.pushLogs == w.pushLogs
  {
    w.(completedSteps := w.completedSteps + {7}, currentStep := Complete)
  }

  /** `wizard_update_animation`: the spinner turns, mod 10, until the wizard is Complete. */
  function Animated(w: WizardState): (r: WizardState)
    ensures w.currentStep.Complete? ==> r == w
    ensures !w.currentStep.Complete? ==> r.spinnerFrame < 10 && r == w.(spinnerFrame := r.spinnerFrame)
  {
    if w.currentStep.Complete? then w else w.(spinnerFrame := (w.spinnerFrame + 1) % 10)
  }

  /** The state after `k` animation ticks. */
  function AnimatedTimes(w: WizardState, k: nat): WizardState
    decreases k
  {
    if k == 0 then w else Animated(AnimatedTimes(w, k - 1))
  }

  /** Outside Complete, `k` ticks move a frame below 10 on by `k`, mod 10; ten ticks bring it back. */
  lemma {:induction false} SpinnerCycles(w: WizardState, k: nat)
    requires !w.currentStep.Complete? && w.spinnerFrame < 10
    ensures AnimatedTimes(w, k) == w.(spinnerFrame := (w.spinnerFrame + k) % 10)
    decreases k
  {
    if k > 0 {
      SpinnerCycles(w, k - 1);
      ModTenStep(w.spinnerFrame + (k - 1));
    }
  }

  lemma ModTenStep(x: nat)
    ensures (x % 10 + 1) % 10 == (x + 1) % 10
  {
    var q := x / 10;
    var r := x % 10;
    assert x + 1 == 10 * q + (r + 1);
    if r + 1 == 10 {
      assert x + 1 == 10 * (q + 1);
    }
  }

  const PushLogCapacity: nat := 10

  /** The handler's log update: append, then drop the front entry once there are more than ten. */
  function LogPushLine(logs: seq<string>, message: string): (r: seq<string>)
    ensures |r| > 0 && r[|r| - 1] == message
    ensures |r| <= PushLogCapacity || |r| == |logs|
  {
    var longer := logs + [message];
    if |longer| > PushLogCapacity then longer[1..] else longer
  }

  /** The last ten entries, or all of them when there are fewer. */
  function LastTen(s: seq<string>): (r: seq<string>)
    ensures |r| <= PushLogCapacity && |r| <= |s| && r == s[|s| - |r|..]
    ensures |s| <= PushLogCapacity ==> r == s
    ensures |s| > PushLogCapacity ==> |r| == PushLogCapacity
  {
    if |s| > PushLogCapacity then s[|s| - PushLogCapacity..] else s
  }

  /** Logging lines one by one. */
  function LogPushLines(logs: seq<string>, messages: seq<string>): seq<string>
    decreases |messages|
  {
    if |messages| == 0 then logs
    else
      var n := |messages| - 1;
      LogPushLine(LogPushLines(logs, messages[..n]), messages[n])
  }

  /** From a log of at most ten lines, the log is always the last ten lines seen. */
  lemma {:induction false} PushLogKeepsLastTen(logs: seq<string>, messages: seq<string>)
    requires |logs| <= PushLogCapacity
    ensures LogPushLines(logs, messages) == LastTen(logs + messages)
    decreases |messages|
  {
    if |messages| == 0 {
      assert logs + messages == logs;
    } else {
      var n := |messages| - 1;
      PushLogKeepsLastTen(logs, messages[..n]);
      var all := logs + messages[..n];
      assert logs + messages == all + [messages[n]];
      LastTenStep(all, messages[n]);
    }
  }

  lemma LastTenStep(all: seq<string>, m: string)
    ensures LogPushLine(LastTen(all), m) == LastTen(all + [m])
  {
    if |all| > PushLogCapacity {
      assert (all[|all| - PushLogCapacity..] + [m])[1..] == (all + [m])[|all| + 1 - PushLogCapacity..];
    }
  }

  /** The `PushProgress` arm of the wizard's event handler. */
  function WithPushProgress(w: WizardState, current: nat, total: nat, message: string): (r: WizardState)
    ensures r.pushCurrent == current && r.pushTotal == total
    ensures r.pushLogs == LogPushLine(w.pushLogs, message)
    ensures r.currentStep == w.currentStep && r.completedSteps == w.completedSteps
  {
    w.(pushCurrent := current, pushTotal := total, pushLogs := LogPushLine(w.pushLogs, message))
  }

  // ---------------------------------------------------------------------
  // The same updates applied to the TUI's wizard
  // ---------------------------------------------------------------------

  /** `wizard_push_complete` on the TUI: a running wizard completes, no wizard means no change. */
  method WizardPushComplete(tui: Tui)
    modifies tui`wizard
    ensures old(tui.wizard).None? ==> tui.wizard == None
    ensures old(tui.wizard).Some? ==> tui.wizard == Some(PushCompleted(old(tui.wizard).value))
  {
    if tui.wizard.Some? {
      tui.wizard := Some(PushCompleted(tui.wizard.value));
    }
  }

  /** `wizard_update_animation` on the TUI. */
  method WizardUpdateAnimation(tui: Tui)
    modifies tui`wizard
    ensures old(tui.wizard).None? ==> tui.wizard == None
    ensures old(tui.wizard).Some? ==> tui.wizard == Some(Animated(old(tui.wizard).value))
  {
    if tui.wizard.Some? {
      tui.wizard := Some(Animated(tui.wizard.value));
    }
  }
}
