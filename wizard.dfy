/**
 * The wizard's steps: launching it for the selected sprint, auto-linking
 * the unlinked meetings, the choice of manual linking, the worklogs made
 * from linked meetings and from GitHub sessions, the gap-filling popup,
 * the review, staging and push, the rollback, and the handler that moves
 * the wizard on when a fetch or a push completes.
 *
 * A step reads the snapshot `tui.data`. The refresh a step starts only
 * marks `refreshPending` (the program collects the data on another
 * thread), so the steps that follow within the same call still read the
 * snapshot taken before. Worklog ids, md5 digests of the issue key and
 * the start time in the program, are the parameter `idOf`.
 */
module Wizard {
  import opened Wrappers
  import opened Text
  import opened Lex
  import opened Tree
  import opened Model
  import opened Storage
  import opened WorklogsService
  import opened WorklogBatches
  import opened JiraService
  import opened TuiTypes
  import opened TuiState
  import opened WizardCore
  import opened TuiWorklogs
  import opened GitHubOps
  import opened MeetingOps

  // ---------------------------------------------------------------------
  // Sprints, refreshes, and how the wizard may change
  // ---------------------------------------------------------------------

  /** `all_sprints.iter().find(|s| s.id == id)`: the first sprint with that id. */
  function FindSprint(sprints: seq<Sprint>, id: nat): (r: Option<Sprint>)
    ensures r.Some? ==> r.value in sprints && r.value.id == id
    ensures r.None? <==> forall i :: 0 <= i < |sprints| ==> sprints[i].id != id
    decreases |sprints|
  {
    if |sprints| == 0 then None
    else if sprints[0].id == id then Some(sprints[0])
    else
      var r := FindSprint(sprints[1..], id);
      assert forall i :: 0 < i < |sprints| ==> sprints[i] == sprints[1..][i - 1];
      r
  }

  /** Of several sprints with the id, the first is found. */
  lemma {:induction false} FindSprintFirst(sprints: seq<Sprint>, id: nat, i: nat)
    requires i < |sprints| && sprints[i].id == id
    requires forall j :: 0 <= j < i ==> sprints[j].id != id
    ensures FindSprint(sprints, id) == Some(sprints[i])
    decreases i
  {
    if i > 0 {
      FindSprintFirst(sprints[1..], id, i - 1);
    }
  }

  /** The found sprint's start and end, when it has both. */
  function SprintRange(sprints: seq<Sprint>, id: nat): Option<(int, int)> {
    match FindSprint(sprints, id)
    case Some(s) => if s.start.Some? && s.end.Some? then Some((s.start.value, s.end.value)) else None
    case None => None
  }

  /** `refresh_data` leaves a pending refresh alone and otherwise starts one with the UI state `ui`. */
  function Refreshed(pending: Option<TabUiState>, ui: TabUiState): Option<TabUiState> {
    if pending.Some? then pending else Some(ui)
  }

  /** At most one refresh was started in between, and it carries `ui`. */
  predicate RefreshStarted(before: Option<TabUiState>, after: Option<TabUiState>, ui: TabUiState) {
    after == before || (before.None? && after == Some(ui))
  }

  /** A step keeps the sprint, and the completed steps and the rollback log only grow. */
  predicate Extends(before: WizardState, after: WizardState) {
    && after.sprintId == before.sprintId
    && before.completedSteps <= after.completedSteps
    && before.rollbackLog.linkedMeetingIds <= after.rollbackLog.linkedMeetingIds
    && before.rollbackLog.createdWorklogIds <= after.rollbackLog.createdWorklogIds
  }

  lemma ExtendsTransitive(a: WizardState, b: WizardState, c: WizardState)
    requires Extends(a, b) && Extends(b, c)
    ensures Extends(a, c)
  {
    assert a.rollbackLog.linkedMeetingIds <= c.rollbackLog.linkedMeetingIds by {
      assert c.rollbackLog.linkedMeetingIds[..|a.rollbackLog.linkedMeetingIds|]
          == b.rollbackLog.linkedMeetingIds[..|a.rollbackLog.linkedMeetingIds|];
    }
    assert a.rollbackLog.createdWorklogIds <= c.rollbackLog.createdWorklogIds by {
      assert c.rollbackLog.createdWorklogIds[..|a.rollbackLog.createdWorklogIds|]
          == b.rollbackLog.createdWorklogIds[..|a.rollbackLog.createdWorklogIds|];
    }
  }

  // ---------------------------------------------------------------------
  // Launch
  // ---------------------------------------------------------------------

  /** The sprint under the cursor of the sprint list. */
  function SelectedSprint(data: TuiData): Option<Sprint> {
    if data.ui.selectedSprintIndex < |data.sprints| then Some(data.sprints[data.ui.selectedSprintIndex]) else None
  }

  predicate Dated(s: Sprint) {
    s.start.Some? && s.end.Some?
  }

  /**
   * `launch_wizard`: only a selected sprint with a start and an end gets a
   * wizard, which starts at Syncing and asks for a fetch.
   */
  method LaunchWizard(tui: Tui, startup: Option<string>)
    modifies tui`wizard, tui`fetchReceiving
    ensures var s := SelectedSprint(tui.data);
            !(s.Some? && Dated(s.value)) ==> tui.wizard == old(tui.wizard) && tui.fetchReceiving == old(tui.fetchReceiving)
    ensures var s := SelectedSprint(tui.data);
            s.Some? && Dated(s.value) ==>
              && tui.wizard == Some(NewWizard(s.value, startup))
              && tui.fetchReceiving == (old(tui.fetchReceiving) || !tui.fetchStatus.Fetching?)
  {
    var s := SelectedSprint(tui.data);
    if s.None? || !Dated(s.value) {
      return;
    }
    tui.wizard := Some(NewWizard(s.value, startup));
    tui.HandleUpdate();
  }

  // ---------------------------------------------------------------------
  // Step 1: auto-linking
  // ---------------------------------------------------------------------

  /** Each linked meeting goes into the rollback log, remembered as having had no link. */
  function RecordLinkedMeetings(w: WizardState, ids: seq<string>): (r: WizardState)
    ensures r.rollbackLog.linkedMeetingIds == w.rollbackLog.linkedMeetingIds + ids
    ensures r.rollbackLog.createdWorklogIds == w.rollbackLog.createdWorklogIds
    ensures forall k :: k in r.rollbackLog.originalMeetingLinks <==> k in w.rollbackLog.originalMeetingLinks || k in ids
    ensures forall k :: k in ids ==> r.rollbackLog.originalMeetingLinks[k] == None
    ensures forall k :: k in w.rollbackLog.originalMeetingLinks && k !in ids ==>
              r.rollbackLog.originalMeetingLinks[k] == w.rollbackLog.originalMeetingLinks[k]
    ensures r == w.(rollbackLog := r.rollbackLog)
    decreases |ids|
  {
    if |ids| == 0 then w
    else
      var n := |ids| - 1;
      assert ids == ids[..n] + [ids[n]];
      RecordLinkedMeeting(RecordLinkedMeetings(w, ids[..n]), ids[n])
  }

  /** The wizard after the auto-linking of `linked`: recorded, counted, step 1 done. */
  function AutoLinked(w: WizardState, linked: seq<string>): (r: WizardState)
    ensures r.summary.meetingsAutoLinked == |r.rollbackLog.linkedMeetingIds| - |w.rollbackLog.linkedMeetingIds|
    ensures r.rollbackLog.linkedMeetingIds[|w.rollbackLog.linkedMeetingIds|..] == linked
    ensures r.completedSteps == w.completedSteps + {1}
    ensures Extends(w, r) && r.currentStep == w.currentStep
  {
    var rec := RecordLinkedMeetings(w, linked);
    assert rec.rollbackLog.linkedMeetingIds[|w.rollbackLog.linkedMeetingIds|..] == linked;
    rec.(summary := rec.summary.(meetingsAutoLinked := |linked|), completedSteps := rec.completedSteps + {1})
  }

  /** The auto-linking part of `wizard_step_autolink`, for a running wizard. */
  method AutoLinkStep(tui: Tui, db: Db)
    requires db.Valid() && tui.wizard.Some?
    modifies db`meetings, tui`wizard
    ensures db.Valid()
    ensures db.meetings == AutoLinkStore(old(db.meetings), Unlinked(tui.data.meetings), tui.data.issuesByKey)
    ensures tui.wizard == Some(AutoLinked(old(tui.wizard).value,
                                          AutoLinkedIds(old(db.meetings), Unlinked(tui.data.meetings), tui.data.issuesByKey)))
  {
    var linked := AutoLinkEach(db, Unlinked(tui.data.meetings), tui.data.issuesByKey);
    tui.wizard := Some(AutoLinked(tui.wizard.value, linked));
  }

  /** Where the chain of steps that follows the auto-linking can stop. */
  predicate Settled(w: WizardState, confirmationOpen: bool) {
    || w.currentStep.ManualLinking?
    || (w.currentStep == FillingGaps(None) && 4 in w.completedSteps)
    || (&& w.currentStep.CreatingGitHubWorklogs? && confirmationOpen
        && w.currentStep.currentSessionIndex < |w.currentStep.sessions|)
  }

  /**
   * `wizard_step_autolink`: with a wizard, auto-link, then go on to manual
   * linking; without one, nothing happens.
   */
  method WizardStepAutolink(tui: Tui, db: Db, idOf: (string, int) -> string)
    requires db.Valid()
    modifies db`meetings, db`localWorklogs, tui`wizard, tui`refreshPending, tui`gapFill, tui`worklogConfirmation
    ensures db.Valid()
    ensures old(tui.wizard).None? ==>
              && tui.wizard == None && db.meetings == old(db.meetings) && db.localWorklogs == old(db.localWorklogs)
              && tui.refreshPending == old(tui.refreshPending) && tui.gapFill == old(tui.gapFill)
              && tui.worklogConfirmation == old(tui.worklogConfirmation)
    ensures old(tui.wizard).Some? ==>
              && db.meetings == AutoLinkStore(old(db.meetings), Unlinked(tui.data.meetings), tui.data.issuesByKey)
              && tui.wizard.Some? && Extends(old(tui.wizard).value, tui.wizard.value)
              && 1 in tui.wizard.value.completedSteps
              && tui.wizard.value.rollbackLog.linkedMeetingIds
                 == old(tui.wizard).value.rollbackLog.linkedMeetingIds
                    + AutoLinkedIds(old(db.meetings), Unlinked(tui.data.meetings), tui.data.issuesByKey)
              && tui.wizard.value.summary.meetingsAutoLinked
                 == |AutoLinkedIds(old(db.meetings), Unlinked(tui.data.meetings), tui.data.issuesByKey)|
              && Settled(tui.wizard.value, tui.worklogConfirmation.Some?)
              && tui.refreshPending == Refreshed(old(tui.refreshPending), tui.data.ui)
  {
    if tui.wizard.None? {
      return;
    }
    AutoLinkStep(tui, db);
    AdvanceToManualLinking(tui, db, idOf);
  }

  // ---------------------------------------------------------------------
  // Step 2: manual linking, or on to the meeting worklogs
  // ---------------------------------------------------------------------

  /**
   * `wizard_advance_to_manual_linking`: refresh, then list the meetings the
   * snapshot holds without a link; with none, step 2 is done and the
   * meeting worklogs follow.
   */
  method AdvanceToManualLinking(tui: Tui, db: Db, idOf: (string, int) -> string)
    requires db.Valid()
    modifies db`localWorklogs, tui`wizard, tui`refreshPending, tui`gapFill, tui`worklogConfirmation
    ensures db.Valid()
    ensures tui.refreshPending == Refreshed(old(tui.refreshPending), tui.data.ui)
    ensures Unlinked(tui.data.meetings) != [] || old(tui.wizard).None? ==>
              && db.localWorklogs == old(db.localWorklogs)
              && tui.gapFill == old(tui.gapFill) && tui.worklogConfirmation == old(tui.worklogConfirmation)
              && tui.wizard == if old(tui.wizard).None? then None
                               else Some(old(tui.wizard).value.(currentStep := ManualLinking(Unlinked(tui.data.meetings), 0)))
    ensures Unlinked(tui.data.meetings) == [] && old(tui.wizard).Some? ==>
              && tui.wizard.Some? && Extends(old(tui.wizard).value, tui.wizard.value)
              && {2, 3} <= tui.wizard.value.completedSteps
              && tui.wizard.value.rollbackLog.linkedMeetingIds == old(tui.wizard).value.rollbackLog.linkedMeetingIds
              && tui.wizard.value.summary.meetingsAutoLinked == old(tui.wizard).value.summary.meetingsAutoLinked
              && Settled(tui.wizard.value, tui.worklogConfirmation.Some?)
  {
    tui.RefreshData();
    var unlinked := Unlinked(tui.data.meetings);
    if |unlinked| == 0 {
      if tui.wizard.Some? {
        tui.wizard := Some(tui.wizard.value.(completedSteps := tui.wizard.value.completedSteps + {2}));
        CreateMeetingWorklogs(tui, db, idOf);
      }
    } else if tui.wizard.Some? {
      tui.wizard := Some(tui.wizard.value.(currentStep := ManualLinking(unlinked, 0)));
    }
  }

  // ---------------------------------------------------------------------
  // Step 3: worklogs from the linked meetings
  // ---------------------------------------------------------------------

  /** The meetings of the snapshot that are linked and start within [start, end], in order. */
  function MeetingsToLog(meetings: seq<Meeting>, start: int, end: int): (r: seq<Meeting>)
    ensures forall m :: m in r <==> m in meetings && m.jiraLink.Some? && start <= m.start <= end
    ensures forall i :: 0 <= i < |r| ==> r[i].jiraLink.Some?
    decreases |meetings|
  {
    if |meetings| == 0 then []
    else
      var n := |meetings| - 1;
      assert meetings == meetings[..n] + [meetings[n]];
      var m := meetings[n];
      MeetingsToLog(meetings[..n], start, end) + (if m.jiraLink.Some? && start <= m.start <= end then [m] else [])
  }

  /** The id of that worklog: the digest of the linked issue's key and the meeting's start. */
  function MeetingWorklogId(m: Meeting, idOf: (string, int) -> string): string {
    idOf(m.jiraLink.UnwrapOr(""), m.start)
  }

  /** The worklog `create_worklog_from_meeting` makes for a linked meeting. */
  function MeetingWorklog(m: Meeting, idOf: (string, int) -> string): (w: LocalWorklog)
    ensures m.jiraLink.Some? ==> w.issueId == m.jiraLink.value && w.id == idOf(m.jiraLink.value, m.start)
    ensures w.status == Created && w.started == m.start && w.timeSpentSeconds == m.end - m.start
    ensures w.meetingId == Some(m.id) && w.worklogId == None
  {
    var key := m.jiraLink.UnwrapOr("");
    NewLocalWorklog(MeetingWorklogId(m, idOf), m.start, m.end - m.start, key, Some(MeetingComment(m)), Some(m.id))
  }

  function MeetingWorklogs(ms: seq<Meeting>, idOf: (string, int) -> string): (ws: seq<LocalWorklog>)
    ensures |ws| == |ms| && forall i :: 0 <= i < |ms| ==> ws[i] == MeetingWorklog(ms[i], idOf)
  {
    seq(|ms|, i requires 0 <= i < |ms| => MeetingWorklog(ms[i], idOf))
  }

  /** The seconds of some meetings, end minus start each. */
  function MeetingSeconds(ms: seq<Meeting>): int
    decreases |ms|
  {
    if |ms| == 0 then 0 else MeetingSeconds(ms[..|ms| - 1]) + (ms[|ms| - 1].end - ms[|ms| - 1].start)
  }

  /** The wizard after the meeting worklogs of `ms`: counted, their time added, their ids kept for rollback. */
  function MeetingsLogged(w: WizardState, ms: seq<Meeting>, idOf: (string, int) -> string): WizardState {
    w.(summary := w.summary.(worklogsFromMeetings := w.summary.worklogsFromMeetings + |ms|,
                             totalSeconds := w.summary.totalSeconds + MeetingSeconds(ms)),
       rollbackLog := w.rollbackLog.(createdWorklogIds := w.rollbackLog.createdWorklogIds + MeetingIds(ms, idOf)))
  }

  /** The ids of the worklogs made for some meetings, in order. */
  function MeetingIds(ms: seq<Meeting>, idOf: (string, int) -> string): seq<string>
    decreases |ms|
  {
    if |ms| == 0 then [] else MeetingIds(ms[..|ms| - 1], idOf) + [MeetingWorklogId(ms[|ms| - 1], idOf)]
  }

  /** The loop of `wizard_step_create_meeting_worklogs`. */
  method LogMeetings(tui: Tui, db: Db, ms: seq<Meeting>, idOf: (string, int) -> string)
    requires db.Valid()
    modifies db`localWorklogs, tui`wizard
    ensures db.Valid()
    ensures db.localWorklogs == SaveAll(old(db.localWorklogs), MeetingWorklogs(ms, idOf))
    ensures old(tui.wizard).None? ==> tui.wizard == None
    ensures old(tui.wizard).Some? ==> tui.wizard == Some(MeetingsLogged(old(tui.wizard).value, ms, idOf))
  {
    if tui.wizard.Some? {
      MeetingsLoggedNothing(tui.wizard.value, idOf);
    }
    assert ms[..0] == [];
    for i := 0 to |ms|
      invariant db.Valid()
      invariant db.localWorklogs == SaveAll(old(db.localWorklogs), MeetingWorklogs(ms[..i], idOf))
      invariant tui.wizard == MaybeLogged(old(tui.wizard), ms[..i], idOf)
    {
      LogMeetingAt(tui, db, ms[..i], ms[i], idOf, old(db.localWorklogs), old(tui.wizard));
      PrefixSnoc(ms, i);
    }
    assert ms[..|ms|] == ms;
  }

  /** The body of that loop: meeting `m` logged after the meetings `done`. */
  method LogMeetingAt(tui: Tui, db: Db, done: seq<Meeting>, m: Meeting, idOf: (string, int) -> string,
                      ghost locals0: seq<(string, LocalWorklog)>, ghost wizard0: Option<WizardState>)
    requires db.Valid() && LocalsKeyed(locals0)
    requires db.localWorklogs == SaveAll(locals0, MeetingWorklogs(done, idOf))
    requires tui.wizard == MaybeLogged(wizard0, done, idOf)
    modifies db`localWorklogs, tui`wizard
    ensures db.Valid()
    ensures db.localWorklogs == SaveAll(locals0, MeetingWorklogs(done + [m], idOf))
    ensures tui.wizard == MaybeLogged(wizard0, done + [m], idOf)
  {
    LogMeetingSteps(locals0, wizard0, done, m, idOf);
    LogMeeting(tui, db, m, idOf);
  }

  /** What one more meeting adds to the store and to the wizard. */
  lemma LogMeetingSteps(locals0: seq<(string, LocalWorklog)>, wizard0: Option<WizardState>, done: seq<Meeting>, m: Meeting,
                        idOf: (string, int) -> string)
    requires LocalsKeyed(locals0)
    ensures SaveAll(locals0, MeetingWorklogs(done + [m], idOf))
            == Insert(SaveAll(locals0, MeetingWorklogs(done, idOf)), MeetingWorklogId(m, idOf), MeetingWorklog(m, idOf))
    ensures MaybeLogged(wizard0, done + [m], idOf)
            == MaybeRecord(MaybeLogged(wizard0, done, idOf), m.end - m.start, MeetingWorklogId(m, idOf))
  {
    MeetingWorklogsSnoc(done, m, idOf);
    SaveAllSnoc(locals0, MeetingWorklogs(done, idOf), MeetingWorklog(m, idOf));
    if wizard0.Some? {
      MeetingsLoggedSnoc(wizard0.value, done, m, idOf);
    }
  }

  lemma MeetingWorklogsSnoc(done: seq<Meeting>, m: Meeting, idOf: (string, int) -> string)
    ensures MeetingWorklogs(done + [m], idOf) == MeetingWorklogs(done, idOf) + [MeetingWorklog(m, idOf)]
  {
  }

  lemma MeetingsLoggedSnoc(w: WizardState, done: seq<Meeting>, m: Meeting, idOf: (string, int) -> string)
    ensures MeetingsLogged(w, done + [m], idOf) == RecordMeetingWorklog(MeetingsLogged(w, done, idOf), m.end - m.start, MeetingWorklogId(m, idOf))
  {
    assert (done + [m])[..|done|] == done;
  }

  /** The wizard, if there is one, after the meeting worklogs of `ms`. */
  function MaybeLogged(w: Option<WizardState>, ms: seq<Meeting>, idOf: (string, int) -> string): Option<WizardState> {
    if w.None? then None else Some(MeetingsLogged(w.value, ms, idOf))
  }

  /** The wizard, if there is one, told of one more meeting worklog. */
  function MaybeRecord(w: Option<WizardState>, seconds: int, id: string): Option<WizardState> {
    if w.None? then None else Some(RecordMeetingWorklog(w.value, seconds, id))
  }

  lemma MeetingsLoggedNothing(w: WizardState, idOf: (string, int) -> string)
    ensures MeetingsLogged(w, [], idOf) == w
  {
    assert w.rollbackLog.createdWorklogIds + [] == w.rollbackLog.createdWorklogIds;
  }

  /** One linked meeting of the loop: its worklog saved, the wizard told. */
  method LogMeeting(tui: Tui, db: Db, m: Meeting, idOf: (string, int) -> string)
    requires db.Valid()
    modifies db`localWorklogs, tui`wizard
    ensures db.Valid()
    ensures db.localWorklogs == Insert(old(db.localWorklogs), MeetingWorklogId(m, idOf), MeetingWorklog(m, idOf))
    ensures tui.wizard == MaybeRecord(old(tui.wizard), m.end - m.start, MeetingWorklogId(m, idOf))
  {
    var key := m.jiraLink.UnwrapOr("");
    ghost var made := MeetingWorklog(m, idOf);
    assert made.id == MeetingWorklogId(m, idOf) == idOf(key, m.start);
    var w := CreateWorklogFromMeeting(tui, db, m, key, idOf(key, m.start));
    assert w == made;
  }

  /**
   * `wizard_step_create_meeting_worklogs`: with a wizard whose sprint has
   * a range, one worklog per linked meeting in it; then a refresh, step 3
   * done, and the GitHub step.
   */
  method CreateMeetingWorklogs(tui: Tui, db: Db, idOf: (string, int) -> string)
    requires db.Valid()
    modifies db`localWorklogs, tui`wizard, tui`refreshPending, tui`gapFill, tui`worklogConfirmation
    ensures db.Valid()
    ensures old(tui.wizard).None? ==>
              && tui.wizard == None && db.localWorklogs == old(db.localWorklogs)
              && tui.gapFill == old(tui.gapFill) && tui.worklogConfirmation == old(tui.worklogConfirmation)
    ensures tui.refreshPending == Refreshed(old(tui.refreshPending), tui.data.ui)
    ensures old(tui.wizard).Some? ==>
              && tui.wizard.Some? && Extends(old(tui.wizard).value, tui.wizard.value)
              && old(tui.wizard).value.completedSteps + {3, 4} <= tui.wizard.value.completedSteps + {4}
              && 3 in tui.wizard.value.completedSteps
              && tui.wizard.value.rollbackLog.linkedMeetingIds == old(tui.wizard).value.rollbackLog.linkedMeetingIds
              && tui.wizard.value.summary.meetingsAutoLinked == old(tui.wizard).value.summary.meetingsAutoLinked
              && Settled(tui.wizard.value, tui.worklogConfirmation.Some?)
  {
    if tui.wizard.Some? {
      match SprintRange(tui.data.sprints, tui.wizard.value.sprintId)
      case Some(range) =>
        var ms := MeetingsToLog(tui.data.meetings, range.0, range.1);
        LogMeetings(tui, db, ms, idOf);
      case None =>
    }
    tui.RefreshData();
    if tui.wizard.Some? {
      tui.wizard := Some(tui.wizard.value.(completedSteps := tui.wizard.value.completedSteps + {3},
                                           currentStep := CreatingGitHubWorklogs([], 0)));
    }
    CreateGitHubWorklogs(tui, db, idOf);
  }

  // ---------------------------------------------------------------------
  // Step 4: worklogs from the GitHub sessions
  // ---------------------------------------------------------------------

  /** The sessions the step works through: on a day of the sprint, with at least one Jira issue. */
  function SprintSessions(sessions: seq<GitHubSession>, firstDay: int, lastDay: int): (r: seq<GitHubSession>)
    ensures forall s :: s in r <==> s in sessions && firstDay <= DayOf(s.startTime) <= lastDay && SessionJiraIssues(s) != []
    decreases |sessions|
  {
    if |sessions| == 0 then []
    else
      var n := |sessions| - 1;
      assert sessions == sessions[..n] + [sessions[n]];
      var s := sessions[n];
      SprintSessions(sessions[..n], firstDay, lastDay)
        + (if firstDay <= DayOf(s.startTime) <= lastDay && SessionJiraIssues(s) != [] then [s] else [])
  }

  const NoSessionsReason := "no GitHub sessions found"

  /** The confirmation the wizard opens for a session that would go over the daily limit. */
  function SessionConfirmation(s: GitHubSession, share: int, existing: int, limit: int): (c: WorklogCreationConfirmation)
    ensures c.source == FromGitHub(s.id, FirstPart(s.description)) && c.date == DayOf(s.startTime)
    ensures SessionJiraIssues(s) != [] ==> c.issueId == SessionJiraIssues(s)[0]
    ensures c.requestedSeconds == share && c.existingSeconds == existing && c.dailyLimitSeconds == limit && c.userInput == ""
  {
    var issues := SessionJiraIssues(s);
    WorklogCreationConfirmation(FromGitHub(s.id, FirstPart(s.description)), if issues == [] then "" else issues[0],
                                DayOf(s.startTime), share, existing, limit, "")
  }

  /** The wizard after a session gave worklogs `ids`, each with `share` seconds, moved on to the next session. */
  function SessionDone(w: WizardState, ids: seq<string>, share: int): (r: WizardState)
    requires w.currentStep.CreatingGitHubWorklogs?
    ensures r.rollbackLog.createdWorklogIds == w.rollbackLog.createdWorklogIds + ids
    ensures r.rollbackLog.linkedMeetingIds == w.rollbackLog.linkedMeetingIds && r.completedSteps == w.completedSteps
    ensures r.summary.worklogsFromGithub == w.summary.worklogsFromGithub + |ids|
    ensures r.summary.totalSeconds == w.summary.totalSeconds + share * |ids|
    ensures r.summary.meetingsAutoLinked == w.summary.meetingsAutoLinked && r.sprintId == w.sprintId
    ensures r.currentStep == CreatingGitHubWorklogs(w.currentStep.sessions, w.currentStep.currentSessionIndex + 1)
  {
    var rec := RecordCreatedWorklogs(w, ids);
    rec.(summary := rec.summary.(worklogsFromGithub := rec.summary.worklogsFromGithub + |ids|,
                                 totalSeconds := rec.summary.totalSeconds + share * |ids|),
         currentStep := CreatingGitHubWorklogs(w.currentStep.sessions, w.currentStep.currentSessionIndex + 1))
  }

  /** Where the sessions loop ends: the wizard, the store, the confirmation it opened, the worklogs it made. */
  datatype SessionRun = SessionRun(
    wizard: WizardState, locals: seq<(string, LocalWorklog)>,
    confirmation: Option<WorklogCreationConfirmation>, made: seq<LocalWorklog>)

  /**
   * `wizard_process_next_github_session` and `wizard_advance_github_session`
   * calling each other: from the current session on, each session within the
   * daily limit gets its worklogs and the next one follows; the first one
   * over the limit opens a confirmation and the loop stops; past the last
   * session step 4 is done and gap filling comes next.
   */
  function RunSessions(w: WizardState, locals: seq<(string, LocalWorklog)>, data: TuiData,
                       idOf: (string, int) -> string): (r: SessionRun)
    requires LocalsKeyed(locals) && w.currentStep.CreatingGitHubWorklogs?
    ensures LocalsKeyed(r.locals)
    decreases |w.currentStep.sessions| - w.currentStep.currentSessionIndex
  {
    var sessions := w.currentStep.sessions;
    var i := w.currentStep.currentSessionIndex;
    if i >= |sessions| then
      SessionRun(w.(completedSteps := w.completedSteps + {4}, currentStep := FillingGaps(None)), locals, None, [])
    else
      var s := sessions[i];
      var issues := SessionJiraIssues(s);
      var share := TimePerIssue(s.durationSeconds, |issues|);
      var existing := ExistingSeconds(locals, s);
      if existing + share > data.dailyLimitSeconds then
        SessionRun(w, locals, Some(SessionConfirmation(s, share, existing, data.dailyLimitSeconds)), [])
      else
        var made := SessionWorklogs(s, issues, share, data.issuesByKey, idOf);
        var rest := RunSessions(SessionDone(w, IdsOf(made), share), SaveAll(locals, made), data, idOf);
        rest.(made := made + rest.made)
  }

  lemma {:induction false} SaveAllConcat(locals: seq<(string, LocalWorklog)>, a: seq<LocalWorklog>, b: seq<LocalWorklog>)
    requires LocalsKeyed(locals)
    ensures SaveAll(SaveAll(locals, a), b) == SaveAll(locals, a + b)
    decreases |b|
  {
    if |b| == 0 {
      assert a + b == a;
    } else {
      var n := |b| - 1;
      var init := b[..n];
      assert b == init + [b[n]];
      assert a + b == (a + init) + [b[n]];
      SaveAllConcat(locals, a, init);
      SaveAllSnoc(SaveAll(locals, a), init, b[n]);
      SaveAllSnoc(locals, a + init, b[n]);
    }
  }

  /** The store a run leaves is the old one with the worklogs it made saved in order. */
  lemma {:induction false} RunSessionsSaved(w: WizardState, locals: seq<(string, LocalWorklog)>, data: TuiData,
                                            idOf: (string, int) -> string)
    requires LocalsKeyed(locals) && w.currentStep.CreatingGitHubWorklogs?
    ensures var r := RunSessions(w, locals, data, idOf); r.locals == SaveAll(locals, r.made)
    decreases |w.currentStep.sessions| - w.currentStep.currentSessionIndex
  {
    var sessions := w.currentStep.sessions;
    var i := w.currentStep.currentSessionIndex;
    if i < |sessions| {
      var s := sessions[i];
      var issues := SessionJiraIssues(s);
      var share := TimePerIssue(s.durationSeconds, |issues|);
      if ExistingSeconds(locals, s) + share <= data.dailyLimitSeconds {
        var made := SessionWorklogs(s, issues, share, data.issuesByKey, idOf);
        var next := SessionDone(w, IdsOf(made), share);
        RunSessionsSaved(next, SaveAll(locals, made), data, idOf);
        var rest := RunSessions(next, SaveAll(locals, made), data, idOf);
        SaveAllConcat(locals, made, rest.made);
      }
    } else {
      assert SaveAll(locals, []) == locals;
    }
  }

  /** A run adds exactly the ids of the worklogs it made to the rollback log. */
  lemma {:induction false} RunSessionsLogged(w: WizardState, locals: seq<(string, LocalWorklog)>, data: TuiData,
                                             idOf: (string, int) -> string)
    requires LocalsKeyed(locals) && w.currentStep.CreatingGitHubWorklogs?
    ensures var r := RunSessions(w, locals, data, idOf);
            r.wizard.rollbackLog.createdWorklogIds == w.rollbackLog.createdWorklogIds + IdsOf(r.made)
    decreases |w.currentStep.sessions| - w.currentStep.currentSessionIndex
  {
    var sessions := w.currentStep.sessions;
    var i := w.currentStep.currentSessionIndex;
    if i < |sessions| {
      var s := sessions[i];
      var issues := SessionJiraIssues(s);
      var share := TimePerIssue(s.durationSeconds, |issues|);
      if ExistingSeconds(locals, s) + share <= data.dailyLimitSeconds {
        var made := SessionWorklogs(s, issues, share, data.issuesByKey, idOf);
        var next := SessionDone(w, IdsOf(made), share);
        RunSessionsLogged(next, SaveAll(locals, made), data, idOf);
        var rest := RunSessions(next, SaveAll(locals, made), data, idOf);
        IdsOfConcat(made, rest.made);
        assert next.rollbackLog.createdWorklogIds == w.rollbackLog.createdWorklogIds + IdsOf(made);
        assert rest.wizard.rollbackLog.createdWorklogIds == next.rollbackLog.createdWorklogIds + IdsOf(rest.made);
      } else {
        assert IdsOf([]) == [];
      }
    } else {
      assert IdsOf([]) == [];
    }
  }

  /** A run keeps the sprint, the linked meetings and their count, and only adds completed steps. */
  lemma {:induction false} RunSessionsKeeps(w: WizardState, locals: seq<(string, LocalWorklog)>, data: TuiData,
                                            idOf: (string, int) -> string)
    requires LocalsKeyed(locals) && w.currentStep.CreatingGitHubWorklogs?
    ensures var r := RunSessions(w, locals, data, idOf);
            && r.wizard.rollbackLog.linkedMeetingIds == w.rollbackLog.linkedMeetingIds
            && r.wizard.summary.meetingsAutoLinked == w.summary.meetingsAutoLinked
            && r.wizard.sprintId == w.sprintId && w.completedSteps <= r.wizard.completedSteps
    decreases |w.currentStep.sessions| - w.currentStep.currentSessionIndex
  {
    var sessions := w.currentStep.sessions;
    var i := w.currentStep.currentSessionIndex;
    if i < |sessions| {
      var s := sessions[i];
      var issues := SessionJiraIssues(s);
      var share := TimePerIssue(s.durationSeconds, |issues|);
      if ExistingSeconds(locals, s) + share <= data.dailyLimitSeconds {
        var made := SessionWorklogs(s, issues, share, data.issuesByKey, idOf);
        RunSessionsKeeps(SessionDone(w, IdsOf(made), share), SaveAll(locals, made), data, idOf);
      }
    }
  }

  /** A run extends the wizard it started from. */
  lemma RunSessionsExtends(w: WizardState, locals: seq<(string, LocalWorklog)>, data: TuiData, idOf: (string, int) -> string)
    requires LocalsKeyed(locals) && w.currentStep.CreatingGitHubWorklogs?
    ensures Extends(w, RunSessions(w, locals, data, idOf).wizard)
  {
    var r := RunSessions(w, locals, data, idOf);
    RunSessionsLogged(w, locals, data, idOf);
    RunSessionsKeeps(w, locals, data, idOf);
    assert r.wizard.rollbackLog.createdWorklogIds[..|w.rollbackLog.createdWorklogIds|] == w.rollbackLog.createdWorklogIds;
  }

  /**
   * The run ends either past the last session, with step 4 done and gap
   * filling next, or on a session whose share would take its day over the
   * limit, with the confirmation for it open.
   */
  lemma {:induction false} RunSessionsEnd(w: WizardState, locals: seq<(string, LocalWorklog)>, data: TuiData,
                                          idOf: (string, int) -> string)
    requires LocalsKeyed(locals) && w.currentStep.CreatingGitHubWorklogs?
    ensures var r := RunSessions(w, locals, data, idOf);
            && (r.confirmation.None? ==> r.wizard.currentStep == FillingGaps(None) && 4 in r.wizard.completedSteps)
            && (r.confirmation.Some? ==>
                  && r.wizard.currentStep.CreatingGitHubWorklogs?
                  && r.wizard.currentStep.sessions == w.currentStep.sessions
                  && r.wizard.currentStep.currentSessionIndex < |r.wizard.currentStep.sessions|
                  && var c := r.confirmation.value;
                     c.existingSeconds + c.requestedSeconds > data.dailyLimitSeconds
                     && c.existingSeconds == ExistingSeconds(r.locals, r.wizard.currentStep.sessions[r.wizard.currentStep.currentSessionIndex]))
    decreases |w.currentStep.sessions| - w.currentStep.currentSessionIndex
  {
    var sessions := w.currentStep.sessions;
    var i := w.currentStep.currentSessionIndex;
    if i < |sessions| {
      var s := sessions[i];
      var issues := SessionJiraIssues(s);
      var share := TimePerIssue(s.durationSeconds, |issues|);
      if ExistingSeconds(locals, s) + share <= data.dailyLimitSeconds {
        var made := SessionWorklogs(s, issues, share, data.issuesByKey, idOf);
        RunSessionsEnd(SessionDone(w, IdsOf(made), share), SaveAll(locals, made), data, idOf);
      }
    }
  }

  /** What a session run leaves on the TUI and in the store. */
  predicate RunApplied(r: SessionRun, wizard: Option<WizardState>, locals: seq<(string, LocalWorklog)>,
                       confirmationBefore: Option<WorklogCreationConfirmation>, confirmation: Option<WorklogCreationConfirmation>,
                       gapBefore: Option<GapFillState>, gap: Option<GapFillState>, byKey: map<string, Issue>)
  {
    && wizard == Some(r.wizard) && locals == r.locals
    && (r.confirmation.Some? ==> confirmation == r.confirmation && gap == gapBefore)
    && (r.confirmation.None? ==> confirmation == confirmationBefore && gap.Some? && GapFillFor(gap.value, r.wizard.sprintId, byKey))
  }

  /** `wizard_process_next_github_session`: only a wizard at the GitHub step has sessions to go through. */
  method ProcessGitHubSessions(tui: Tui, db: Db, idOf: (string, int) -> string)
    requires db.Valid()
    modifies db`localWorklogs, tui`wizard, tui`refreshPending, tui`gapFill, tui`worklogConfirmation
    ensures db.Valid()
    ensures !(old(tui.wizard).Some? && old(tui.wizard).value.currentStep.CreatingGitHubWorklogs?) ==>
              && tui.wizard == old(tui.wizard) && db.localWorklogs == old(db.localWorklogs)
              && tui.refreshPending == old(tui.refreshPending)
              && tui.gapFill == old(tui.gapFill) && tui.worklogConfirmation == old(tui.worklogConfirmation)
    ensures old(tui.wizard).Some? && old(tui.wizard).value.currentStep.CreatingGitHubWorklogs? ==>
              && RunApplied(RunSessions(old(tui.wizard).value, old(db.localWorklogs), tui.data, idOf),
                            tui.wizard, db.localWorklogs, old(tui.worklogConfirmation), tui.worklogConfirmation,
                            old(tui.gapFill), tui.gapFill, tui.data.issuesByKey)
              && RefreshStarted(old(tui.refreshPending), tui.refreshPending, tui.data.ui)
  {
    if tui.wizard.Some? && tui.wizard.value.currentStep.CreatingGitHubWorklogs? {
      RunGitHubSessions(tui, db, idOf);
    }
  }

  /** The wizard, the store and the confirmation a run ends with. */
  predicate SameEnd(a: SessionRun, b: SessionRun) {
    a.wizard == b.wizard && a.locals == b.locals && a.confirmation == b.confirmation
  }

  /** `wizard_process_next_github_session` and `wizard_advance_github_session`, which call each other. */
  method RunGitHubSessions(tui: Tui, db: Db, idOf: (string, int) -> string)
    requires db.Valid() && tui.wizard.Some? && tui.wizard.value.currentStep.CreatingGitHubWorklogs?
    modifies db`localWorklogs, tui`wizard, tui`refreshPending, tui`gapFill, tui`worklogConfirmation
    ensures db.Valid()
    ensures RunApplied(RunSessions(old(tui.wizard).value, old(db.localWorklogs), tui.data, idOf),
                       tui.wizard, db.localWorklogs, old(tui.worklogConfirmation), tui.worklogConfirmation,
                       old(tui.gapFill), tui.gapFill, tui.data.issuesByKey)
    ensures RefreshStarted(old(tui.refreshPending), tui.refreshPending, tui.data.ui)
    decreases |tui.wizard.value.currentStep.sessions| - tui.wizard.value.currentStep.currentSessionIndex
  {
    if tui.wizard.value.currentStep.currentSessionIndex >= |tui.wizard.value.currentStep.sessions| {
      SessionsFinished(tui, db, idOf);
      return;
    }
    var stop := SessionStep(tui, db, idOf);
    if !stop {
      RunGitHubSessions(tui, db, idOf);
    }
  }

  /** Past the last session: step 4 is done and the gap-fill popup opens. */
  method SessionsFinished(tui: Tui, db: Db, idOf: (string, int) -> string)
    requires db.Valid() && tui.wizard.Some? && tui.wizard.value.currentStep.CreatingGitHubWorklogs?
    requires tui.wizard.value.currentStep.currentSessionIndex >= |tui.wizard.value.currentStep.sessions|
    modifies tui`wizard, tui`gapFill
    ensures RunApplied(RunSessions(old(tui.wizard).value, db.localWorklogs, tui.data, idOf), tui.wizard, db.localWorklogs,
                       tui.worklogConfirmation, tui.worklogConfirmation, old(tui.gapFill), tui.gapFill, tui.data.issuesByKey)
  {
    RunSessionsPast(tui.wizard.value, db.localWorklogs, tui.data, idOf);
    tui.wizard := Some(tui.wizard.value.(completedSteps := tui.wizard.value.completedSteps + {4},
                                         currentStep := FillingGaps(None)));
    FillGaps(tui);
  }

  /** One session, stated against the run that is left. */
  method SessionStep(tui: Tui, db: Db, idOf: (string, int) -> string) returns (stop: bool)
    requires db.Valid() && tui.wizard.Some? && tui.wizard.value.currentStep.CreatingGitHubWorklogs?
    requires tui.wizard.value.currentStep.currentSessionIndex < |tui.wizard.value.currentStep.sessions|
    modifies db`localWorklogs, tui`wizard, tui`refreshPending, tui`worklogConfirmation
    ensures db.Valid() && tui.wizard.Some? && tui.wizard.value.currentStep.CreatingGitHubWorklogs?
    ensures tui.wizard.value.currentStep.sessions == old(tui.wizard).value.currentStep.sessions
    ensures stop ==>
              && tui.wizard == old(tui.wizard) && db.localWorklogs == old(db.localWorklogs)
              && tui.refreshPending == old(tui.refreshPending) && tui.worklogConfirmation.Some?
              && RunSessions(old(tui.wizard).value, old(db.localWorklogs), tui.data, idOf)
                 == SessionRun(tui.wizard.value, db.localWorklogs, tui.worklogConfirmation, [])
    ensures !stop ==>
              && tui.wizard.value.currentStep.currentSessionIndex == old(tui.wizard).value.currentStep.currentSessionIndex + 1
              && SameEnd(RunSessions(tui.wizard.value, db.localWorklogs, tui.data, idOf),
                         RunSessions(old(tui.wizard).value, old(db.localWorklogs), tui.data, idOf))
              && tui.worklogConfirmation == old(tui.worklogConfirmation)
              && RefreshStarted(old(tui.refreshPending), tui.refreshPending, tui.data.ui)
  {
    ghost var w0, locals0 := tui.wizard.value, db.localWorklogs;
    stop := SessionOnce(tui, db, idOf);
    if stop {
      RunSessionsOver(w0, locals0, tui.data, idOf);
    } else {
      RunSessionsNext(w0, locals0, tui.data, idOf);
    }
  }

  /** A session over the daily limit ends the run with its confirmation. */
  lemma RunSessionsOver(w: WizardState, locals: seq<(string, LocalWorklog)>, data: TuiData, idOf: (string, int) -> string)
    requires LocalsKeyed(locals) && w.currentStep.CreatingGitHubWorklogs?
    requires w.currentStep.currentSessionIndex < |w.currentStep.sessions|
    requires var s := w.currentStep.sessions[w.currentStep.currentSessionIndex];
             var share := TimePerIssue(s.durationSeconds, |SessionJiraIssues(s)|);
             ExistingSeconds(locals, s) + share > data.dailyLimitSeconds
    ensures var s := w.currentStep.sessions[w.currentStep.currentSessionIndex];
            var share := TimePerIssue(s.durationSeconds, |SessionJiraIssues(s)|);
            var existing := ExistingSeconds(locals, s);
            RunSessions(w, locals, data, idOf) == SessionRun(w, locals, Some(SessionConfirmation(s, share, existing, data.dailyLimitSeconds)), [])
  { }

  /** A session within the limit leaves the rest of the run to the next one. */
  lemma RunSessionsNext(w: WizardState, locals: seq<(string, LocalWorklog)>, data: TuiData, idOf: (string, int) -> string)
    requires LocalsKeyed(locals) && w.currentStep.CreatingGitHubWorklogs?
    requires w.currentStep.currentSessionIndex < |w.currentStep.sessions|
    requires var s := w.currentStep.sessions[w.currentStep.currentSessionIndex];
             var share := TimePerIssue(s.durationSeconds, |SessionJiraIssues(s)|);
             ExistingSeconds(locals, s) + share <= data.dailyLimitSeconds
    ensures var s := w.currentStep.sessions[w.currentStep.currentSessionIndex];
            var share := TimePerIssue(s.durationSeconds, |SessionJiraIssues(s)|);
            var made := SessionWorklogs(s, SessionJiraIssues(s), share, data.issuesByKey, idOf);
            SameEnd(RunSessions(SessionDone(w, IdsOf(made), share), SaveAll(locals, made), data, idOf),
                    RunSessions(w, locals, data, idOf))
  {
    var s := w.currentStep.sessions[w.currentStep.currentSessionIndex];
    var share := TimePerIssue(s.durationSeconds, |SessionJiraIssues(s)|);
    var made := SessionWorklogs(s, SessionJiraIssues(s), share, data.issuesByKey, idOf);
    RunSessionsNextIs(w, locals, data, idOf, s, share, made);
  }

  lemma RunSessionsNextIs(w: WizardState, locals: seq<(string, LocalWorklog)>, data: TuiData, idOf: (string, int) -> string,
                          s: GitHubSession, share: int, made: seq<LocalWorklog>)
    requires LocalsKeyed(locals) && w.currentStep.CreatingGitHubWorklogs?
    requires w.currentStep.currentSessionIndex < |w.currentStep.sessions|
    requires s == w.currentStep.sessions[w.currentStep.currentSessionIndex]
    requires share == TimePerIssue(s.durationSeconds, |SessionJiraIssues(s)|)
    requires ExistingSeconds(locals, s) + share <= data.dailyLimitSeconds
    requires made == SessionWorklogs(s, SessionJiraIssues(s), share, data.issuesByKey, idOf)
    ensures SameEnd(RunSessions(SessionDone(w, IdsOf(made), share), SaveAll(locals, made), data, idOf),
                    RunSessions(w, locals, data, idOf))
  { }

  /** Past the last session the run closes step 4 and moves on to gap filling. */
  lemma RunSessionsPast(w: WizardState, locals: seq<(string, LocalWorklog)>, data: TuiData, idOf: (string, int) -> string)
    requires LocalsKeyed(locals) && w.currentStep.CreatingGitHubWorklogs?
    requires w.currentStep.currentSessionIndex >= |w.currentStep.sessions|
    ensures RunSessions(w, locals, data, idOf)
            == SessionRun(w.(completedSteps := w.completedSteps + {4}, currentStep := FillingGaps(None)), locals, None, [])
  { }

  /** One session: the confirmation when it goes over the limit, else its worklogs and the next session. */
  method SessionOnce(tui: Tui, db: Db, idOf: (string, int) -> string) returns (stop: bool)
    requires db.Valid() && tui.wizard.Some? && tui.wizard.value.currentStep.CreatingGitHubWorklogs?
    requires tui.wizard.value.currentStep.currentSessionIndex < |tui.wizard.value.currentStep.sessions|
    modifies db`localWorklogs, tui`wizard, tui`refreshPending, tui`worklogConfirmation
    ensures db.Valid()
    ensures var w := old(tui.wizard).value;
            var s := w.currentStep.sessions[w.currentStep.currentSessionIndex];
            var share := TimePerIssue(s.durationSeconds, |SessionJiraIssues(s)|);
            var existing := ExistingSeconds(old(db.localWorklogs), s);
            && stop == (existing + share > tui.data.dailyLimitSeconds)
            && (stop ==>
                  && tui.wizard == old(tui.wizard) && db.localWorklogs == old(db.localWorklogs)
                  && tui.refreshPending == old(tui.refreshPending)
                  && tui.worklogConfirmation == Some(SessionConfirmation(s, share, existing, tui.data.dailyLimitSeconds)))
            && (!stop ==>
                  var made := SessionWorklogs(s, SessionJiraIssues(s), share, tui.data.issuesByKey, idOf);
                  && tui.wizard == Some(SessionDone(w, IdsOf(made), share))
                  && db.localWorklogs == SaveAll(old(db.localWorklogs), made)
                  && tui.worklogConfirmation == old(tui.worklogConfirmation)
                  && RefreshStarted(old(tui.refreshPending), tui.refreshPending, tui.data.ui))
  {
    var w := tui.wizard.value;
    var s := w.currentStep.sessions[w.currentStep.currentSessionIndex];
    var issues := SessionJiraIssues(s);
    var share := TimePerIssue(s.durationSeconds, |issues|);
    var existing := ExistingSeconds(db.localWorklogs, s);
    if existing + share > tui.data.dailyLimitSeconds {
      tui.worklogConfirmation := Some(SessionConfirmation(s, share, existing, tui.data.dailyLimitSeconds));
      return true;
    }
    LogSession(tui, db, w, s, share, idOf);
    stop := false;
  }

  /** A session within the limit: its worklogs saved, the wizard counting them and moving to the next session. */
  method LogSession(tui: Tui, db: Db, w: WizardState, s: GitHubSession, share: int, idOf: (string, int) -> string)
    requires db.Valid() && tui.wizard == Some(w) && w.currentStep.CreatingGitHubWorklogs?
    modifies db`localWorklogs, tui`wizard, tui`refreshPending
    ensures db.Valid()
    ensures var made := SessionWorklogs(s, SessionJiraIssues(s), share, tui.data.issuesByKey, idOf);
            && tui.wizard == Some(SessionDone(w, IdsOf(made), share))
            && db.localWorklogs == SaveAll(old(db.localWorklogs), made)
            && RefreshStarted(old(tui.refreshPending), tui.refreshPending, tui.data.ui)
  {
    var issues := SessionJiraIssues(s);
    ghost var ids := IdsOf(SessionWorklogs(s, issues, share, tui.data.issuesByKey, idOf));
    var created := CreateWorklogsFromSession(tui, db, s, issues, share, idOf);
    assert |ids| == created;
    var after := tui.wizard.value;
    var next := after.(summary := after.summary.(worklogsFromGithub := after.summary.worklogsFromGithub + created,
                                                  totalSeconds := after.summary.totalSeconds + share * created),
                       currentStep := CreatingGitHubWorklogs(w.currentStep.sessions, w.currentStep.currentSessionIndex + 1));
    SessionDoneIs(w, ids, share, after, created, next);
    tui.wizard := Some(next);
  }

  lemma SessionDoneIs(w: WizardState, ids: seq<string>, share: int, after: WizardState, created: nat, next: WizardState)
    requires w.currentStep.CreatingGitHubWorklogs? && after == RecordCreatedWorklogs(w, ids) && |ids| == created
    requires next == after.(summary := after.summary.(worklogsFromGithub := after.summary.worklogsFromGithub + created,
                                                       totalSeconds := after.summary.totalSeconds + share * created),
                            currentStep := CreatingGitHubWorklogs(w.currentStep.sessions, w.currentStep.currentSessionIndex + 1))
    ensures next == SessionDone(w, ids, share)
  {
  }

  /**
   * `wizard_step_create_github_worklogs`: a wizard at the GitHub step
   * with no sessions yet takes those of its sprint; with none, step 4 is
   * done with a skip reason and gap filling follows; then the sessions
   * are worked through.
   */
  method CreateGitHubWorklogs(tui: Tui, db: Db, idOf: (string, int) -> string)
    requires db.Valid()
    modifies db`localWorklogs, tui`wizard, tui`refreshPending, tui`gapFill, tui`worklogConfirmation
    ensures db.Valid()
    ensures !(old(tui.wizard).Some? && old(tui.wizard).value.currentStep.CreatingGitHubWorklogs?) ==>
              && tui.wizard == old(tui.wizard) && db.localWorklogs == old(db.localWorklogs)
              && tui.refreshPending == old(tui.refreshPending)
              && tui.gapFill == old(tui.gapFill) && tui.worklogConfirmation == old(tui.worklogConfirmation)
    ensures old(tui.wizard).Some? && old(tui.wizard).value.currentStep.CreatingGitHubWorklogs? ==>
              && tui.wizard.Some? && Extends(old(tui.wizard).value, tui.wizard.value)
              && tui.wizard.value.rollbackLog.linkedMeetingIds == old(tui.wizard).value.rollbackLog.linkedMeetingIds
              && tui.wizard.value.summary.meetingsAutoLinked == old(tui.wizard).value.summary.meetingsAutoLinked
              && Settled(tui.wizard.value, tui.worklogConfirmation.Some?)
              && RefreshStarted(old(tui.refreshPending), tui.refreshPending, tui.data.ui)
    ensures old(tui.wizard).Some? && old(tui.wizard).value.currentStep == CreatingGitHubWorklogs([], 0) ==>
              var range := SprintRange(tui.data.sprints, old(tui.wizard).value.sprintId);
              range.Some? && SprintSessions(tui.data.sessions, DayOf(range.value.0), DayOf(range.value.1)) == [] ==>
                && tui.wizard == Some(old(tui.wizard).value.(completedSteps := old(tui.wizard).value.completedSteps + {4},
                                                             skipReasons := old(tui.wizard).value.skipReasons[4 := NoSessionsReason],
                                                             currentStep := FillingGaps(None)))
                && db.localWorklogs == old(db.localWorklogs)
                && tui.gapFill.Some? && GapFillFor(tui.gapFill.value, old(tui.wizard).value.sprintId, tui.data.issuesByKey)
  {
    if tui.wizard.Some? && tui.wizard.value.currentStep.CreatingGitHubWorklogs? && tui.wizard.value.currentStep.sessions == [] {
      var w := tui.wizard.value;
      match SprintRange(tui.data.sprints, w.sprintId)
      case Some(range) =>
        var sessions := SprintSessions(tui.data.sessions, DayOf(range.0), DayOf(range.1));
        if |sessions| == 0 {
          tui.wizard := Some(w.(completedSteps := w.completedSteps + {4}, skipReasons := w.skipReasons[4 := NoSessionsReason],
                                currentStep := FillingGaps(None)));
          FillGaps(tui);
          return;
        }
        tui.wizard := Some(w.(currentStep := CreatingGitHubWorklogs(sessions, 0)));
      case None =>
    }
    ghost var before := tui.wizard;
    ghost var locals := db.localWorklogs;
    ProcessGitHubSessions(tui, db, idOf);
    if before.Some? && before.value.currentStep.CreatingGitHubWorklogs? {
      RunSessionsKeeps(before.value, locals, tui.data, idOf);
      RunSessionsExtends(before.value, locals, tui.data, idOf);
      RunSessionsEnd(before.value, locals, tui.data, idOf);
    }
  }

  // ---------------------------------------------------------------------
  // Step 5: the gap-filling popup
  // ---------------------------------------------------------------------

  predicate KeyOrdered(issues: seq<Issue>) {
    forall i, j :: 0 <= i < j < |issues| ==> !Less(issues[j].key, issues[i].key)
  }

  /** Inserting an issue before the first one with a greater key. */
  function InsertByKey(sorted: seq<Issue>, x: Issue): (r: seq<Issue>)
    ensures multiset(r) == multiset(sorted) + multiset{x}
    ensures |r| == |sorted| + 1 && forall y :: y in r <==> y in sorted || y == x
    decreases |sorted|
  {
    if |sorted| == 0 then [x]
    else if Less(x.key, sorted[0].key) then [x] + sorted
    else
      assert sorted == [sorted[0]] + sorted[1..];
      [sorted[0]] + InsertByKey(sorted[1..], x)
  }

  lemma {:induction false} InsertByKeyOrdered(sorted: seq<Issue>, x: Issue)
    requires KeyOrdered(sorted)
    ensures KeyOrdered(InsertByKey(sorted, x))
    decreases |sorted|
  {
    if |sorted| > 0 && !Less(x.key, sorted[0].key) {
      var tail := sorted[1..];
      assert KeyOrdered(tail) by {
        forall i, j | 0 <= i < j < |tail| ensures !Less(tail[j].key, tail[i].key) {
          assert tail[i] == sorted[i + 1] && tail[j] == sorted[j + 1];
        }
      }
      InsertByKeyOrdered(tail, x);
      var rest := InsertByKey(tail, x);
      forall k | 0 <= k < |rest| ensures !Less(rest[k].key, sorted[0].key) {
        assert rest[k] in multiset(rest);
        if rest[k] != x {
          assert rest[k] in multiset(tail);
          var m :| 0 <= m < |tail| && tail[m] == rest[k];
          assert sorted[m + 1] == rest[k];
        }
      }
      HeadKeyOrdered(sorted[0], rest);
    } else if |sorted| > 0 {
      forall k | 0 <= k < |sorted| ensures !Less(sorted[k].key, x.key) {
        if k == 0 {
          LessAsymmetric(x.key, sorted[0].key);
        } else {
          NotLessChain(x.key, sorted[0].key, sorted[k].key);
        }
      }
      HeadKeyOrdered(x, sorted);
    }
  }

  lemma NotLessChain(a: string, b: string, c: string)
    requires Less(a, b) && !Less(c, b)
    ensures !Less(c, a)
  {
    if Less(c, a) {
      LessTransitive(c, a, b);
    }
  }

  lemma HeadKeyOrdered(h: Issue, rest: seq<Issue>)
    requires KeyOrdered(rest)
    requires forall k :: 0 <= k < |rest| ==> !Less(rest[k].key, h.key)
    ensures KeyOrdered([h] + rest)
  {
    var s := [h] + rest;
    forall i, j | 0 <= i < j < |s| ensures !Less(s[j].key, s[i].key) {
      assert s[j] == rest[j - 1];
      if i > 0 {
        assert s[i] == rest[i - 1];
      }
    }
  }

  /** The popup `wizard_step_fill_gaps` opens: every stored issue once, by key, nothing selected or searched yet. */
  predicate GapFillFor(g: GapFillState, sprintId: nat, byKey: map<string, Issue>) {
    && g.sprintId == sprintId && g.selectedIssueIndex == 0 && g.searchQuery == ""
    && KeyOrdered(g.allIssues) && |g.allIssues| == |byKey|
    && (forall k :: k in byKey ==> byKey[k] in g.allIssues)
    && (forall x :: x in g.allIssues ==> x in byKey.Values)
  }

  /** `issues_by_key.values()` sorted by key; the map's order does not matter. */
  method SortedIssues(byKey: map<string, Issue>) returns (issues: seq<Issue>)
    ensures KeyOrdered(issues) && |issues| == |byKey|
    ensures forall k :: k in byKey ==> byKey[k] in issues
    ensures forall x :: x in issues ==> x in byKey.Values
  {
    issues := [];
    var remaining := byKey.Keys;
    while remaining != {}
      invariant remaining <= byKey.Keys
      invariant KeyOrdered(issues) && |issues| + |remaining| == |byKey|
      invariant forall k :: k in byKey && k !in remaining ==> byKey[k] in issues
      invariant forall x :: x in issues ==> x in byKey.Values
      decreases |remaining|
    {
      var k :| k in remaining;
      InsertByKeyOrdered(issues, byKey[k]);
      issues := InsertByKey(issues, byKey[k]);
      remaining := remaining - {k};
    }
  }

  /** `wizard_step_fill_gaps`: with a wizard, the gap-fill popup opens for its sprint. */
  method FillGaps(tui: Tui)
    modifies tui`gapFill
    ensures tui.wizard.None? ==> tui.gapFill == old(tui.gapFill)
    ensures tui.wizard.Some? ==> tui.gapFill.Some? && GapFillFor(tui.gapFill.value, tui.wizard.value.sprintId, tui.data.issuesByKey)
  {
    var all := SortedIssues(tui.data.issuesByKey);
    if tui.wizard.Some? {
      tui.gapFill := Some(GapFillState(tui.wizard.value.sprintId, all, 0, ""));
    }
  }

  // ---------------------------------------------------------------------
  // Step 6: review
  // ---------------------------------------------------------------------

  /** The Created worklogs of the snapshot that start within [start, end], in order. */
  function CreatedInRange(ws: seq<LocalWorklog>, start: int, end: int): (r: seq<LocalWorklog>)
    ensures |r| <= |ws|
    ensures forall w :: w in r <==> w in ws && w.status == Created && start <= w.started <= end
    decreases |ws|
  {
    if |ws| == 0 then []
    else
      var n := |ws| - 1;
      assert ws == ws[..n] + [ws[n]];
      var w := ws[n];
      CreatedInRange(ws[..n], start, end) + (if w.status == Created && start <= w.started <= end then [w] else [])
  }

  /** The Created worklogs the review counts for the wizard's sprint, none when the sprint has no range. */
  function ToPush(data: TuiData, sprintId: nat): seq<LocalWorklog> {
    match SprintRange(data.sprints, sprintId)
    case Some(range) => CreatedInRange(data.worklogs, range.0, range.1)
    case None => []
  }

  /**
   * `wizard_step_review`: refresh, count the Created worklogs of the
   * sprint; with none, steps 6 and 7 are done and the wizard is Complete,
   * else step 6 is done and the review begins with no day excluded.
   */
  method ReviewStep(tui: Tui)
    modifies tui`refreshPending, tui`wizard
    ensures tui.refreshPending == Refreshed(old(tui.refreshPending), tui.data.ui)
    ensures old(tui.wizard).None? || SprintRange(tui.data.sprints, old(tui.wizard).value.sprintId).None? ==>
              tui.wizard == old(tui.wizard)
    ensures old(tui.wizard).Some? && SprintRange(tui.data.sprints, old(tui.wizard).value.sprintId).Some? ==>
              var w := old(tui.wizard).value;
              var count := |ToPush(tui.data, w.sprintId)|;
              var counted := w.(summary := w.summary.(pushedCount := count));
              tui.wizard == Some(if count == 0
                                 then counted.(completedSteps := w.completedSteps + {6, 7}, currentStep := Complete)
                                 else counted.(completedSteps := w.completedSteps + {6}, currentStep := ReviewingWorklogs({})))
  {
    tui.RefreshData();
    if tui.wizard.Some? {
      var w := tui.wizard.value;
      match SprintRange(tui.data.sprints, w.sprintId)
      case Some(range) =>
        var count := |CreatedInRange(tui.data.worklogs, range.0, range.1)|;
        w := w.(summary := w.summary.(pushedCount := count));
        if count == 0 {
          tui.wizard := Some(w.(completedSteps := w.completedSteps + {6, 7}, currentStep := Complete));
        } else {
          tui.wizard := Some(w.(completedSteps := w.completedSteps + {6}, currentStep := ReviewingWorklogs({})));
        }
      case None =>
    }
  }

  // ---------------------------------------------------------------------
  // Step 7: staging and push
  // ---------------------------------------------------------------------

  /** The wizard as the push step starts: Pushing, with the reviewed count as the total. */
  function PushStarted(w: WizardState): (r: WizardState)
    ensures r.currentStep == Pushing && r.pushCurrent == 0 && r.pushTotal == w.summary.pushedCount
    ensures r.completedSteps == w.completedSteps && r.rollbackLog == w.rollbackLog && r.summary == w.summary
  {
    w.(currentStep := Pushing, pushCurrent := 0, pushTotal := w.summary.pushedCount)
  }

  /** The store once the sprint's Created worklogs of the snapshot are saved as Staged. */
  function StagedForPush(locals: seq<(string, LocalWorklog)>, data: TuiData, sprintId: nat): (r: seq<(string, LocalWorklog)>)
    requires LocalsKeyed(locals)
    ensures LocalsKeyed(r)
  {
    SaveAll(locals, WithState(ToPush(data, sprintId), Staged))
  }

  /**
   * A snapshot read from the store in key order: every Created worklog of
   * the sprint is Staged in the store after staging.
   */
  lemma StagingCoversSprint(locals: seq<(string, LocalWorklog)>, data: TuiData, sprintId: nat, w: LocalWorklog)
    requires LocalsKeyed(locals) && IdsAscending(data.worklogs)
    requires w in ToPush(data, sprintId)
    ensures Get(StagedForPush(locals, data, sprintId), w.id) == Some(w.(status := Staged))
  {
    var range := SprintRange(data.sprints, sprintId).value;
    CreatedInRangeAscending(data.worklogs, range.0, range.1);
    var toPush := ToPush(data, sprintId);
    var i :| 0 <= i < |toPush| && toPush[i] == w;
    WithStateAscending(toPush, Staged);
    SaveAllAt(locals, WithState(toPush, Staged), i);
  }

  /** Staging touches no worklog that is not among them. */
  lemma StagingTouchesNothingElse(locals: seq<(string, LocalWorklog)>, data: TuiData, sprintId: nat, k: string)
    requires LocalsKeyed(locals)
    requires forall w :: w in ToPush(data, sprintId) ==> w.id != k
    ensures Get(StagedForPush(locals, data, sprintId), k) == Get(locals, k)
  {
    var toPush := ToPush(data, sprintId);
    assert forall i :: 0 <= i < |toPush| ==> toPush[i] in toPush;
    SaveAllOther(locals, WithState(toPush, Staged), k);
  }

  lemma {:induction false} CreatedInRangeAscending(ws: seq<LocalWorklog>, start: int, end: int)
    requires IdsAscending(ws)
    ensures IdsAscending(CreatedInRange(ws, start, end))
    decreases |ws|
  {
    if |ws| > 0 {
      var n := |ws| - 1;
      var front := ws[..n];
      AscendingPrefix(ws, n);
      CreatedInRangeAscending(front, start, end);
      var init := CreatedInRange(front, start, end);
      var r := CreatedInRange(ws, start, end);
      CreatedInRangeUnfold(ws, start, end);
      if ws[n].status == Created && start <= ws[n].started <= end {
        assert r == init + [ws[n]];
        assert forall x :: x in init ==> x in front;
        AscendingAfterDrawn(ws, init);
      } else {
        assert r == init;
      }
    }
  }

  /** Worklogs drawn in order from all but the last can be followed by the last. */
  lemma AscendingAfterDrawn(ws: seq<LocalWorklog>, init: seq<LocalWorklog>)
    requires IdsAscending(ws) && |ws| > 0 && IdsAscending(init)
    requires forall x :: x in init ==> x in ws[..|ws| - 1]
    ensures IdsAscending(init + [ws[|ws| - 1]])
  {
    forall i | 0 <= i < |init| ensures Less(init[i].id, ws[|ws| - 1].id) {
      assert init[i] in init;
      BelowLast(ws, init[i]);
    }
    AscendingSnoc(init, ws[|ws| - 1]);
  }

  lemma CreatedInRangeUnfold(ws: seq<LocalWorklog>, start: int, end: int)
    requires |ws| > 0
    ensures var n := |ws| - 1;
            CreatedInRange(ws, start, end)
            == if ws[n].status == Created && start <= ws[n].started <= end then CreatedInRange(ws[..n], start, end) + [ws[n]]
               else CreatedInRange(ws[..n], start, end)
  {
    var n := |ws| - 1;
    assert CreatedInRange(ws[..n], start, end) + [] == CreatedInRange(ws[..n], start, end);
  }

  /** In ascending worklogs, every earlier id is below the last one. */
  lemma BelowLast(ws: seq<LocalWorklog>, x: LocalWorklog)
    requires IdsAscending(ws) && |ws| > 0 && x in ws[..|ws| - 1]
    ensures Less(x.id, ws[|ws| - 1].id)
  {
    var j :| 0 <= j < |ws| - 1 && ws[..|ws| - 1][j] == x;
    assert ws[j] == x;
  }

  lemma AscendingSnoc(ws: seq<LocalWorklog>, w: LocalWorklog)
    requires IdsAscending(ws) && forall i :: 0 <= i < |ws| ==> Less(ws[i].id, w.id)
    ensures IdsAscending(ws + [w])
  {
    var r := ws + [w];
    forall i, j | 0 <= i < j < |r| ensures Less(r[i].id, r[j].id) {
      assert r[i] == ws[i];
      if j < |ws| {
        assert r[j] == ws[j];
      }
    }
  }

  /**
   * `wizard_step_push`: the wizard turns to Pushing; when its sprint has
   * a range, the sprint's Created worklogs of the snapshot are saved as
   * Staged, the push runs on the store, and a refresh starts.
   */
  method PushStep(tui: Tui, db: Db, historyId: string, now: int, replies: nat -> AddTimeReply)
    returns (progress: seq<string>, completion: Option<(string, string)>)
    requires db.Valid()
    modifies tui`wizard, tui`fetchStatus, tui`pushReceiving, tui`progressReceiving, tui`refreshPending
    modifies db`localWorklogs, db`histories, db`worklogs
    ensures db.Valid()
    ensures old(tui.wizard).None? || SprintRange(tui.data.sprints, old(tui.wizard).value.sprintId).None? ==>
              && tui.wizard == (if old(tui.wizard).None? then None else Some(PushStarted(old(tui.wizard).value)))
              && db.localWorklogs == old(db.localWorklogs) && db.histories == old(db.histories) && db.worklogs == old(db.worklogs)
              && tui.fetchStatus == old(tui.fetchStatus) && tui.refreshPending == old(tui.refreshPending)
              && tui.pushReceiving == old(tui.pushReceiving) && tui.progressReceiving == old(tui.progressReceiving)
              && progress == [] && completion == None
    ensures old(tui.wizard).Some? && SprintRange(tui.data.sprints, old(tui.wizard).value.sprintId).Some? ==>
              var staged := StagedForPush(old(db.localWorklogs), tui.data, old(tui.wizard).value.sprintId);
              var pushing := StagedWorklogs(staged);
              && tui.refreshPending == Refreshed(old(tui.refreshPending), tui.data.ui)
              && (pushing == [] ==>
                    && tui.wizard == Some(PushCompleted(PushStarted(old(tui.wizard).value)))
                    && db.localWorklogs == staged && db.histories == old(db.histories) && db.worklogs == old(db.worklogs)
                    && progress == [] && completion == None)
              && (pushing != [] ==>
                    && tui.wizard == Some(PushStarted(old(tui.wizard).value))
                    && db.histories == Insert(old(db.histories), historyId, LocalWorklogHistory(historyId, now, IdsOf(pushing)))
                    && db.localWorklogs == PushLocals(staged, pushing, replies)
                    && db.worklogs == PushRemote(old(db.worklogs), replies, |pushing|)
                    && progress == PushLines(pushing, replies)
                    && tui.fetchStatus == Fetching(PushingStatus(|pushing|)))
  {
    if tui.wizard.None? {
      return [], None;
    }
    var w := tui.wizard.value;
    tui.wizard := Some(PushStarted(w));
    match SprintRange(tui.data.sprints, w.sprintId)
    case Some(range) =>
      progress, completion := PushStaged(tui, db, CreatedInRange(tui.data.worklogs, range.0, range.1), historyId, now, replies);
    case None =>
      return [], None;
  }

  /** With a range: `ws` saved as Staged, the push run on the store, and a refresh started. */
  method PushStaged(tui: Tui, db: Db, ws: seq<LocalWorklog>, historyId: string, now: int, replies: nat -> AddTimeReply)
    returns (progress: seq<string>, completion: Option<(string, string)>)
    requires db.Valid() && tui.wizard.Some? && tui.wizard.value.currentStep.Pushing?
    modifies tui`wizard, tui`fetchStatus, tui`pushReceiving, tui`progressReceiving, tui`refreshPending
    modifies db`localWorklogs, db`histories, db`worklogs
    ensures db.Valid()
    ensures var staged := SaveAll(old(db.localWorklogs), WithState(ws, Staged));
            var pushing := StagedWorklogs(staged);
            && tui.refreshPending == Refreshed(old(tui.refreshPending), tui.data.ui)
            && (pushing == [] ==>
                  && tui.wizard == Some(PushCompleted(old(tui.wizard).value))
                  && db.localWorklogs == staged && db.histories == old(db.histories) && db.worklogs == old(db.worklogs)
                  && progress == [] && completion == None)
            && (pushing != [] ==>
                  && tui.wizard == old(tui.wizard)
                  && db.histories == Insert(old(db.histories), historyId, LocalWorklogHistory(historyId, now, IdsOf(pushing)))
                  && db.localWorklogs == PushLocals(staged, pushing, replies)
                  && db.worklogs == PushRemote(old(db.worklogs), replies, |pushing|)
                  && progress == PushLines(pushing, replies)
                  && tui.fetchStatus == Fetching(PushingStatus(|pushing|)))
  {
    SaveEach(db, WithState(ws, Staged));
    ghost var pushing := StagedWorklogs(db.localWorklogs);
    ghost var pending := tui.refreshPending;
    progress, completion := HandlePushWorklogs(tui, db, historyId, now, replies);
    assert tui.wizard == (if pushing == [] then Some(PushCompleted(old(tui.wizard).value)) else old(tui.wizard));
    tui.RefreshData();
    assert tui.refreshPending == Refreshed(pending, tui.data.ui);
  }

  // ---------------------------------------------------------------------
  // Rollback
  // ---------------------------------------------------------------------

  /** The meeting store after unlinking each recorded meeting that is still stored. */
  function UnlinkAll(store: seq<(string, Meeting)>, ids: seq<string>): (r: seq<(string, Meeting)>)
    requires MeetingsKeyed(store)
    ensures MeetingsKeyed(r)
    decreases |ids|
  {
    if |ids| == 0 then store
    else
      var n := |ids| - 1;
      UnlinkOne(UnlinkAll(store, ids[..n]), ids[n])
  }

  /** One recorded meeting unlinked, when it is stored. */
  function UnlinkOne(store: seq<(string, Meeting)>, id: string): (r: seq<(string, Meeting)>)
    requires MeetingsKeyed(store)
    ensures MeetingsKeyed(r)
  {
    match Get(store, id)
    case Some(m) =>
      MeetingKeyIsId(store, id);
      InsertKeepsMeetingsKeyed(store, m.(jiraLink := None));
      Insert(store, id, m.(jiraLink := None))
    case None => store
  }

  /** Unlinking one meeting clears its link when it is stored and changes no other record. */
  lemma GetUnlinkOne(store: seq<(string, Meeting)>, id: string, k: string)
    requires MeetingsKeyed(store)
    ensures Get(UnlinkOne(store, id), k)
            == if k == id && Get(store, k).Some? then Some(Get(store, k).value.(jiraLink := None)) else Get(store, k)
  {
    match Get(store, id)
    case Some(m) =>
      GetInsert(store, id, m.(jiraLink := None), k);
    case None =>
  }

  /** A listed meeting that is stored has no link afterwards; every other record is as it was. */
  lemma {:induction false} GetUnlinkAll(store: seq<(string, Meeting)>, ids: seq<string>, k: string)
    requires MeetingsKeyed(store)
    ensures Get(UnlinkAll(store, ids), k)
            == if k in ids && Get(store, k).Some? then Some(Get(store, k).value.(jiraLink := None)) else Get(store, k)
    decreases |ids|
  {
    if |ids| > 0 {
      var n := |ids| - 1;
      var prev := UnlinkAll(store, ids[..n]);
      GetUnlinkAll(store, ids[..n], k);
      GetUnlinkOne(prev, ids[n], k);
      InPrefixOrLast(ids, k);
      UnlinkTwice(Get(store, k), Get(prev, k), Get(UnlinkAll(store, ids), k), k in ids[..n], k == ids[n]);
    }
  }

  lemma InPrefixOrLast(ids: seq<string>, k: string)
    requires |ids| > 0
    ensures k in ids <==> k in ids[..|ids| - 1] || k == ids[|ids| - 1]
  {
    assert ids == ids[..|ids| - 1] + [ids[|ids| - 1]];
  }

  /** Clearing a link a second time changes nothing. */
  lemma UnlinkTwice(a: Option<Meeting>, p: Option<Meeting>, r: Option<Meeting>, first: bool, second: bool)
    requires p == if first && a.Some? then Some(a.value.(jiraLink := None)) else a
    requires r == if second && p.Some? then Some(p.value.(jiraLink := None)) else p
    ensures r == if (first || second) && a.Some? then Some(a.value.(jiraLink := None)) else a
  { }

  /** `wizard_rollback`: unlink every recorded meeting, then delete every recorded worklog. */
  method Rollback(tui: Tui, db: Db)
    requires db.Valid()
    modifies db`meetings, db`localWorklogs
    ensures db.Valid()
    ensures tui.wizard.None? ==> db.meetings == old(db.meetings) && db.localWorklogs == old(db.localWorklogs)
    ensures tui.wizard.Some? ==>
              && db.meetings == UnlinkAll(old(db.meetings), tui.wizard.value.rollbackLog.linkedMeetingIds)
              && db.localWorklogs == RemoveAll(old(db.localWorklogs), tui.wizard.value.rollbackLog.createdWorklogIds)
  {
    if tui.wizard.Some? {
      UnlinkEach(db, tui.wizard.value.rollbackLog.linkedMeetingIds);
      RemoveEachId(db, tui.wizard.value.rollbackLog.createdWorklogIds);
    }
  }

  method UnlinkEach(db: Db, ids: seq<string>)
    requires db.Valid()
    modifies db`meetings
    ensures db.Valid()
    ensures db.meetings == UnlinkAll(old(db.meetings), ids)
  {
    for i := 0 to |ids|
      invariant db.Valid()
      invariant db.meetings == UnlinkAll(old(db.meetings), ids[..i])
    {
      assert ids[..i + 1][..i] == ids[..i] && ids[..i + 1][i] == ids[i];
      match Get(db.meetings, ids[i])
      case Some(m) =>
        MeetingKeyIsId(db.meetings, ids[i]);
        SaveMeeting(db, m.(jiraLink := None));
      case None =>
    }
    assert ids[..|ids|] == ids;
  }

  method RemoveEachId(db: Db, ids: seq<string>)
    requires db.Valid()
    modifies db`localWorklogs
    ensures db.Valid()
    ensures db.localWorklogs == RemoveAll(old(db.localWorklogs), ids)
  {
    for i := 0 to |ids|
      invariant db.Valid()
      invariant db.localWorklogs == RemoveAll(old(db.localWorklogs), ids[..i])
    {
      RemoveStep(old(db.localWorklogs), ids, i);
      match Get(db.localWorklogs, ids[i])
      case Some(w) =>
        LocalKeyIsId(db.localWorklogs, ids[i]);
        RemoveLocalWorklog(db, w);
      case None =>
        RemoveAbsent(db.localWorklogs, ids[i]);
    }
    assert ids[..|ids|] == ids;
  }

  lemma LocalKeyIsId(r: seq<(string, LocalWorklog)>, k: string)
    requires LocalsKeyed(r) && Get(r, k).Some?
    ensures Get(r, k).value.id == k
  {
    var j :| 0 <= j < |r| && r[j] == (k, Get(r, k).value);
  }

  /** Auto-linking only ever changes a meeting's link. */
  lemma {:induction false} AutoLinkOnlyLinks(store: seq<(string, Meeting)>, ms: seq<Meeting>, byKey: map<string, Issue>, k: string)
    requires MeetingsKeyed(store)
    ensures Get(AutoLinkStore(store, ms, byKey), k).Some? == Get(store, k).Some?
    ensures Get(store, k).Some? ==>
              Get(AutoLinkStore(store, ms, byKey), k).value.(jiraLink := None) == Get(store, k).value.(jiraLink := None)
    ensures k !in AutoLinkedIds(store, ms, byKey) ==> Get(AutoLinkStore(store, ms, byKey), k) == Get(store, k)
    decreases |ms|
  {
    if |ms| > 0 {
      var n := |ms| - 1;
      var prev := AutoLinkStore(store, ms[..n], byKey);
      AutoLinkStoreUnfold(store, ms, byKey);
      assert AutoLinkedIds(store, ms, byKey)
             == AutoLinkedIds(store, ms[..n], byKey) + (if Links(ms[n], Get(prev, ms[n].id), byKey) then [ms[n].id] else []);
      AutoLinkOnlyLinks(store, ms[..n], byKey, k);
      GetLinkStep(prev, ms[n], byKey, k);
    }
  }

  /**
   * Rolling back what the auto-linking recorded gives every meeting that
   * was stored unlinked (or not stored) back exactly as it was.
   */
  lemma RollbackUndoesAutoLink(store: seq<(string, Meeting)>, ms: seq<Meeting>, byKey: map<string, Issue>, k: string)
    requires MeetingsKeyed(store)
    requires Get(store, k).Some? ==> Get(store, k).value.jiraLink.None?
    ensures Get(UnlinkAll(AutoLinkStore(store, ms, byKey), AutoLinkedIds(store, ms, byKey)), k) == Get(store, k)
  {
    var linked := AutoLinkStore(store, ms, byKey);
    GetUnlinkAll(linked, AutoLinkedIds(store, ms, byKey), k);
    AutoLinkOnlyLinks(store, ms, byKey, k);
  }

  // ---------------------------------------------------------------------
  // The wizard's event handler
  // ---------------------------------------------------------------------

  /** The (event, step) pairs the handler acts on; it ignores every other pair. */
  predicate Reacts(w: Option<WizardState>, e: AppEvent) {
    && w.Some?
    && ((e.FetchComplete? && w.value.currentStep.Syncing?)
        || (e.PushComplete? && w.value.currentStep.Pushing?)
        || (e.PushProgress? && w.value.currentStep.Pushing?))
  }

  /**
   * `WizardEventHandler::on_event`: a finished fetch during Syncing starts
   * the auto-linking, a finished push during Pushing completes the
   * wizard, a push progress during Pushing is logged; anything else
   * changes nothing.
   */
  method OnWizardEvent(tui: Tui, db: Db, e: AppEvent, idOf: (string, int) -> string)
    requires db.Valid()
    modifies db`meetings, db`localWorklogs, tui`wizard, tui`refreshPending, tui`gapFill, tui`worklogConfirmation
    ensures db.Valid()
    ensures !Reacts(old(tui.wizard), e) || e.PushComplete? || e.PushProgress? ==>
              && db.meetings == old(db.meetings) && db.localWorklogs == old(db.localWorklogs)
              && tui.refreshPending == old(tui.refreshPending)
              && tui.gapFill == old(tui.gapFill) && tui.worklogConfirmation == old(tui.worklogConfirmation)
    ensures !Reacts(old(tui.wizard), e) ==> tui.wizard == old(tui.wizard)
    ensures Reacts(old(tui.wizard), e) && e.PushComplete? ==> tui.wizard == Some(PushCompleted(old(tui.wizard).value))
    ensures Reacts(old(tui.wizard), e) && e.PushProgress? ==>
              tui.wizard == Some(WithPushProgress(old(tui.wizard).value, e.current, e.total, e.message))
    ensures Reacts(old(tui.wizard), e) && e.FetchComplete? ==>
              && tui.wizard.Some? && Extends(old(tui.wizard).value, tui.wizard.value)
              && 1 in tui.wizard.value.completedSteps && !tui.wizard.value.currentStep.Syncing?
              && db.meetings == AutoLinkStore(old(db.meetings), Unlinked(tui.data.meetings), tui.data.issuesByKey)
  {
    if !Reacts(tui.wizard, e) {
      return;
    }
    match e
    case FetchComplete(_) =>
      WizardStepAutolink(tui, db, idOf);
    case PushComplete(_) =>
      WizardPushComplete(tui);
    case PushProgress(current, total, message) =>
      tui.wizard := Some(WithPushProgress(tui.wizard.value, current, total, message));
  }
}
