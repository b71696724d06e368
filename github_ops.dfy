/**
 * The TUI's GitHub operations: turning the selected GitHub session into
 * local worklogs, one per known Jira issue, each given an equal share of
 * the session's time, with a confirmation asked first when the day would
 * go over the daily limit.
 *
 * The worklog ids are the md5 digest of the issue key and the start time
 * in the program; here they are the parameter `idOf`.
 */
module GitHubOps {
  import opened Wrappers
  import opened Text
  import opened Tree
  import opened Numbers
  import opened Model
  import opened Storage
  import opened WorklogsService
  import opened WorklogBatches
  import opened TuiTypes
  import opened TuiState
  import opened WizardCore

  // ---------------------------------------------------------------------
  // The sessions as the tab lists them
  // ---------------------------------------------------------------------

  predicate NewestFirst(ss: seq<GitHubSession>) {
    forall i, j :: 0 <= i < j < |ss| ==> ss[i].startTime >= ss[j].startTime
  }

  /** Inserting a session after every session that started no earlier. */
  function InsertNewestFirst(sorted: seq<GitHubSession>, x: GitHubSession): (r: seq<GitHubSession>)
    ensures multiset(r) == multiset(sorted) + multiset{x}
    decreases |sorted|
  {
    if |sorted| == 0 then [x]
    else if sorted[0].startTime >= x.startTime then
      assert sorted == [sorted[0]] + sorted[1..];
      [sorted[0]] + InsertNewestFirst(sorted[1..], x)
    else
      [x] + sorted
  }

  lemma {:induction false} InsertKeepsNewestFirst(sorted: seq<GitHubSession>, x: GitHubSession)
    requires NewestFirst(sorted)
    ensures NewestFirst(InsertNewestFirst(sorted, x))
    decreases |sorted|
  {
    if |sorted| > 0 && sorted[0].startTime >= x.startTime {
      var tail := sorted[1..];
      assert NewestFirst(tail) by {
        forall i, j | 0 <= i < j < |tail| ensures tail[i].startTime >= tail[j].startTime {
          assert tail[i] == sorted[i + 1] && tail[j] == sorted[j + 1];
        }
      }
      InsertKeepsNewestFirst(tail, x);
      var rest := InsertNewestFirst(tail, x);
      forall k | 0 <= k < |rest| ensures rest[k].startTime <= sorted[0].startTime {
        assert rest[k] in multiset(rest);
        if rest[k] != x {
          assert rest[k] in multiset(tail);
          var m :| 0 <= m < |tail| && tail[m] == rest[k];
          assert sorted[m + 1] == rest[k];
        }
      }
      HeadNewestFirst(sorted[0], rest);
    } else if |sorted| > 0 {
      HeadNewestFirst(x, sorted);
    }
  }

  lemma HeadNewestFirst(h: GitHubSession, rest: seq<GitHubSession>)
    requires NewestFirst(rest)
    requires forall k :: 0 <= k < |rest| ==> rest[k].startTime <= h.startTime
    ensures NewestFirst([h] + rest)
  {
    var s := [h] + rest;
    forall i, j | 0 <= i < j < |s| ensures s[i].startTime >= s[j].startTime {
      assert s[j] == rest[j - 1];
      if i > 0 {
        assert s[i] == rest[i - 1];
      }
    }
  }

  /** `sort_by(|a, b| b.start_time.cmp(&a.start_time))`: a stable sort, newest first. */
  function NewestFirstSort(ss: seq<GitHubSession>): (r: seq<GitHubSession>)
    ensures multiset(r) == multiset(ss)
    decreases |ss|
  {
    if |ss| == 0 then []
    else
      var n := |ss| - 1;
      assert ss == ss[..n] + [ss[n]];
      InsertNewestFirst(NewestFirstSort(ss[..n]), ss[n])
  }

  /** The sort lists the sessions newest first. */
  lemma {:induction false} SortIsNewestFirst(ss: seq<GitHubSession>)
    ensures NewestFirst(NewestFirstSort(ss))
    decreases |ss|
  {
    if |ss| > 0 {
      var n := |ss| - 1;
      SortIsNewestFirst(ss[..n]);
      InsertKeepsNewestFirst(NewestFirstSort(ss[..n]), ss[n]);
    }
  }

  // ---------------------------------------------------------------------
  // What a session becomes
  // ---------------------------------------------------------------------

  /** Each issue's share of the session: `duration / n` in `i64` arithmetic when there are several. */
  function TimePerIssue(duration: int, n: nat): (t: int)
    ensures n <= 1 ==> t == duration
    ensures n > 1 && duration >= 0 ==> 0 <= t * n <= duration < t * n + n
    ensures n > 1 && duration < 0 ==> t * n - n < duration <= t * n <= 0
  {
    if n > 1 then TruncDiv(duration, n as int) else duration
  }

  /** `description.split(';').next()`, which is always there. */
  function FirstPart(description: string): (r: string)
    ensures ';' !in r
    ensures |r| <= |description| && description[..|r|] == r
    ensures ';' in description <==> |r| < |description|
    ensures |r| < |description| ==> description[|r|] == ';'
  {
    var parts := Split(description, ';');
    assert parts[0] == if ';' in description then description[..IndexOf(description, ';')] else description;
    parts[0]
  }

  function SessionComment(s: GitHubSession): string {
    "GitHub activity: " + FirstPart(s.description)
  }

  /** The issues of a list that the database knows, in list order. */
  function KnownIssues(issues: seq<string>, byKey: map<string, Issue>): (r: seq<string>)
    ensures |r| <= |issues|
    decreases |issues|
  {
    if |issues| == 0 then []
    else
      var n := |issues| - 1;
      KnownIssues(issues[..n], byKey) + (if issues[n] in byKey then [issues[n]] else [])
  }

  /** Exactly the listed issues the database knows are kept. */
  lemma {:induction false} KnownIssuesMembers(issues: seq<string>, byKey: map<string, Issue>)
    ensures forall k :: k in KnownIssues(issues, byKey) <==> k in issues && k in byKey
    decreases |issues|
  {
    if |issues| > 0 {
      var n := |issues| - 1;
      KnownIssuesMembers(issues[..n], byKey);
      assert issues == issues[..n] + [issues[n]];
    }
  }

  /** The worklog made for one issue of the session. */
  function SessionWorklog(s: GitHubSession, issue: string, timePerIssue: int, idOf: (string, int) -> string): (w: LocalWorklog)
    ensures w.status == Created && w.worklogId == None && w.meetingId == None
    ensures w.issueId == issue && w.started == s.startTime && w.timeSpentSeconds == timePerIssue
    ensures w.id == idOf(issue, s.startTime) && w.comment == NewComment(w.id, Some(SessionComment(s)))
  {
    NewLocalWorklog(idOf(issue, s.startTime), s.startTime, timePerIssue, issue, Some(SessionComment(s)), None)
  }

  /** The worklogs `create_worklogs_from_session` makes: one per known issue, in issue order. */
  function SessionWorklogs(s: GitHubSession, issues: seq<string>, timePerIssue: int,
                           byKey: map<string, Issue>, idOf: (string, int) -> string): (ws: seq<LocalWorklog>)
    ensures |ws| == |KnownIssues(issues, byKey)|
    decreases |issues|
  {
    if |issues| == 0 then []
    else
      var n := |issues| - 1;
      SessionWorklogs(s, issues[..n], timePerIssue, byKey, idOf)
      + (if issues[n] in byKey then [SessionWorklog(s, issues[n], timePerIssue, idOf)] else [])
  }

  /** Worklog `i` is the one for known issue `i`. */
  lemma {:induction false} SessionWorklogsAt(s: GitHubSession, issues: seq<string>, timePerIssue: int,
                                             byKey: map<string, Issue>, idOf: (string, int) -> string)
    ensures var ws := SessionWorklogs(s, issues, timePerIssue, byKey, idOf);
            forall i :: 0 <= i < |ws| ==> ws[i] == SessionWorklog(s, KnownIssues(issues, byKey)[i], timePerIssue, idOf)
    decreases |issues|
  {
    if |issues| > 0 {
      var n := |issues| - 1;
      SessionWorklogsAt(s, issues[..n], timePerIssue, byKey, idOf);
    }
  }

  /** Every worklog made is for a known issue of the session, at its start, with the share. */
  lemma SessionWorklogsSound(s: GitHubSession, issues: seq<string>, timePerIssue: int,
                             byKey: map<string, Issue>, idOf: (string, int) -> string, i: nat)
    requires i < |SessionWorklogs(s, issues, timePerIssue, byKey, idOf)|
    ensures var w := SessionWorklogs(s, issues, timePerIssue, byKey, idOf)[i];
            w.issueId in issues && w.issueId in byKey && w.started == s.startTime
            && w.timeSpentSeconds == timePerIssue && w.status == Created
  {
    var known := KnownIssues(issues, byKey);
    SessionWorklogsAt(s, issues, timePerIssue, byKey, idOf);
    KnownIssuesMembers(issues, byKey);
    assert known[i] in known;
  }

  /** Every known issue of the session gets a worklog; unknown ones get none. */
  lemma SessionWorklogsComplete(s: GitHubSession, issues: seq<string>, timePerIssue: int,
                                byKey: map<string, Issue>, idOf: (string, int) -> string, issue: string)
    ensures (exists i :: 0 <= i < |SessionWorklogs(s, issues, timePerIssue, byKey, idOf)|
                         && SessionWorklogs(s, issues, timePerIssue, byKey, idOf)[i].issueId == issue)
            <==> issue in issues && issue in byKey
  {
    var known := KnownIssues(issues, byKey);
    var ws := SessionWorklogs(s, issues, timePerIssue, byKey, idOf);
    SessionWorklogsAt(s, issues, timePerIssue, byKey, idOf);
    KnownIssuesMembers(issues, byKey);
    if issue in issues && issue in byKey {
      assert issue in known;
      var i :| 0 <= i < |known| && known[i] == issue;
      assert ws[i].issueId == issue;
    }
    if exists i :: 0 <= i < |ws| && ws[i].issueId == issue {
      var i :| 0 <= i < |ws| && ws[i].issueId == issue;
      assert known[i] in known;
    }
  }

  lemma KnownIssuesStep(issues: seq<string>, byKey: map<string, Issue>, i: nat)
    requires i < |issues|
    ensures KnownIssues(issues[..i + 1], byKey) ==
            KnownIssues(issues[..i], byKey) + (if issues[i] in byKey then [issues[i]] else [])
  {
    assert issues[..i + 1][..i] == issues[..i];
    assert issues[..i + 1][i] == issues[i];
  }

  lemma SessionWorklogsStep(s: GitHubSession, issues: seq<string>, timePerIssue: int,
                            byKey: map<string, Issue>, idOf: (string, int) -> string, i: nat)
    requires i < |issues|
    ensures SessionWorklogs(s, issues[..i + 1], timePerIssue, byKey, idOf) ==
            SessionWorklogs(s, issues[..i], timePerIssue, byKey, idOf)
            + (if issues[i] in byKey then [SessionWorklog(s, issues[i], timePerIssue, idOf)] else [])
  {
    assert issues[..i + 1][..i] == issues[..i];
    assert issues[..i + 1][i] == issues[i];
  }

  /** The wizard's rollback log after several created worklogs. */
  function RecordCreatedWorklogs(w: WizardState, ids: seq<string>): (r: WizardState)
    ensures r.rollbackLog.createdWorklogIds == w.rollbackLog.createdWorklogIds + ids
    ensures r.rollbackLog.linkedMeetingIds == w.rollbackLog.linkedMeetingIds
    ensures r.summary == w.summary && r.currentStep == w.currentStep && r.completedSteps == w.completedSteps
    ensures r == w.(rollbackLog := r.rollbackLog)
    decreases |ids|
  {
    if |ids| == 0 then w
    else
      var n := |ids| - 1;
      assert ids == ids[..n] + [ids[n]];
      RecordCreatedWorklog(RecordCreatedWorklogs(w, ids[..n]), ids[n])
  }

  lemma RecordCreatedWorklogsSnoc(w: WizardState, ids: seq<string>, id: string)
    ensures RecordCreatedWorklogs(w, ids + [id]) == RecordCreatedWorklog(RecordCreatedWorklogs(w, ids), id)
  {
    assert (ids + [id])[..|ids|] == ids;
  }

  lemma SaveAllSnoc(locals: seq<(string, LocalWorklog)>, ws: seq<LocalWorklog>, w: LocalWorklog)
    requires LocalsKeyed(locals)
    ensures SaveAll(locals, ws + [w]) == Insert(SaveAll(locals, ws), w.id, w)
  {
    assert (ws + [w])[..|ws|] == ws;
  }

  // ---------------------------------------------------------------------
  // The operations
  // ---------------------------------------------------------------------

  /**
   * `create_worklogs_from_session`: one worklog per known issue, the
   * unknown ones skipped; a running wizard keeps each id for rollback; a
   * refresh starts when anything was created.
   */
  method CreateWorklogsFromSession(tui: Tui, db: Db, s: GitHubSession, issues: seq<string>, timePerIssue: int,
                                   idOf: (string, int) -> string) returns (count: nat)
    requires db.Valid()
    modifies db`localWorklogs, tui`wizard, tui`refreshPending
    ensures db.Valid()
    ensures db.localWorklogs == SaveAll(old(db.localWorklogs), SessionWorklogs(s, issues, timePerIssue, tui.data.issuesByKey, idOf))
    ensures count == |KnownIssues(issues, tui.data.issuesByKey)|
    ensures old(tui.wizard).None? ==> tui.wizard == None
    ensures old(tui.wizard).Some? ==>
              tui.wizard == Some(RecordCreatedWorklogs(old(tui.wizard).value,
                                   IdsOf(SessionWorklogs(s, issues, timePerIssue, tui.data.issuesByKey, idOf))))
    ensures count > 0 ==> tui.refreshPending == if old(tui.refreshPending).Some? then old(tui.refreshPending) else Some(tui.data.ui)
    ensures count == 0 ==> tui.refreshPending == old(tui.refreshPending)
  {
    count := CreateSessionWorklogs(tui, db, s, issues, timePerIssue, idOf);
    if count > 0 {
      tui.RefreshData();
    }
  }

  /** The loop over the session's issues. */
  method CreateSessionWorklogs(tui: Tui, db: Db, s: GitHubSession, issues: seq<string>, timePerIssue: int,
                               idOf: (string, int) -> string) returns (count: nat)
    requires db.Valid()
    modifies db`localWorklogs, tui`wizard
    ensures db.Valid()
    ensures db.localWorklogs == SaveAll(old(db.localWorklogs), SessionWorklogs(s, issues, timePerIssue, tui.data.issuesByKey, idOf))
    ensures count == |KnownIssues(issues, tui.data.issuesByKey)|
    ensures old(tui.wizard).None? ==> tui.wizard == None
    ensures old(tui.wizard).Some? ==>
              tui.wizard == Some(RecordCreatedWorklogs(old(tui.wizard).value,
                                   IdsOf(SessionWorklogs(s, issues, timePerIssue, tui.data.issuesByKey, idOf))))
  {
    var byKey := tui.data.issuesByKey;
    ghost var locals0, wizard0 := db.localWorklogs, tui.wizard;
    count := 0;
    for i := 0 to |issues|
      invariant db.Valid() && tui.data.issuesByKey == byKey
      invariant db.localWorklogs == SaveAll(locals0, SessionWorklogs(s, issues[..i], timePerIssue, byKey, idOf))
      invariant count == |KnownIssues(issues[..i], byKey)|
      invariant wizard0.None? ==> tui.wizard == None
      invariant wizard0.Some? ==>
                  tui.wizard == Some(RecordCreatedWorklogs(wizard0.value, IdsOf(SessionWorklogs(s, issues[..i], timePerIssue, byKey, idOf))))
    {
      count := CreateForIssue(tui, db, s, issues[..i], issues[i], timePerIssue, idOf, locals0, wizard0, count);
      PrefixSnoc(issues, i);
    }
    assert issues[..|issues|] == issues;
  }

  /** One pass of that loop: the issue after `done`. */
  method CreateForIssue(tui: Tui, db: Db, s: GitHubSession, done: seq<string>, issue: string, timePerIssue: int,
                        idOf: (string, int) -> string, ghost locals0: seq<(string, LocalWorklog)>,
                        ghost wizard0: Option<WizardState>, count: nat) returns (countAfter: nat)
    requires db.Valid() && LocalsKeyed(locals0)
    requires db.localWorklogs == SaveAll(locals0, SessionWorklogs(s, done, timePerIssue, tui.data.issuesByKey, idOf))
    requires count == |KnownIssues(done, tui.data.issuesByKey)|
    requires wizard0.None? ==> tui.wizard == None
    requires wizard0.Some? ==>
               tui.wizard == Some(RecordCreatedWorklogs(wizard0.value, IdsOf(SessionWorklogs(s, done, timePerIssue, tui.data.issuesByKey, idOf))))
    modifies db`localWorklogs, tui`wizard
    ensures db.Valid()
    ensures db.localWorklogs == SaveAll(locals0, SessionWorklogs(s, done + [issue], timePerIssue, tui.data.issuesByKey, idOf))
    ensures countAfter == |KnownIssues(done + [issue], tui.data.issuesByKey)|
    ensures wizard0.None? ==> tui.wizard == None
    ensures wizard0.Some? ==>
              tui.wizard == Some(RecordCreatedWorklogs(wizard0.value,
                                   IdsOf(SessionWorklogs(s, done + [issue], timePerIssue, tui.data.issuesByKey, idOf))))
  {
    ghost var made := SessionWorklogs(s, done, timePerIssue, tui.data.issuesByKey, idOf);
    SessionStep(s, done, issue, timePerIssue, tui.data.issuesByKey, idOf);
    countAfter := count;
    if issue in tui.data.issuesByKey {
      CreateSessionWorklog(tui, db, s, issue, timePerIssue, idOf, locals0, wizard0, made);
      countAfter := count + 1;
    } else {
      assert made + [] == made;
    }
  }

  /** What one more issue adds: its worklog at the end when the database knows it, nothing otherwise. */
  lemma SessionStep(s: GitHubSession, done: seq<string>, issue: string, timePerIssue: int, byKey: map<string, Issue>,
                    idOf: (string, int) -> string)
    ensures SessionWorklogs(s, done + [issue], timePerIssue, byKey, idOf)
            == SessionWorklogs(s, done, timePerIssue, byKey, idOf)
               + (if issue in byKey then [SessionWorklog(s, issue, timePerIssue, idOf)] else [])
    ensures |KnownIssues(done + [issue], byKey)| == |KnownIssues(done, byKey)| + (if issue in byKey then 1 else 0)
  {
    var issues := done + [issue];
    var i := |done|;
    assert issues[..i] == done && issues[..i + 1] == issues && issues[i] == issue;
    SessionWorklogsStep(s, issues, timePerIssue, byKey, idOf, i);
    KnownIssuesStep(issues, byKey, i);
  }

  /**
   * One known issue: its worklog is stored after those already `made`,
   * and a running wizard keeps its id after theirs.
   */
  method CreateSessionWorklog(tui: Tui, db: Db, s: GitHubSession, issue: string, timePerIssue: int,
                              idOf: (string, int) -> string, ghost locals0: seq<(string, LocalWorklog)>,
                              ghost wizard0: Option<WizardState>, ghost made: seq<LocalWorklog>)
    requires db.Valid() && LocalsKeyed(locals0)
    requires db.localWorklogs == SaveAll(locals0, made)
    requires wizard0.None? ==> tui.wizard == None
    requires wizard0.Some? ==> tui.wizard == Some(RecordCreatedWorklogs(wizard0.value, IdsOf(made)))
    modifies db`localWorklogs, tui`wizard
    ensures db.Valid()
    ensures db.localWorklogs == SaveAll(locals0, made + [SessionWorklog(s, issue, timePerIssue, idOf)])
    ensures wizard0.None? ==> tui.wizard == None
    ensures wizard0.Some? ==>
              tui.wizard == Some(RecordCreatedWorklogs(wizard0.value, IdsOf(made + [SessionWorklog(s, issue, timePerIssue, idOf)])))
  {
    var w := CreateNewLocalWorklog(db, idOf(issue, s.startTime), s.startTime, timePerIssue, issue, Some(SessionComment(s)), None);
    assert w == SessionWorklog(s, issue, timePerIssue, idOf);
    SaveAllSnoc(locals0, made, w);
    assert IdsOf(made + [w]) == IdsOf(made) + [w.id];
    if tui.wizard.Some? {
      RecordCreatedWorklogsSnoc(wizard0.value, IdsOf(made), w.id);
      tui.wizard := Some(RecordCreatedWorklog(tui.wizard.value, w.id));
    }
  }

  /** What `handle_create_worklog_from_session` decides for the selected session. */
  datatype SessionChoice =
    | NoSessionSelected
    | NoJiraIssues
    | UnknownFirstIssue(issue: string)
    | OverDailyLimit(confirmation: WorklogCreationConfirmation)
    | CreateForIssues(session: GitHubSession, issues: seq<string>, timePerIssue: int)

  /** The session the tab's cursor is on, counting newest first. */
  function SelectedSession(data: TuiData): (r: Option<GitHubSession>)
    ensures r.Some? <==> data.ui.selectedGithubSessionIndex < |data.sessions|
    ensures r.Some? ==> r.value in data.sessions
  {
    var sorted := NewestFirstSort(data.sessions);
    assert |sorted| == |multiset(sorted)| == |data.sessions|;
    if data.ui.selectedGithubSessionIndex < |sorted| then
      assert sorted[data.ui.selectedGithubSessionIndex] in multiset(sorted);
      Some(sorted[data.ui.selectedGithubSessionIndex])
    else None
  }

  /** The local hours already logged on the session's day, as `calculate_daily_total` reads them from the store. */
  function ExistingSeconds(locals: seq<(string, LocalWorklog)>, s: GitHubSession): int {
    DailyTotal(Values(locals), DayOf(s.startTime))
  }

  function ChooseSession(data: TuiData, locals: seq<(string, LocalWorklog)>): (c: SessionChoice)
    ensures c.NoSessionSelected? <==> SelectedSession(data).None?
    ensures c.NoJiraIssues? <==> SelectedSession(data).Some? && SessionJiraIssues(SelectedSession(data).value) == []
    ensures c.UnknownFirstIssue? ==> c.issue == SessionJiraIssues(SelectedSession(data).value)[0] && c.issue !in data.issuesByKey
    ensures c.OverDailyLimit? ==>
              && c.confirmation.existingSeconds + c.confirmation.requestedSeconds > data.dailyLimitSeconds
              && c.confirmation.issueId in data.issuesByKey
              && c.confirmation.userInput == ""
    ensures c.CreateForIssues? ==>
              && c.session == SelectedSession(data).value && c.issues == SessionJiraIssues(c.session)
              && c.issues != [] && c.issues[0] in data.issuesByKey
              && c.timePerIssue == TimePerIssue(c.session.durationSeconds, |c.issues|)
              && ExistingSeconds(locals, c.session) + c.timePerIssue <= data.dailyLimitSeconds
  {
    match SelectedSession(data)
    case None => NoSessionSelected
    case Some(s) =>
      var issues := SessionJiraIssues(s);
      if issues == [] then NoJiraIssues
      else if issues[0] !in data.issuesByKey then UnknownFirstIssue(issues[0])
      else
        var share := TimePerIssue(s.durationSeconds, |issues|);
        var existing := ExistingSeconds(locals, s);
        if existing + share > data.dailyLimitSeconds then
          OverDailyLimit(WorklogCreationConfirmation(FromGitHub(s.id, FirstPart(s.description)), issues[0],
                                                     DayOf(s.startTime), share, existing, data.dailyLimitSeconds, ""))
        else CreateForIssues(s, issues, share)
  }

  /** A session over the limit asks about its first issue, for its share of the time, on its day. */
  lemma OverLimitAsksAboutFirstIssue(data: TuiData, locals: seq<(string, LocalWorklog)>)
    requires ChooseSession(data, locals).OverDailyLimit?
    ensures var s := SelectedSession(data).value;
            var c := ChooseSession(data, locals).confirmation;
            && c.source == FromGitHub(s.id, FirstPart(s.description))
            && c.issueId == SessionJiraIssues(s)[0] && c.date == DayOf(s.startTime)
            && c.requestedSeconds == TimePerIssue(s.durationSeconds, |SessionJiraIssues(s)|)
            && c.existingSeconds == ExistingSeconds(locals, s)
  {
  }

  /**
   * `handle_create_worklog_from_session`: with no session selected, no
   * issues in it or an unknown first issue nothing happens; over the
   * daily limit only the confirmation opens; otherwise the worklogs are
   * created.
   */
  method HandleCreateWorklogFromSession(tui: Tui, db: Db, idOf: (string, int) -> string)
    requires db.Valid()
    modifies db`localWorklogs, tui`wizard, tui`refreshPending, tui`worklogConfirmation
    ensures db.Valid()
    ensures var c := ChooseSession(old(tui.data), old(db.localWorklogs));
            !c.CreateForIssues? && !c.OverDailyLimit? ==>
              && db.localWorklogs == old(db.localWorklogs) && tui.wizard == old(tui.wizard)
              && tui.refreshPending == old(tui.refreshPending) && tui.worklogConfirmation == old(tui.worklogConfirmation)
    ensures var c := ChooseSession(old(tui.data), old(db.localWorklogs));
            c.OverDailyLimit? ==>
              && db.localWorklogs == old(db.localWorklogs) && tui.wizard == old(tui.wizard)
              && tui.refreshPending == old(tui.refreshPending) && tui.worklogConfirmation == Some(c.confirmation)
    ensures var c := ChooseSession(old(tui.data), old(db.localWorklogs));
            c.CreateForIssues? ==>
              && db.localWorklogs == SaveAll(old(db.localWorklogs),
                                             SessionWorklogs(c.session, c.issues, c.timePerIssue, tui.data.issuesByKey, idOf))
              && tui.worklogConfirmation == old(tui.worklogConfirmation)
  {
    var c := ChooseSession(tui.data, db.localWorklogs);
    match c
    case OverDailyLimit(confirmation) =>
      tui.worklogConfirmation := Some(confirmation);
    case CreateForIssues(s, issues, share) =>
      var _ := CreateWorklogsFromSession(tui, db, s, issues, share, idOf);
    case _ =>
  }
}
