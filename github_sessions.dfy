/**
 * How `GitHubService` turns GitHub events into work sessions: the events
 * of each day become one-instant sessions, are sorted by time, and each
 * one that starts less than two hours after the previous session ends is
 * merged into it. A session lasts at least fifteen minutes.
 *
 * A day is the key the program formats as `%Y-%m-%d`; here it is the day
 * number of the event's instant. The md5 id of a saved session is a
 * parameter.
 */
module GitHubSessions {
  import opened Wrappers
  import opened Lex
  import opened Text
  import opened Model
  import opened GitHubClient

  /** Two hours: the longest pause a session absorbs. */
  const MergeGap: int := 2 * 3600
  /** Fifteen minutes: the shortest session duration. */
  const MinimumSessionSeconds: int := 15 * 60

  /** The `%Y-%m-%d` key of a day: one key per day number. */
  datatype DateKey = DateKey(day: int)

  function DateKeyOf(t: int): DateKey {
    DateKey(DayOf(t))
  }

  /** The session under construction (`TempSession`). */
  datatype TempSession = TempSession(
    startTime: int, endTime: int, eventType: string, repo: string,
    jiraIssues: seq<string>, description: string, eventId: string, eventIds: seq<string>)

  /** `get_event_description_from_api`, the description a session starts from. */
  function ApiDescription(e: ApiEvent): (r: string)
    ensures e.eventType == "PushEvent" && e.payload.commits.None? ==> r == "Code push"
    ensures !IsDescribedType(e.eventType) && e.eventType !in {"PullRequestReviewCommentEvent", "CreateEvent", "DeleteEvent"} ==>
              r == e.eventType
  {
    var p := e.payload;
    match e.eventType
    case "PushEvent" =>
      if p.commits.Some? then
        var commits := p.commits.value;
        if |commits| == 1 && commits[0].Some? then "Pushed: " + FirstLine(commits[0].value).UnwrapOr("")
        else "Pushed " + NatToString(|commits|) + " commits"
      else "Code push"
    case "PullRequestEvent" =>
      if p.action.Some? then
        if p.prTitle.Some? then "PR " + p.action.value + ": " + p.prTitle.value else "PR " + p.action.value
      else "Pull request activity"
    case "PullRequestReviewEvent" => "PR review"
    case "PullRequestReviewCommentEvent" => "PR review"
    case "IssuesEvent" =>
      if p.action.Some? then "Issue " + p.action.value else "Issue activity"
    case "IssueCommentEvent" => "Issue comment"
    case "CreateEvent" =>
      if p.refType.Some? then "Branch/tag " + p.refType.value else e.eventType
    case "DeleteEvent" =>
      if p.refType.Some? then "Branch/tag " + p.refType.value else e.eventType
    case _ => e.eventType
  }

  /** `TempSession::new` for an event whose issues were extracted as `issues`. */
  function NewTemp(e: ApiEvent, issues: seq<string>): (t: TempSession)
    ensures t.startTime == t.endTime == e.createdAt && t.eventIds == [t.eventId] && t.eventId == e.id
  {
    TempSession(e.createdAt, e.createdAt, e.eventType, e.repoName, issues, ApiDescription(e), e.id, [e.id])
  }

  function TempOf(e: ApiEvent): TempSession {
    NewTemp(e, EventIssues(e))
  }

  /** A one-event session, before any merge. */
  predicate Single(t: TempSession) {
    t.startTime == t.endTime && t.eventIds == [t.eventId] && StrictlySorted(t.jiraIssues)
  }

  /** The sessions of one day's events, in event order. */
  function DayTemps(es: seq<ApiEvent>, d: DateKey): (ts: seq<TempSession>)
    ensures forall t :: t in ts ==> Single(t)
    decreases |es|
  {
    if |es| == 0 then []
    else
      var n := |es| - 1;
      DayTemps(es[..n], d) + (if DateKeyOf(es[n].createdAt) == d then [TempOf(es[n])] else [])
  }

  // ---------------------------------------------------------------------
  // Sorting by start
  // ---------------------------------------------------------------------

  predicate StartsAscending(ts: seq<TempSession>) {
    forall i, j :: 0 <= i < j < |ts| ==> ts[i].startTime <= ts[j].startTime
  }

  /** Puts `t` after every session that does not start later, so equal starts keep their order. */
  function InsertByStart(sorted: seq<TempSession>, t: TempSession): (r: seq<TempSession>)
    requires StartsAscending(sorted)
    ensures StartsAscending(r)
    ensures multiset(r) == multiset(sorted) + multiset{t}
    decreases |sorted|
  {
    if |sorted| == 0 then [t]
    else
      var n := |sorted| - 1;
      var last := sorted[n];
      if t.startTime < last.startTime then
        var front := InsertByStart(sorted[..n], t);
        InsertBeforeLast(sorted, t, front);
        front + [last]
      else
        AppendAfterLast(sorted, t);
        sorted + [t]
  }

  /** A session starting before the last one goes in front of it. */
  lemma InsertBeforeLast(sorted: seq<TempSession>, t: TempSession, front: seq<TempSession>)
    requires |sorted| > 0 && StartsAscending(sorted) && t.startTime < sorted[|sorted| - 1].startTime
    requires StartsAscending(front) && multiset(front) == multiset(sorted[..|sorted| - 1]) + multiset{t}
    ensures StartsAscending(front + [sorted[|sorted| - 1]])
    ensures multiset(front + [sorted[|sorted| - 1]]) == multiset(sorted) + multiset{t}
  {
    var n := |sorted| - 1;
    var last := sorted[n];
    assert sorted == sorted[..n] + [last];
    forall x | x in front ensures x.startTime <= last.startTime {
      assert x in multiset(front);
      if x != t {
        assert x in multiset(sorted[..n]);
        var i :| 0 <= i < n && sorted[..n][i] == x;
        assert sorted[i] == x;
      }
    }
    var r := front + [last];
    forall i, j | 0 <= i < j < |r| ensures r[i].startTime <= r[j].startTime {
      if j == |front| {
        assert r[i] in front;
      } else {
        assert r[i] == front[i] && r[j] == front[j];
      }
    }
  }

  /** A session starting no earlier than the last one goes at the end. */
  lemma AppendAfterLast(sorted: seq<TempSession>, t: TempSession)
    requires |sorted| > 0 && StartsAscending(sorted) && t.startTime >= sorted[|sorted| - 1].startTime
    ensures StartsAscending(sorted + [t])
  {
    var r := sorted + [t];
    forall i, j | 0 <= i < j < |r| ensures r[i].startTime <= r[j].startTime {
      if j == |sorted| {
        assert r[i] == sorted[i];
        assert sorted[i].startTime <= sorted[|sorted| - 1].startTime;
      } else {
        assert r[i] == sorted[i] && r[j] == sorted[j];
      }
    }
  }

  /** `sort_by` on the start time: a stable sort. */
  function SortByStart(ts: seq<TempSession>): (r: seq<TempSession>)
    ensures StartsAscending(r)
    ensures multiset(r) == multiset(ts)
    decreases |ts|
  {
    if |ts| == 0 then []
    else
      var n := |ts| - 1;
      assert ts == ts[..n] + [ts[n]];
      InsertByStart(SortByStart(ts[..n]), ts[n])
  }

  /** Sorting keeps the sessions it sorts. */
  lemma SortedMembers(ts: seq<TempSession>, t: TempSession)
    ensures t in SortByStart(ts) <==> t in ts
  {
    assert t in SortByStart(ts) <==> t in multiset(SortByStart(ts));
    assert t in ts <==> t in multiset(ts);
  }

  // ---------------------------------------------------------------------
  // Merging
  // ---------------------------------------------------------------------

  /**
   * `last` absorbing `s`: it now ends where `s` ends, its issues are the
   * sorted, de-duplicated union, `s`'s event is recorded, and a non-empty
   * description of `s` is appended after "; ".
   */
  function Absorb(last: TempSession, s: TempSession): (r: TempSession)
    ensures r.startTime == last.startTime && r.endTime == s.endTime && r.repo == last.repo
    ensures StrictlySorted(r.jiraIssues) && forall k :: k in r.jiraIssues <==> k in last.jiraIssues || k in s.jiraIssues
    ensures r.eventIds == last.eventIds + [s.eventId]
    ensures r.description == if s.description == "" then last.description else last.description + "; " + s.description
  {
    last.(endTime := s.endTime,
          jiraIssues := SortDedup(last.jiraIssues + s.jiraIssues),
          eventIds := last.eventIds + [s.eventId],
          description := if s.description == "" then last.description else last.description + "; " + s.description)
  }

  /** Whether `s` is merged into a session ending at `lastEnd`. */
  predicate Joins(lastEnd: int, s: TempSession) {
    s.startTime - lastEnd < MergeGap
  }

  /** One turn of the merge loop: `s` is absorbed by the last session, or appended after it. */
  function Step(prev: seq<TempSession>, s: TempSession): (r: seq<TempSession>)
    ensures 0 < |r| <= |prev| + 1 && r[|r| - 1].endTime == s.endTime
  {
    if |prev| > 0 && Joins(prev[|prev| - 1].endTime, s) then prev[..|prev| - 1] + [Absorb(prev[|prev| - 1], s)]
    else prev + [s]
  }

  /** The merged sessions of a sorted day, one step per session. */
  function Merged(ts: seq<TempSession>): (m: seq<TempSession>)
    ensures |m| <= |ts| && (|m| == 0 <==> |ts| == 0)
    decreases |ts|
  {
    if |ts| == 0 then [] else Step(Merged(ts[..|ts| - 1]), ts[|ts| - 1])
  }

  /** The drain loop of the merge, `last_mut()` being the last merged session. */
  method MergeSessions(ts: seq<TempSession>) returns (merged: seq<TempSession>)
    ensures merged == Merged(ts)
  {
    merged := [];
    for i := 0 to |ts|
      invariant merged == Merged(ts[..i])
    {
      var s := ts[i];
      ghost var before := merged;
      if |merged| > 0 && s.startTime - merged[|merged| - 1].endTime < MergeGap {
        merged := merged[..|merged| - 1] + [Absorb(merged[|merged| - 1], s)];
      } else {
        merged := merged + [s];
      }
      assert merged == Step(before, s);
      MergedSnoc(ts, i);
    }
    assert ts[..|ts|] == ts;
  }

  lemma MergedSnoc(ts: seq<TempSession>, i: nat)
    requires i < |ts|
    ensures Merged(ts[..i + 1]) == Step(Merged(ts[..i]), ts[i])
  {
    assert ts[..i + 1][..i] == ts[..i];
  }

  /** The last merged session ends where the last session ends. */
  lemma MergedLastEnd(ts: seq<TempSession>)
    requires |ts| > 0
    ensures Merged(ts)[|Merged(ts)| - 1].endTime == ts[|ts| - 1].endTime
  {
  }

  /** Consecutive sessions at least two hours apart. */
  predicate Gaps(m: seq<TempSession>) {
    forall k :: 0 <= k < |m| - 1 ==> m[k + 1].startTime - m[k].endTime >= MergeGap
  }

  lemma StepGaps(prev: seq<TempSession>, s: TempSession)
    requires Gaps(prev)
    ensures Gaps(Step(prev, s))
  {
    var r := Step(prev, s);
    if |prev| > 0 && Joins(prev[|prev| - 1].endTime, s) {
      assert forall k :: 0 <= k < |r| ==> r[k].startTime == prev[k].startTime;
      assert forall k :: 0 <= k < |r| - 1 ==> r[k].endTime == prev[k].endTime;
    } else {
      assert forall k :: 0 <= k < |prev| ==> r[k] == prev[k];
    }
  }

  /** After merging, consecutive sessions are at least two hours apart. */
  lemma {:induction false} MergedGaps(ts: seq<TempSession>)
    ensures Gaps(Merged(ts))
    decreases |ts|
  {
    if |ts| > 0 {
      MergedGaps(ts[..|ts| - 1]);
      StepGaps(Merged(ts[..|ts| - 1]), ts[|ts| - 1]);
    }
  }

  /** On sorted sessions, the last merged session starts no later than the last session. */
  lemma MergedLastStart(ts: seq<TempSession>)
    requires |ts| > 0 && StartsAscending(ts)
    ensures Merged(ts)[|Merged(ts)| - 1].startTime <= ts[|ts| - 1].startTime
  {
    var j := MergedLastFrom(ts);
    if j < |ts| - 1 {
      assert ts[j].startTime <= ts[|ts| - 1].startTime;
    }
  }

  /** The last merged session starts where one of the sessions starts. */
  lemma {:induction false} MergedLastFrom(ts: seq<TempSession>) returns (j: nat)
    requires |ts| > 0
    ensures j < |ts| && Merged(ts)[|Merged(ts)| - 1].startTime == ts[j].startTime
    decreases |ts|
  {
    var n := |ts| - 1;
    var prev := Merged(ts[..n]);
    MergedUnfold(ts);
    if n > 0 && Joins(prev[|prev| - 1].endTime, ts[n]) {
      j := MergedLastFrom(ts[..n]);
      assert ts[..n][j] == ts[j];
    } else {
      j := n;
    }
  }

  lemma MergedUnfold(ts: seq<TempSession>)
    requires |ts| > 0
    ensures Merged(ts) == Step(Merged(ts[..|ts| - 1]), ts[|ts| - 1])
  {
  }

  /** A prefix of start-sorted sessions is start-sorted. */
  lemma StartsPrefix(ts: seq<TempSession>, n: nat)
    requires StartsAscending(ts) && n <= |ts|
    ensures StartsAscending(ts[..n])
  {
    forall i, j | 0 <= i < j < n ensures ts[..n][i].startTime <= ts[..n][j].startTime {
      assert ts[..n][i] == ts[i] && ts[..n][j] == ts[j];
    }
  }

  predicate Ordered(t: TempSession) {
    t.startTime <= t.endTime
  }

  lemma StepOrdered(prev: seq<TempSession>, s: TempSession)
    requires forall t :: t in prev ==> Ordered(t)
    requires Ordered(s) && (|prev| > 0 ==> prev[|prev| - 1].startTime <= s.startTime)
    ensures forall t :: t in Step(prev, s) ==> Ordered(t)
  {
    if |prev| > 0 && Joins(prev[|prev| - 1].endTime, s) {
      var front := prev[..|prev| - 1];
      assert forall t :: t in front ==> t in prev;
      assert prev[|prev| - 1] in prev;
    }
  }

  /** Sorted sessions that each start before they end merge into sessions that do too. */
  lemma {:induction false} MergedOrdered(ts: seq<TempSession>)
    requires StartsAscending(ts) && forall t :: t in ts ==> Ordered(t)
    ensures forall t :: t in Merged(ts) ==> Ordered(t)
    decreases |ts|
  {
    if |ts| > 0 {
      var n := |ts| - 1;
      var init, s := ts[..n], ts[n];
      assert ts == init + [s];
      StartsPrefix(ts, n);
      MergedOrdered(init);
      if n > 0 {
        MergedLastStart(init);
        assert init[n - 1].startTime <= s.startTime;
      }
      StepOrdered(Merged(init), s);
      assert Merged(ts) == Step(Merged(init), s);
    }
  }

  lemma StepIssuesSorted(prev: seq<TempSession>, s: TempSession)
    requires forall t :: t in prev ==> StrictlySorted(t.jiraIssues)
    requires StrictlySorted(s.jiraIssues)
    ensures forall t :: t in Step(prev, s) ==> StrictlySorted(t.jiraIssues)
  {
    if |prev| > 0 && Joins(prev[|prev| - 1].endTime, s) {
      var front := prev[..|prev| - 1];
      assert forall t :: t in front ==> t in prev;
    }
  }

  /** Every merged session keeps its issues sorted and free of duplicates. */
  lemma {:induction false} MergedIssuesSorted(ts: seq<TempSession>)
    requires forall t :: t in ts ==> StrictlySorted(t.jiraIssues)
    ensures forall t :: t in Merged(ts) ==> StrictlySorted(t.jiraIssues)
    decreases |ts|
  {
    if |ts| > 0 {
      var n := |ts| - 1;
      assert forall t :: t in ts[..n] ==> t in ts;
      MergedIssuesSorted(ts[..n]);
      assert ts[n] in ts;
      StepIssuesSorted(Merged(ts[..n]), ts[n]);
    }
  }

  /** The event ids of some sessions, session after session. */
  function AllEventIds(ts: seq<TempSession>): seq<string>
    decreases |ts|
  {
    if |ts| == 0 then [] else AllEventIds(ts[..|ts| - 1]) + ts[|ts| - 1].eventIds
  }

  lemma AllEventIdsSnoc(ts: seq<TempSession>, t: TempSession)
    ensures AllEventIds(ts + [t]) == AllEventIds(ts) + t.eventIds
  {
    assert (ts + [t])[..|ts|] == ts;
  }

  lemma StepEventIds(prev: seq<TempSession>, s: TempSession)
    requires s.eventIds == [s.eventId]
    ensures AllEventIds(Step(prev, s)) == AllEventIds(prev) + s.eventIds
  {
    if |prev| > 0 && Joins(prev[|prev| - 1].endTime, s) {
      var front, last := prev[..|prev| - 1], prev[|prev| - 1];
      assert prev == front + [last];
      AllEventIdsSnoc(front, last);
      AllEventIdsSnoc(front, Absorb(last, s));
    } else {
      AllEventIdsSnoc(prev, s);
    }
  }

  /** Merging one-event sessions loses and reorders no event: the ids come out in input order. */
  lemma {:induction false} MergedEventIds(ts: seq<TempSession>)
    requires forall t :: t in ts ==> t.eventIds == [t.eventId]
    ensures AllEventIds(Merged(ts)) == AllEventIds(ts)
    decreases |ts|
  {
    if |ts| > 0 {
      var n := |ts| - 1;
      assert forall t :: t in ts[..n] ==> t in ts;
      MergedEventIds(ts[..n]);
      assert ts[n] in ts;
      StepEventIds(Merged(ts[..n]), ts[n]);
    }
  }

  /** The issues of one session, as a set. */
  function IssueSet(t: TempSession): (r: set<string>)
    ensures forall k :: k in r <==> k in t.jiraIssues
  {
    set k | k in t.jiraIssues
  }

  /** Every issue some session mentions. */
  function AllIssues(ts: seq<TempSession>): set<string>
    decreases |ts|
  {
    if |ts| == 0 then {} else AllIssues(ts[..|ts| - 1]) + IssueSet(ts[|ts| - 1])
  }

  lemma AllIssuesSnoc(ts: seq<TempSession>, t: TempSession)
    ensures AllIssues(ts + [t]) == AllIssues(ts) + IssueSet(t)
  {
    assert (ts + [t])[..|ts|] == ts;
  }

  lemma StepIssues(prev: seq<TempSession>, s: TempSession)
    ensures AllIssues(Step(prev, s)) == AllIssues(prev) + IssueSet(s)
  {
    if |prev| > 0 && Joins(prev[|prev| - 1].endTime, s) {
      var front, last := prev[..|prev| - 1], prev[|prev| - 1];
      assert prev == front + [last];
      AllIssuesSnoc(front, last);
      AllIssuesSnoc(front, Absorb(last, s));
      assert IssueSet(Absorb(last, s)) == IssueSet(last) + IssueSet(s);
    } else {
      AllIssuesSnoc(prev, s);
    }
  }

  /** Merging loses no issue and adds none. */
  lemma {:induction false} MergedIssues(ts: seq<TempSession>)
    ensures AllIssues(Merged(ts)) == AllIssues(ts)
    decreases |ts|
  {
    if |ts| > 0 {
      MergedIssues(ts[..|ts| - 1]);
      StepIssues(Merged(ts[..|ts| - 1]), ts[|ts| - 1]);
    }
  }

  // ---------------------------------------------------------------------
  // Days
  // ---------------------------------------------------------------------

  /** The merged sessions of one day. */
  function DaySessions(es: seq<ApiEvent>, d: DateKey): seq<TempSession> {
    Merged(SortByStart(DayTemps(es, d)))
  }

  /** A day's sessions are two hours apart, start before they end, and keep their issues sorted. */
  lemma DaySessionsShape(es: seq<ApiEvent>, d: DateKey)
    ensures Gaps(DaySessions(es, d))
    ensures forall t :: t in DaySessions(es, d) ==> Ordered(t) && StrictlySorted(t.jiraIssues)
  {
    var sorted := SortByStart(DayTemps(es, d));
    forall t | t in sorted ensures Single(t) {
      SortedMembers(DayTemps(es, d), t);
    }
    MergedGaps(sorted);
    MergedOrdered(sorted);
    MergedIssuesSorted(sorted);
  }

  /**
   * The grouping loop: each event's session is pushed onto its day's
   * list. A day is a key exactly when some event falls on it.
   */
  method GroupByDay(es: seq<ApiEvent>) returns (byDay: map<DateKey, seq<TempSession>>)
    ensures forall d :: d in byDay <==> DayTemps(es, d) != []
    ensures forall d :: d in byDay ==> byDay[d] == DayTemps(es, d)
  {
    byDay := map[];
    for i := 0 to |es|
      invariant Grouped(byDay, es[..i])
    {
      byDay := GroupEvent(es[..i], es[i], byDay);
      PrefixSnoc(es, i);
    }
    assert es[..|es|] == es;
  }

  /** The map holds, for each day with events, that day's sessions in event order. */
  ghost predicate Grouped(byDay: map<DateKey, seq<TempSession>>, es: seq<ApiEvent>) {
    (forall d :: d in byDay <==> DayTemps(es, d) != [])
    && forall d :: d in byDay ==> byDay[d] == DayTemps(es, d)
  }

  /** One pass of that loop: the event after `done` joins its day. */
  method GroupEvent(done: seq<ApiEvent>, e: ApiEvent, byDay: map<DateKey, seq<TempSession>>)
    returns (byDayAfter: map<DateKey, seq<TempSession>>)
    requires Grouped(byDay, done)
    ensures Grouped(byDayAfter, done + [e])
  {
    var issues := ExtractJiraIssues(e);
    var t := NewTemp(e, issues);
    var day := DateKeyOf(e.createdAt);
    byDayAfter := byDay[day := (if day in byDay then byDay[day] else []) + [t]];
    forall d ensures DayTemps(done + [e], d) == DayTemps(done, d) + (if day == d then [t] else []) {
      DayTempsSnoc(done, e, d);
    }
  }

  lemma DayTempsSnoc(done: seq<ApiEvent>, e: ApiEvent, d: DateKey)
    ensures DayTemps(done + [e], d) == DayTemps(done, d) + (if DateKeyOf(e.createdAt) == d then [TempOf(e)] else [])
  {
    assert (done + [e])[..|done|] == done;
  }

  // ---------------------------------------------------------------------
  // Saved sessions
  // ---------------------------------------------------------------------

  /** `duration_seconds`: the session's length, but never under fifteen minutes. */
  function DurationSeconds(startTime: int, endTime: int): (r: int)
    ensures r >= MinimumSessionSeconds
    ensures r == endTime - startTime || (r == MinimumSessionSeconds && endTime - startTime < MinimumSessionSeconds)
  {
    if endTime - startTime > MinimumSessionSeconds then endTime - startTime else MinimumSessionSeconds
  }

  /** The record saved for a merged session, its id derived from repository, start and end. */
  function SessionRecord(t: TempSession, idOf: (string, int, int) -> string): (s: GitHubSession)
    ensures s.durationSeconds >= MinimumSessionSeconds && s.startTime == t.startTime && s.endTime == t.endTime
  {
    NewSession(idOf(t.repo, t.startTime, t.endTime), t.startTime, t.endTime, DurationSeconds(t.startTime, t.endTime),
               t.repo, t.description, t.jiraIssues, t.eventIds)
  }

  function SessionRecords(ts: seq<TempSession>, idOf: (string, int, int) -> string): (r: seq<GitHubSession>)
    ensures |r| == |ts| && forall i :: 0 <= i < |ts| ==> r[i] == SessionRecord(ts[i], idOf)
  {
    seq(|ts|, i requires 0 <= i < |ts| => SessionRecord(ts[i], idOf))
  }

  /** The records saved for some days, day after day. */
  function SavedFor(es: seq<ApiEvent>, days: seq<DateKey>, idOf: (string, int, int) -> string): seq<GitHubSession>
    decreases |days|
  {
    if |days| == 0 then []
    else SavedFor(es, days[..|days| - 1], idOf) + SessionRecords(DaySessions(es, days[|days| - 1]), idOf)
  }

  /** No saved session is shorter than fifteen minutes. */
  lemma {:induction false} SavedDurations(es: seq<ApiEvent>, days: seq<DateKey>, idOf: (string, int, int) -> string)
    ensures forall s :: s in SavedFor(es, days, idOf) ==> s.durationSeconds >= MinimumSessionSeconds
    decreases |days|
  {
    if |days| > 0 {
      SavedDurations(es, days[..|days| - 1], idOf);
    }
  }

  predicate Distinct(days: seq<DateKey>) {
    forall i, j :: 0 <= i < j < |days| ==> days[i] != days[j]
  }

  /**
   * `calculate_and_save_sessions`: the days are visited in the map's
   * order, which the program does not fix (`days` records the one taken);
   * every day with events is visited once, and its merged sessions are
   * saved in order. The count returned is the number saved.
   */
  method CalculateAndSaveSessions(es: seq<ApiEvent>, idOf: (string, int, int) -> string)
    returns (saved: seq<GitHubSession>, count: nat, ghost days: seq<DateKey>)
    ensures forall d :: d in days <==> DayTemps(es, d) != []
    ensures Distinct(days)
    ensures saved == SavedFor(es, days, idOf) && count == |saved|
  {
    var byDay := GroupByDay(es);
    var remaining := byDay.Keys;
    saved, days := [], [];
    while remaining != {}
      invariant remaining <= byDay.Keys
      invariant forall d :: d in days <==> d in byDay && d !in remaining
      invariant Distinct(days)
      invariant saved == SavedFor(es, days, idOf)
      decreases |remaining|
    {
      var d :| d in remaining;
      saved := SaveDay(es, byDay[d], d, days, saved, idOf);
      DistinctSnoc(days, d);
      days := days + [d];
      remaining := remaining - {d};
    }
    count := |saved|;
  }

  /** One day of that loop: its merged sessions saved after those of the days before. */
  method SaveDay(es: seq<ApiEvent>, temps: seq<TempSession>, d: DateKey, ghost days: seq<DateKey>,
                 saved: seq<GitHubSession>, idOf: (string, int, int) -> string) returns (savedAfter: seq<GitHubSession>)
    requires temps == DayTemps(es, d) && saved == SavedFor(es, days, idOf)
    ensures savedAfter == SavedFor(es, days + [d], idOf)
  {
    var merged := MergeSessions(SortByStart(temps));
    var records := SaveMerged(merged, idOf);
    SavedForSnoc(es, days, d, idOf);
    savedAfter := saved + records;
  }

  lemma SavedForSnoc(es: seq<ApiEvent>, days: seq<DateKey>, d: DateKey, idOf: (string, int, int) -> string)
    ensures SavedFor(es, days + [d], idOf) == SavedFor(es, days, idOf) + SessionRecords(DaySessions(es, d), idOf)
  {
    assert (days + [d])[..|days|] == days;
  }

  lemma DistinctSnoc(days: seq<DateKey>, d: DateKey)
    requires Distinct(days) && d !in days
    ensures Distinct(days + [d])
  {
    var r := days + [d];
    forall i, j | 0 <= i < j < |r| ensures r[i] != r[j] {
      assert r[i] == days[i];
      if j < |days| {
        assert r[j] == days[j];
      }
    }
  }

  /** The saving loop of one day: one `GitHubSession::new` per merged session. */
  method SaveMerged(merged: seq<TempSession>, idOf: (string, int, int) -> string) returns (records: seq<GitHubSession>)
    ensures records == SessionRecords(merged, idOf)
  {
    records := [];
    for i := 0 to |merged|
      invariant records == SessionRecords(merged[..i], idOf)
    {
      records := records + [SessionRecord(merged[i], idOf)];
    }
    assert merged[..|merged|] == merged;
  }

  // ---------------------------------------------------------------------
  // Work sessions
  // ---------------------------------------------------------------------

  /** `WorkSession`: a merged session without its event ids. */
  datatype WorkSession = WorkSession(
    startTime: int, endTime: int, eventType: string, repo: string, jiraIssues: seq<string>, description: string)

  function WorkSessionOf(t: TempSession): WorkSession {
    WorkSession(t.startTime, t.endTime, t.eventType, t.repo, t.jiraIssues, t.description)
  }

  function WorkSessions(ts: seq<TempSession>): (r: seq<WorkSession>)
    ensures |r| == |ts| && forall i :: 0 <= i < |ts| ==> r[i] == WorkSessionOf(ts[i])
  {
    seq(|ts|, i requires 0 <= i < |ts| => WorkSessionOf(ts[i]))
  }

  /** `WorkSession::duration_seconds`. */
  function WorkDuration(w: WorkSession): (r: int)
    ensures r >= MinimumSessionSeconds
  {
    DurationSeconds(w.startTime, w.endTime)
  }

  /** `primary_jira_issue`: the first issue, which is the least of a sorted list. */
  function PrimaryJiraIssue(w: WorkSession): (r: Option<string>)
    ensures r.Some? <==> |w.jiraIssues| > 0
    ensures StrictlySorted(w.jiraIssues) && r.Some? ==> forall k :: k in w.jiraIssues && k != r.value ==> Less(r.value, k)
  {
    if |w.jiraIssues| > 0 then Some(w.jiraIssues[0]) else None
  }

  /**
   * `calculate_work_sessions`: for every day with events, its merged
   * sessions in start order.
   */
  method CalculateWorkSessions(es: seq<ApiEvent>) returns (byDay: map<DateKey, seq<WorkSession>>)
    ensures forall d :: d in byDay <==> DayTemps(es, d) != []
    ensures forall d :: d in byDay ==> byDay[d] == WorkSessions(DaySessions(es, d))
  {
    var grouped := GroupByDay(es);
    var remaining := grouped.Keys;
    byDay := map[];
    while remaining != {}
      invariant remaining <= grouped.Keys
      invariant forall d :: d in byDay <==> d in grouped && d !in remaining
      invariant forall d :: d in byDay ==> byDay[d] == WorkSessions(DaySessions(es, d))
      decreases |remaining|
    {
      var d :| d in remaining;
      var merged := MergeSessions(SortByStart(grouped[d]));
      byDay := byDay[d := WorkSessions(merged)];
      remaining := remaining - {d};
    }
  }
}
