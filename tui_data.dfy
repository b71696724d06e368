/**
 * The figures the terminal interface derives from the stored data: the
 * meetings still to link, the meetings and sessions inside the sprints,
 * and the per-day activity of a sprint and of the year-long worklog wall.
 *
 * A day's activity counts every Jira worklog of that day and every local
 * worklog that Jira does not already hold (its `worklog_id` is not a Jira
 * worklog id). A weekday inside an absence is flagged and, when nothing
 * is recorded on it, counts as seven hours. Hours are whole seconds here.
 */
module TuiData {
  import opened Wrappers
  import opened Model

  /** Seven hours: what an absence day counts when nothing is logged. */
  const AbsenceSeconds: int := 7 * 3600

  // ---------------------------------------------------------------------
  // Meetings and sessions in the sprints
  // ---------------------------------------------------------------------

  /** `calculate_meeting_stats`: the meetings without a Jira link. */
  function Pending(ms: seq<Meeting>): (n: nat)
    ensures n <= |ms|
    decreases |ms|
  {
    if |ms| == 0 then 0 else Pending(ms[..|ms| - 1]) + (if ms[|ms| - 1].jiraLink.None? then 1 else 0)
  }

  /** No meeting is pending exactly when every meeting is linked. */
  lemma {:induction false} PendingZeroIff(ms: seq<Meeting>)
    ensures Pending(ms) == 0 <==> forall i :: 0 <= i < |ms| ==> ms[i].jiraLink.Some?
    decreases |ms|
  {
    if |ms| > 0 {
      var n := |ms| - 1;
      PendingZeroIff(ms[..n]);
      assert forall i :: 0 <= i < n ==> ms[..n][i] == ms[i];
    }
  }

  /** Whether an instant lies within some sprint that has both dates, both ends included. */
  predicate InSomeSprint(t: int, sprints: seq<Sprint>) {
    exists i :: 0 <= i < |sprints| && sprints[i].start.Some? && sprints[i].end.Some?
                && sprints[i].start.value <= t <= sprints[i].end.value
  }

  /** `get_meetings_for_sprints`: the meetings that start within a dated sprint, in order. */
  function MeetingsForSprints(ms: seq<Meeting>, sprints: seq<Sprint>): (r: seq<Meeting>)
    ensures |r| <= |ms|
    ensures forall m :: m in r <==> m in ms && InSomeSprint(m.start, sprints)
    decreases |ms|
  {
    if |ms| == 0 then []
    else
      var n := |ms| - 1;
      assert ms == ms[..n] + [ms[n]];
      MeetingsForSprints(ms[..n], sprints) + (if InSomeSprint(ms[n].start, sprints) then [ms[n]] else [])
  }

  /** `get_github_sessions_for_sprints`: the sessions that start within a dated sprint, in order. */
  function SessionsForSprints(ss: seq<GitHubSession>, sprints: seq<Sprint>): (r: seq<GitHubSession>)
    ensures |r| <= |ss|
    ensures forall s :: s in r <==> s in ss && InSomeSprint(s.startTime, sprints)
    decreases |ss|
  {
    if |ss| == 0 then []
    else
      var n := |ss| - 1;
      assert ss == ss[..n] + [ss[n]];
      SessionsForSprints(ss[..n], sprints) + (if InSomeSprint(ss[n].startTime, sprints) then [ss[n]] else [])
  }

  /** Without a dated sprint, nothing is kept. */
  lemma {:induction false} NoDatedSprintKeepsNothing(ms: seq<Meeting>, sprints: seq<Sprint>)
    requires forall i :: 0 <= i < |sprints| ==> sprints[i].start.None? || sprints[i].end.None?
    ensures MeetingsForSprints(ms, sprints) == []
    decreases |ms|
  {
    if |ms| > 0 {
      NoDatedSprintKeepsNothing(ms[..|ms| - 1], sprints);
      assert !InSomeSprint(ms[|ms| - 1].start, sprints);
    }
  }

  // ---------------------------------------------------------------------
  // The activity of a day
  // ---------------------------------------------------------------------

  datatype DayActivity = DayActivity(date: int, seconds: int, isAbsence: bool)

  /** The ids of the Jira worklogs. */
  function JiraIds(jira: seq<JiraWorklog>): set<string> {
    set w | w in jira :: w.id
  }

  /** A local worklog is counted unless Jira holds it already. */
  predicate Counted(l: LocalWorklog, ids: set<string>) {
    !(l.worklogId.Some? && l.worklogId.value in ids)
  }

  /** Whether some Jira worklog falls on day `d`. */
  predicate HasJira(ws: seq<JiraWorklog>, d: int)
    decreases |ws|
  {
    |ws| > 0 && (HasJira(ws[..|ws| - 1], d) || DayOf(ws[|ws| - 1].started) == d)
  }

  /** The seconds of the Jira worklogs of day `d`. */
  function JiraSeconds(ws: seq<JiraWorklog>, d: int): int
    decreases |ws|
  {
    if |ws| == 0 then 0
    else JiraSeconds(ws[..|ws| - 1], d) + (if DayOf(ws[|ws| - 1].started) == d then ws[|ws| - 1].timeSpentSeconds else 0)
  }

  /** Whether some counted local worklog falls on day `d`. */
  predicate HasLocal(ls: seq<LocalWorklog>, ids: set<string>, d: int)
    decreases |ls|
  {
    |ls| > 0 && (HasLocal(ls[..|ls| - 1], ids, d) || (DayOf(ls[|ls| - 1].started) == d && Counted(ls[|ls| - 1], ids)))
  }

  /** The seconds of the counted local worklogs of day `d`. */
  function LocalSeconds(ls: seq<LocalWorklog>, ids: set<string>, d: int): int
    decreases |ls|
  {
    if |ls| == 0 then 0
    else
      var l := ls[|ls| - 1];
      LocalSeconds(ls[..|ls| - 1], ids, d) + (if DayOf(l.started) == d && Counted(l, ids) then l.timeSpentSeconds else 0)
  }

  /** Whether some absence covers day `d`. */
  predicate Covered(as_: seq<Absence>, d: int)
    decreases |as_|
  {
    |as_| > 0 && (Covered(as_[..|as_| - 1], d) || DayOf(as_[|as_| - 1].start) <= d <= DayOf(as_[|as_| - 1].end))
  }

  predicate InRange(d: int, lo: int, hi: int) { lo <= d <= hi }

  /** A weekday of the range that an absence covers. */
  predicate Absent(d: int, lo: int, hi: int, absences: seq<Absence>) {
    InRange(d, lo, hi) && !IsWeekend(d) && Covered(absences, d)
  }

  predicate Recorded(d: int, jira: seq<JiraWorklog>, locals: seq<LocalWorklog>) {
    HasJira(jira, d) || HasLocal(locals, JiraIds(jira), d)
  }

  /**
   * What a day of the range shows: the recorded seconds when something is
   * recorded, seven hours for an absence day with nothing recorded, and
   * nothing otherwise; it is flagged when it is an absence day.
   */
  function ExpectedDay(d: int, lo: int, hi: int, jira: seq<JiraWorklog>, locals: seq<LocalWorklog>, absences: seq<Absence>): DayActivity {
    var absent := Absent(d, lo, hi, absences);
    var seconds :=
      if Recorded(d, jira, locals) then JiraSeconds(jira, d) + LocalSeconds(locals, JiraIds(jira), d)
      else if absent then AbsenceSeconds
      else 0;
    DayActivity(d, seconds, absent)
  }

  function Days(lo: int, hi: int): nat {
    if lo <= hi then hi - lo + 1 else 0
  }

  function GetOr(m: map<int, int>, d: int): int {
    if d in m then m[d] else 0
  }

  lemma JiraStep(ws: seq<JiraWorklog>, i: nat)
    requires i < |ws|
    ensures forall d :: HasJira(ws[..i + 1], d) <==> HasJira(ws[..i], d) || DayOf(ws[i].started) == d
    ensures forall d :: JiraSeconds(ws[..i + 1], d)
                        == JiraSeconds(ws[..i], d) + (if DayOf(ws[i].started) == d then ws[i].timeSpentSeconds else 0)
  {
    var s := ws[..i + 1];
    assert |s| == i + 1 && s[..|s| - 1] == ws[..i] && s[|s| - 1] == ws[i];
    forall d
      ensures HasJira(s, d) <==> HasJira(ws[..i], d) || DayOf(ws[i].started) == d
      ensures JiraSeconds(s, d) == JiraSeconds(ws[..i], d) + (if DayOf(ws[i].started) == d then ws[i].timeSpentSeconds else 0)
    {
    }
  }

  lemma LocalStep(ls: seq<LocalWorklog>, ids: set<string>, i: nat)
    requires i < |ls|
    ensures forall d :: HasLocal(ls[..i + 1], ids, d) <==> HasLocal(ls[..i], ids, d) || (DayOf(ls[i].started) == d && Counted(ls[i], ids))
    ensures forall d :: LocalSeconds(ls[..i + 1], ids, d)
                        == LocalSeconds(ls[..i], ids, d) + (if DayOf(ls[i].started) == d && Counted(ls[i], ids) then ls[i].timeSpentSeconds else 0)
  {
    var s := ls[..i + 1];
    assert |s| == i + 1 && s[..|s| - 1] == ls[..i] && s[|s| - 1] == ls[i];
    forall d
      ensures HasLocal(s, ids, d) <==> HasLocal(ls[..i], ids, d) || (DayOf(ls[i].started) == d && Counted(ls[i], ids))
      ensures LocalSeconds(s, ids, d)
              == LocalSeconds(ls[..i], ids, d) + (if DayOf(ls[i].started) == d && Counted(ls[i], ids) then ls[i].timeSpentSeconds else 0)
    {
    }
  }

  /** A day without Jira worklogs has no Jira seconds. */
  lemma {:induction false} NoJiraNoSeconds(ws: seq<JiraWorklog>, d: int)
    requires !HasJira(ws, d)
    ensures JiraSeconds(ws, d) == 0
    decreases |ws|
  {
    if |ws| > 0 {
      NoJiraNoSeconds(ws[..|ws| - 1], d);
    }
  }

  /** A day without counted local worklogs has no local seconds. */
  lemma {:induction false} NoLocalNoSeconds(ls: seq<LocalWorklog>, ids: set<string>, d: int)
    requires !HasLocal(ls, ids, d)
    ensures LocalSeconds(ls, ids, d) == 0
    decreases |ls|
  {
    if |ls| > 0 {
      NoLocalNoSeconds(ls[..|ls| - 1], ids, d);
    }
  }

  /** The first loop: every Jira worklog of the range, summed per day. */
  method AddJira(lo: int, hi: int, jira: seq<JiraWorklog>) returns (daily: map<int, int>)
    ensures forall d :: d in daily <==> InRange(d, lo, hi) && HasJira(jira, d)
    ensures forall d :: d in daily ==> daily[d] == JiraSeconds(jira, d)
  {
    daily := map[];
    for i := 0 to |jira|
      invariant forall d :: d in daily <==> InRange(d, lo, hi) && HasJira(jira[..i], d)
      invariant forall d :: d in daily ==> daily[d] == JiraSeconds(jira[..i], d)
    {
      JiraStep(jira, i);
      var w := jira[i];
      var day := DayOf(w.started);
      if lo <= day <= hi {
        if day !in daily {
          NoJiraNoSeconds(jira[..i], day);
        }
        daily := daily[day := GetOr(daily, day) + w.timeSpentSeconds];
      }
    }
    assert jira[..|jira|] == jira;
  }

  /** The second loop: the local worklogs of the range that Jira does not hold, added per day. */
  method AddLocals(lo: int, hi: int, daily0: map<int, int>, locals: seq<LocalWorklog>, ids: set<string>)
    returns (daily: map<int, int>)
    requires forall d :: d in daily0 ==> InRange(d, lo, hi)
    ensures forall d :: d in daily <==> d in daily0 || (InRange(d, lo, hi) && HasLocal(locals, ids, d))
    ensures forall d :: d in daily ==> daily[d] == GetOr(daily0, d) + LocalSeconds(locals, ids, d)
  {
    daily := daily0;
    for i := 0 to |locals|
      invariant forall d :: d in daily <==> d in daily0 || (InRange(d, lo, hi) && HasLocal(locals[..i], ids, d))
      invariant forall d :: d in daily ==> daily[d] == GetOr(daily0, d) + LocalSeconds(locals[..i], ids, d)
    {
      LocalStep(locals, ids, i);
      var l := locals[i];
      var day := DayOf(l.started);
      if lo <= day <= hi {
        if l.worklogId.Some? && l.worklogId.value in ids {
          continue;
        }
        if day !in daily {
          NoLocalNoSeconds(locals[..i], ids, day);
        }
        daily := daily[day := GetOr(daily, day) + l.timeSpentSeconds];
      }
    }
    assert locals[..|locals|] == locals;
  }

  /** Whether absence `a` makes `d` an absence day of the range. */
  predicate AbsentBy(a: Absence, d: int, lo: int, hi: int) {
    DayOf(a.start) <= d <= DayOf(a.end) && !IsWeekend(d) && InRange(d, lo, hi)
  }

  /** The walk over one absence's days: weekdays of the range are flagged and get seven hours if they have nothing. */
  method MarkAbsence(lo: int, hi: int, daily0: map<int, int>, absent0: set<int>, a: Absence)
    returns (daily: map<int, int>, absent: set<int>)
    ensures forall d :: d in absent <==> d in absent0 || AbsentBy(a, d, lo, hi)
    ensures forall d :: d in daily <==> d in daily0 || AbsentBy(a, d, lo, hi)
    ensures forall d :: d in daily ==> daily[d] == if d in daily0 then daily0[d] else AbsenceSeconds
  {
    daily, absent := daily0, absent0;
    var current := DayOf(a.start);
    var last := DayOf(a.end);
    while current <= last
      invariant DayOf(a.start) <= current && (current <= last + 1 || current == DayOf(a.start))
      invariant forall d :: d in absent <==> d in absent0 || (AbsentBy(a, d, lo, hi) && d < current)
      invariant forall d :: d in daily <==> d in daily0 || (AbsentBy(a, d, lo, hi) && d < current)
      invariant forall d :: d in daily ==> daily[d] == if d in daily0 then daily0[d] else AbsenceSeconds
      decreases last - current
    {
      if Weekday(current) < 5 && lo <= current <= hi {
        absent := absent + {current};
        if current !in daily {
          daily := daily[current := AbsenceSeconds];
        }
      }
      current := current + 1;
    }
  }

  /** The third loop: every absence, one after the other. */
  method MarkAbsences(lo: int, hi: int, daily0: map<int, int>, absences: seq<Absence>)
    returns (daily: map<int, int>, absent: set<int>)
    ensures forall d :: d in absent <==> Absent(d, lo, hi, absences)
    ensures forall d :: d in daily <==> d in daily0 || Absent(d, lo, hi, absences)
    ensures forall d :: d in daily ==> daily[d] == if d in daily0 then daily0[d] else AbsenceSeconds
  {
    daily, absent := daily0, {};
    for k := 0 to |absences|
      invariant forall d :: d in absent <==> Absent(d, lo, hi, absences[..k])
      invariant forall d :: d in daily <==> d in daily0 || Absent(d, lo, hi, absences[..k])
      invariant forall d :: d in daily ==> daily[d] == if d in daily0 then daily0[d] else AbsenceSeconds
    {
      assert absences[..k + 1][..k] == absences[..k];
      daily, absent := MarkAbsence(lo, hi, daily, absent, absences[k]);
    }
    assert absences[..|absences|] == absences;
  }

  /** The last loop: one entry per date of the range, in order. */
  method Emit(lo: int, hi: int, daily: map<int, int>, absent: set<int>) returns (acts: seq<DayActivity>)
    ensures |acts| == Days(lo, hi)
    ensures forall i :: 0 <= i < |acts| ==> acts[i] == DayActivity(lo + i, GetOr(daily, lo + i), lo + i in absent)
  {
    acts := [];
    var current := lo;
    while current <= hi
      invariant lo <= current && (current <= hi + 1 || current == lo)
      invariant |acts| == current - lo
      invariant forall i :: 0 <= i < |acts| ==> acts[i] == DayActivity(lo + i, GetOr(daily, lo + i), lo + i in absent)
      decreases hi - current
    {
      acts := acts + [DayActivity(current, GetOr(daily, current), current in absent)];
      current := current + 1;
    }
  }

  /** The day-by-day activity of the dates `lo` to `hi`, shared by the sprint view and the wall. */
  method DailyActivity(lo: int, hi: int, jira: seq<JiraWorklog>, locals: seq<LocalWorklog>, absences: seq<Absence>)
    returns (acts: seq<DayActivity>)
    ensures |acts| == Days(lo, hi)
    ensures forall i :: 0 <= i < |acts| ==> acts[i] == ExpectedDay(lo + i, lo, hi, jira, locals, absences)
  {
    var ids := JiraIds(jira);
    var fromJira := AddJira(lo, hi, jira);
    var recorded := AddLocals(lo, hi, fromJira, locals, ids);
    var daily, absent := MarkAbsences(lo, hi, recorded, absences);
    acts := Emit(lo, hi, daily, absent);
    forall i | 0 <= i < |acts| ensures acts[i] == ExpectedDay(lo + i, lo, hi, jira, locals, absences) {
      var d := lo + i;
      assert InRange(d, lo, hi);
      if !HasJira(jira, d) {
        NoJiraNoSeconds(jira, d);
      }
    }
  }

  /**
   * What `calculate_sprint_activity` yields for `s`: nothing when a date is
   * missing, otherwise the expected activity of each day of the sprint.
   */
  predicate IsSprintActivity(s: Sprint, acts: seq<DayActivity>, jira: seq<JiraWorklog>, locals: seq<LocalWorklog>,
                             absences: seq<Absence>)
  {
    if s.start.None? || s.end.None? then acts == []
    else
      var lo, hi := DayOf(s.start.value), DayOf(s.end.value);
      && |acts| == Days(lo, hi)
      && forall i :: 0 <= i < |acts| ==> acts[i] == ExpectedDay(lo + i, lo, hi, jira, locals, absences)
  }

  /** A sprint has exactly one activity. */
  lemma SprintActivityUnique(s: Sprint, a: seq<DayActivity>, b: seq<DayActivity>, jira: seq<JiraWorklog>,
                             locals: seq<LocalWorklog>, absences: seq<Absence>)
    requires IsSprintActivity(s, a, jira, locals, absences) && IsSprintActivity(s, b, jira, locals, absences)
    ensures a == b
  {
    if s.start.Some? && s.end.Some? {
      assert forall i :: 0 <= i < |a| ==> a[i] == b[i];
    }
  }

  /** `calculate_sprint_activity`: a sprint lacking a date has no activity. */
  method SprintActivity(s: Sprint, jira: seq<JiraWorklog>, locals: seq<LocalWorklog>, absences: seq<Absence>)
    returns (acts: seq<DayActivity>)
    ensures s.start.None? || s.end.None? ==> acts == []
    ensures s.start.Some? && s.end.Some? ==>
              var lo, hi := DayOf(s.start.value), DayOf(s.end.value);
              && |acts| == Days(lo, hi)
              && forall i :: 0 <= i < |acts| ==> acts[i] == ExpectedDay(lo + i, lo, hi, jira, locals, absences)
    ensures IsSprintActivity(s, acts, jira, locals, absences)
  {
    if s.start.None? || s.end.None? {
      return [];
    }
    acts := DailyActivity(DayOf(s.start.value), DayOf(s.end.value), jira, locals, absences);
  }

  /** A local worklog Jira already holds adds nothing to its day. */
  lemma {:induction false} HeldLocalsAddNothing(ls: seq<LocalWorklog>, ids: set<string>, d: int)
    requires forall i :: 0 <= i < |ls| && DayOf(ls[i].started) == d ==> ls[i].worklogId.Some? && ls[i].worklogId.value in ids
    ensures LocalSeconds(ls, ids, d) == 0 && !HasLocal(ls, ids, d)
    decreases |ls|
  {
    if |ls| > 0 {
      var n := |ls| - 1;
      assert forall i :: 0 <= i < n ==> ls[..n][i] == ls[i];
      HeldLocalsAddNothing(ls[..n], ids, d);
    }
  }

  /** Some Jira worklog falls on `d` exactly when one of them does. */
  lemma {:induction false} HasJiraIff(ws: seq<JiraWorklog>, d: int)
    ensures HasJira(ws, d) <==> exists i :: 0 <= i < |ws| && DayOf(ws[i].started) == d
    decreases |ws|
  {
    if |ws| > 0 {
      var n := |ws| - 1;
      HasJiraIff(ws[..n], d);
      assert forall i :: 0 <= i < n ==> ws[..n][i] == ws[i];
    }
  }

  /**
   * An absence never hides logged work, and a weekend is never an
   * absence day.
   */
  lemma ExpectedDayRules(d: int, lo: int, hi: int, jira: seq<JiraWorklog>, locals: seq<LocalWorklog>, absences: seq<Absence>)
    ensures IsWeekend(d) ==> !ExpectedDay(d, lo, hi, jira, locals, absences).isAbsence
    ensures !InRange(d, lo, hi) ==> !ExpectedDay(d, lo, hi, jira, locals, absences).isAbsence
    ensures ExpectedDay(d, lo, hi, jira, locals, absences).seconds
            == if Recorded(d, jira, locals) then JiraSeconds(jira, d) + LocalSeconds(locals, JiraIds(jira), d)
               else if Absent(d, lo, hi, absences) then AbsenceSeconds else 0
  {
  }

  // ---------------------------------------------------------------------
  // The worklog wall
  // ---------------------------------------------------------------------

  /** The Monday of the week of day `d`. */
  function MondayOf(d: int): (m: int)
    ensures Weekday(m) == 0 && m <= d < m + 7
  {
    d - Weekday(d)
  }

  /** The range the wall shows: from the Monday before the day 365 days before this Monday, to this Sunday. */
  function WallRange(today: int): (int, int) {
    var thisMonday := MondayOf(today);
    (MondayOf(thisMonday - 365), thisMonday + 6)
  }

  /** The wall always spans 54 whole weeks, Monday to Sunday, the last holding today. */
  lemma WallRangeShape(today: int)
    ensures var (lo, hi) := WallRange(today);
            && Weekday(lo) == 0 && Weekday(hi) == 6
            && hi - lo + 1 == 54 * 7
            && lo <= today <= hi && hi - 6 <= today
  {
    var thisMonday := MondayOf(today);
    assert Weekday(thisMonday - 365) == 6;
  }

  /** `calculate_worklog_wall`: the wall's activity, a multiple of seven days long. */
  method WorklogWall(today: int, jira: seq<JiraWorklog>, locals: seq<LocalWorklog>, absences: seq<Absence>)
    returns (acts: seq<DayActivity>)
    ensures |acts| % 7 == 0 && |acts| == 378
    ensures forall i :: 0 <= i < |acts| ==> acts[i] == ExpectedDay(WallRange(today).0 + i, WallRange(today).0, WallRange(today).1, jira, locals, absences)
  {
    WallRangeShape(today);
    var dayOfWeek := Weekday(today);
    var thisMonday := today - dayOfWeek;
    var approxStart := thisMonday - 365;
    var startMonday := approxStart - Weekday(approxStart);
    var thisSunday := thisMonday + 6;
    acts := DailyActivity(startMonday, thisSunday, jira, locals, absences);
  }

  /**
   * `calculate_all_sprint_activities`: one entry per sprint id, holding the
   * activity of the last sprint with that id.
   */
  method AllSprintActivities(sprints: seq<Sprint>, jira: seq<JiraWorklog>, locals: seq<LocalWorklog>, absences: seq<Absence>)
    returns (activities: map<nat, seq<DayActivity>>)
    ensures forall id :: id in activities <==> exists i :: 0 <= i < |sprints| && sprints[i].id == id
    ensures forall i :: 0 <= i < |sprints| && (forall j :: i < j < |sprints| ==> sprints[j].id != sprints[i].id) ==>
              |activities[sprints[i].id]| == (if sprints[i].start.Some? && sprints[i].end.Some?
                                               then Days(DayOf(sprints[i].start.value), DayOf(sprints[i].end.value)) else 0)
    ensures forall i :: 0 <= i < |sprints| && (forall j :: i < j < |sprints| ==> sprints[j].id != sprints[i].id) ==>
              IsSprintActivity(sprints[i], activities[sprints[i].id], jira, locals, absences)
  {
    activities := map[];
    for k := 0 to |sprints|
      invariant forall id :: id in activities <==> exists i :: 0 <= i < k && sprints[i].id == id
      invariant LastActivities(sprints, k, activities, jira, locals, absences)
    {
      var acts := SprintActivity(sprints[k], jira, locals, absences);
      LastActivitiesStep(sprints, k, activities, acts, jira, locals, absences);
      activities := activities[sprints[k].id := acts];
    }
    forall i | 0 <= i < |sprints| && (forall j :: i < j < |sprints| ==> sprints[j].id != sprints[i].id)
      ensures |activities[sprints[i].id]| == (if sprints[i].start.Some? && sprints[i].end.Some?
                                               then Days(DayOf(sprints[i].start.value), DayOf(sprints[i].end.value)) else 0)
    {
      assert IsSprintActivity(sprints[i], activities[sprints[i].id], jira, locals, absences);
    }
  }

  /** Among the first `k` sprints, the last one with each id has its activity in `activities`. */
  predicate LastActivities(sprints: seq<Sprint>, k: nat, activities: map<nat, seq<DayActivity>>, jira: seq<JiraWorklog>,
                           locals: seq<LocalWorklog>, absences: seq<Absence>)
    requires k <= |sprints|
  {
    forall i :: 0 <= i < k && (forall j :: i < j < k ==> sprints[j].id != sprints[i].id) ==>
      sprints[i].id in activities && IsSprintActivity(sprints[i], activities[sprints[i].id], jira, locals, absences)
  }

  /** Storing sprint `k`'s activity under its id keeps the last activity of every id. */
  lemma LastActivitiesStep(sprints: seq<Sprint>, k: nat, activities: map<nat, seq<DayActivity>>, acts: seq<DayActivity>,
                           jira: seq<JiraWorklog>, locals: seq<LocalWorklog>, absences: seq<Absence>)
    requires k < |sprints| && LastActivities(sprints, k, activities, jira, locals, absences)
    requires IsSprintActivity(sprints[k], acts, jira, locals, absences)
    ensures LastActivities(sprints, k + 1, activities[sprints[k].id := acts], jira, locals, absences)
  {
    var after := activities[sprints[k].id := acts];
    forall i | 0 <= i < k + 1 && (forall j :: i < j < k + 1 ==> sprints[j].id != sprints[i].id)
      ensures sprints[i].id in after && IsSprintActivity(sprints[i], after[sprints[i].id], jira, locals, absences)
    {
      if i < k {
        var id := sprints[i].id;
        assert id != sprints[k].id;
        assert forall j :: i < j < k ==> sprints[j].id != id;
        assert id in activities && IsSprintActivity(sprints[i], activities[id], jira, locals, absences);
        assert after[id] == activities[id];
      }
    }
  }
}
