/**
 * The entities of the program (sprints, boards, Jira worklogs, issues,
 * absences, meetings, local worklogs and their push history, stored
 * GitHub events and work sessions) and the small pure functions attached
 * to them.
 *
 * Instants are whole seconds since the Unix epoch (UTC); a calendar date
 * is the number of days since 1970-01-01.
 */
module Model {
  import opened Wrappers
  import opened Text
  import opened IssueKeys

  const SecondsPerDay: int := 86400
  const SecondsPerHour: int := 3600

  /** `DateTime<Utc>::date_naive()`: the day an instant falls on. */
  function DayOf(t: int): (d: int)
    ensures d * SecondsPerDay <= t < (d + 1) * SecondsPerDay
  {
    t / SecondsPerDay
  }

  /** `weekday().num_days_from_monday()`: 0 for Monday … 6 for Sunday (1970-01-01 was a Thursday). */
  function Weekday(d: int): (w: int)
    ensures 0 <= w < 7
  {
    (d + 3) % 7
  }

  lemma WeekdayNext(d: int)
    ensures Weekday(d + 1) == (Weekday(d) + 1) % 7
    ensures Weekday(d + 7) == Weekday(d)
  {
  }

  predicate IsWeekend(d: int) { Weekday(d) >= 5 }

  lemma WeekendsInAWeek(d: int)
    requires Weekday(d) == 0
    ensures !IsWeekend(d) && !IsWeekend(d + 4) && IsWeekend(d + 5) && IsWeekend(d + 6)
  {
  }

  datatype SprintState = Active | Closed | Future

  datatype Sprint = Sprint(
    id: nat, name: string, state: SprintState,
    start: Option<int>, end: Option<int>,
    followed: bool, workdays: int)

  datatype BoardType = Scrum | Kanban | Simple | Unknown

  /** `BoardType::from_str`. */
  function BoardTypeFromStr(s: string): (b: BoardType)
    ensures b != Unknown ==> BoardTypeName(b) == s
  {
    match s
    case "scrum" => Scrum
    case "kanban" => Kanban
    case "simple" => Simple
    case _ => Unknown
  }

  /** The Jira name of a known board type. */
  function BoardTypeName(b: BoardType): (s: string)
    requires b != Unknown
  {
    match b
    case Scrum => "scrum"
    case Kanban => "kanban"
    case Simple => "simple"
  }

  /** Only the three lower-case names are recognised, and each maps back to its own name. */
  lemma BoardTypeRoundTrip(s: string, b: BoardType)
    ensures BoardTypeFromStr(s) != Unknown <==> s == "scrum" || s == "kanban" || s == "simple"
    ensures b != Unknown ==> BoardTypeFromStr(BoardTypeName(b)) == b
    ensures BoardTypeFromStr(s) != Unknown ==> BoardTypeName(BoardTypeFromStr(s)) == s
  {
  }

  datatype Board = Board(id: nat, name: string, boardType: BoardType, followed: bool)

  /** A worklog as stored on the Jira side (`Worklog`). */
  datatype JiraWorklog = JiraWorklog(id: string, issueId: string, timeSpentSeconds: nat, started: int)

  datatype Issue = Issue(id: string, key: string, summary: string)

  datatype Absence = Absence(id: string, start: int, end: int)

  datatype Attendee = Attendee(displayName: Option<string>, comment: Option<string>)

  datatype Meeting = Meeting(
    id: string, title: Option<string>, description: Option<string>,
    start: int, end: int, attendees: Option<seq<Attendee>>,
    jiraLink: Option<string>, myResponseStatus: Option<string>)

  datatype LocalWorklogState = Created | Staged | Pushed

  datatype LocalWorklog = LocalWorklog(
    id: string, comment: string, timeSpentSeconds: int, issueId: string,
    status: LocalWorklogState, started: int,
    meetingId: Option<string>, worklogId: Option<string>)

  datatype LocalWorklogHistory = LocalWorklogHistory(id: string, date: int, localWorklogsId: seq<string>)

  function AttendeeCandidates(attendees: seq<Attendee>): (r: seq<string>)
    ensures attendees == [] ==> r == []
  {
    if |attendees| == 0 then []
    else
      (match attendees[0].comment
       case Some(c) => JiraIdentifiers(c)
       case None => [])
      + AttendeeCandidates(attendees[1..])
  }

  function OptionCandidates(text: Option<string>): (r: seq<string>)
  {
    match text
    case Some(t) => JiraIdentifiers(t)
    case None => []
  }

  /** `Meeting::get_jira_candidates`: keys from attendee comments, then the title, then the description. */
  function JiraCandidates(m: Meeting): (r: seq<string>)
    ensures m.attendees.None? ==> r == OptionCandidates(m.title) + OptionCandidates(m.description)
    ensures m.attendees.Some? ==>
      r == AttendeeCandidates(m.attendees.value) + OptionCandidates(m.title) + OptionCandidates(m.description)
  {
    var fromAttendees := match m.attendees case Some(list) => AttendeeCandidates(list) case None => [];
    fromAttendees + OptionCandidates(m.title) + OptionCandidates(m.description)
  }

  /** Duplicates are kept: a key written in both the title and the description is listed twice. */
  lemma CandidatesKeepDuplicates(m: Meeting, key: string)
    requires m.attendees.None?
    requires m.title == Some(key) && m.description == Some(key)
    requires LetterKeys(key, AnyCase) == [key]
    ensures JiraCandidates(m) == [ToUpper(key), ToUpper(key)]
  {
  }

  /** A GitHub event as stored: its issues are kept as a comma-separated string. */
  datatype GitHubEvent = GitHubEvent(
    id: string, eventType: string, repo: string, timestamp: int,
    description: string, jiraIssues: string, date: int)

  /** `GitHubEvent::get_jira_issues`: split on commas, each piece trimmed. */
  function EventJiraIssues(e: GitHubEvent): (r: seq<string>)
    ensures e.jiraIssues == "" ==> r == []
    ensures e.jiraIssues != "" ==> |r| == |Split(e.jiraIssues, ',')|
    ensures e.jiraIssues != "" ==> forall i :: 0 <= i < |r| ==> r[i] == Trim(Split(e.jiraIssues, ',')[i])
    ensures forall i :: 0 <= i < |r| && |r[i]| > 0 ==> !IsWhitespace(r[i][0]) && !IsWhitespace(r[i][|r[i]| - 1])
  {
    if e.jiraIssues == "" then []
    else
      var parts := Split(e.jiraIssues, ',');
      seq(|parts|, i requires 0 <= i < |parts| => Trim(parts[i]))
  }

  datatype GitHubSession = GitHubSession(
    id: string, startTime: int, endTime: int, durationSeconds: int,
    repo: string, description: string, jiraIssues: string, eventIds: string, date: int)

  /** `GitHubSession::new`; the id (an md5 digest in the program) is given. */
  function NewSession(id: string, startTime: int, endTime: int, durationSeconds: int,
                      repo: string, description: string,
                      jiraIssues: seq<string>, eventIds: seq<string>): (s: GitHubSession)
    ensures s.date == DayOf(startTime)
  {
    GitHubSession(id, startTime, endTime, durationSeconds, repo, description,
                  Join(jiraIssues, ','), Join(eventIds, ','), DayOf(startTime))
  }

  /** `split(',')` of a non-empty field, or no items at all for the empty one. */
  function SplitField(field: string): (r: seq<string>)
    ensures field == "" ==> r == []
    ensures field != "" ==> Join(r, ',') == field && forall i :: 0 <= i < |r| ==> ',' !in r[i]
  {
    if field == "" then [] else Split(field, ',')
  }

  function SessionJiraIssues(s: GitHubSession): (r: seq<string>)
    ensures s.jiraIssues != "" ==> Join(r, ',') == s.jiraIssues
    ensures s.jiraIssues == "" ==> r == []
  {
    SplitField(s.jiraIssues)
  }

  function SessionEventIds(s: GitHubSession): (r: seq<string>)
    ensures s.eventIds != "" ==> Join(r, ',') == s.eventIds
    ensures s.eventIds == "" ==> r == []
  {
    SplitField(s.eventIds)
  }

  /** Items that are non-empty and hold no comma survive the join and split. */
  predicate CommaFreeItems(xs: seq<string>) {
    forall i :: 0 <= i < |xs| ==> |xs[i]| > 0 && ',' !in xs[i]
  }

  lemma JoinNonEmpty(xs: seq<string>)
    requires |xs| > 0 && |xs[0]| > 0
    ensures Join(xs, ',') != ""
  {
    if |xs| > 1 {
      assert Join(xs, ',') == xs[0] + [','] + Join(xs[1..], ',');
    }
  }

  /** A session's issues and event ids read back exactly as they were given. */
  lemma SessionRoundTrip(id: string, startTime: int, endTime: int, durationSeconds: int,
                         repo: string, description: string,
                         jiraIssues: seq<string>, eventIds: seq<string>)
    requires CommaFreeItems(jiraIssues) && CommaFreeItems(eventIds)
    ensures SessionJiraIssues(NewSession(id, startTime, endTime, durationSeconds, repo, description, jiraIssues, eventIds)) == jiraIssues
    ensures SessionEventIds(NewSession(id, startTime, endTime, durationSeconds, repo, description, jiraIssues, eventIds)) == eventIds
  {
    FieldRoundTrip(jiraIssues);
    FieldRoundTrip(eventIds);
  }

  /** Items as the program stores them for an event: non-empty, comma-free and without surrounding whitespace. */
  predicate TrimmedItems(xs: seq<string>) {
    && CommaFreeItems(xs)
    && forall i :: 0 <= i < |xs| ==> !IsWhitespace(xs[i][0]) && !IsWhitespace(xs[i][|xs[i]| - 1])
  }

  /** An event whose issues were joined with commas reads them back exactly. */
  lemma EventJiraIssuesRoundTrip(e: GitHubEvent, xs: seq<string>)
    requires TrimmedItems(xs) && e.jiraIssues == Join(xs, ',')
    ensures EventJiraIssues(e) == xs
  {
    if |xs| > 0 {
      JoinNonEmpty(xs);
      SplitJoin(xs, ',');
      forall i | 0 <= i < |xs| ensures Trim(xs[i]) == xs[i] {
        TrimNoSpace(xs[i]);
      }
    }
  }

  lemma FieldRoundTrip(xs: seq<string>)
    requires CommaFreeItems(xs)
    ensures SplitField(Join(xs, ',')) == xs
  {
    if |xs| > 0 {
      JoinNonEmpty(xs);
      SplitJoin(xs, ',');
    }
  }
}
