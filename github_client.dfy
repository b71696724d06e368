/**
 * `GitHubClient`: what the program reads out of a GitHub event, the
 * Jira issue keys it mentions and a one-line description. The JSON
 * payload is modelled by the fields the program looks up; a field that
 * is missing or not a string is `None`.
 */
module GitHubClient {
  import opened Wrappers
  import opened Lex
  import opened Text
  import opened IssueKeys

  /** The payload fields the program reads, flattened: `pull_request.title` is `prTitle`, and so on. */
  datatype Payload = Payload(
    commits: Option<seq<Option<string>>>,   // `commits`, when it is an array: each commit's `message`
    refName: Option<string>,                // `ref`
    refType: Option<string>,                // `ref_type`
    action: Option<string>,                 // `action`
    prTitle: Option<string>, prBody: Option<string>,
    prHeadRef: Option<string>, prBaseRef: Option<string>,
    issueTitle: Option<string>, issueBody: Option<string>,
    commentBody: Option<string>)            // `comment.body`

  /** An event as the GitHub API returns it. */
  datatype ApiEvent = ApiEvent(id: string, eventType: string, createdAt: int, repoName: string, payload: Payload)

  /** The one text a present field contributes. */
  function Opt(o: Option<string>): (r: seq<string>)
    ensures o.Some? ==> r == [o.value]
    ensures o.None? ==> r == []
  {
    if o.Some? then [o.value] else []
  }

  /** The present messages, in commit order. */
  function Present(ms: seq<Option<string>>): (r: seq<string>)
    ensures forall t :: t in r <==> Some(t) in ms
    decreases |ms|
  {
    if |ms| == 0 then []
    else
      assert forall o :: o in ms <==> o == ms[0] || o in ms[1..] by {
        assert ms == [ms[0]] + ms[1..];
      }
      Opt(ms[0]) + Present(ms[1..])
  }

  predicate IsPullRequestType(t: string) {
    t == "PullRequestEvent" || t == "PullRequestReviewEvent" || t == "PullRequestReviewCommentEvent"
  }

  predicate IsIssueType(t: string) {
    t == "IssuesEvent" || t == "IssueCommentEvent"
  }

  /** The event types whose payload is scanned for issue keys. */
  predicate IsScannedType(t: string) {
    t == "PushEvent" || IsPullRequestType(t) || IsIssueType(t) || t == "CreateEvent" || t == "DeleteEvent"
  }

  /** The payload texts the type selects, in the order they are scanned. */
  function PayloadTexts(eventType: string, p: Payload): (r: seq<string>)
    ensures !IsScannedType(eventType) ==> r == []
  {
    if eventType == "PushEvent" then
      Present(p.commits.UnwrapOr([])) + Opt(p.refName)
    else if IsPullRequestType(eventType) then
      Opt(p.prTitle) + Opt(p.prBody) + Opt(p.prHeadRef) + Opt(p.prBaseRef)
      + (if eventType == "PullRequestReviewCommentEvent" then Opt(p.commentBody) else [])
    else if IsIssueType(eventType) then
      Opt(p.issueTitle) + Opt(p.issueBody)
      + (if eventType == "IssueCommentEvent" then Opt(p.commentBody) else [])
    else if eventType == "CreateEvent" || eventType == "DeleteEvent" then
      Opt(p.refName)
    else []
  }

  /** Every text scanned for keys: the repository name first, then the payload's. */
  function ScannedTexts(e: ApiEvent): (r: seq<string>)
    ensures |r| > 0 && r[0] == e.repoName
  {
    [e.repoName] + PayloadTexts(e.eventType, e.payload)
  }

  /** The uppercased keys of some texts, in the order they are found. */
  function Collected(texts: seq<string>): seq<string>
    decreases |texts|
  {
    if |texts| == 0 then [] else Collected(texts[..|texts| - 1]) + UpperBoundedKeys(texts[|texts| - 1])
  }

  /** Each key a text yields is collected. */
  lemma {:induction false} CollectedHas(texts: seq<string>, i: nat, k: string)
    requires i < |texts| && k in UpperBoundedKeys(texts[i])
    ensures k in Collected(texts)
    decreases |texts|
  {
    var n := |texts| - 1;
    if i < n {
      assert texts[..n][i] == texts[i];
      CollectedHas(texts[..n], i, k);
    }
  }

  /** Each collected key comes from one of the texts. */
  lemma {:induction false} CollectedFrom(texts: seq<string>, k: string) returns (i: nat)
    requires k in Collected(texts)
    ensures i < |texts| && k in UpperBoundedKeys(texts[i])
    decreases |texts|
  {
    var n := |texts| - 1;
    if k in UpperBoundedKeys(texts[n]) {
      i := n;
    } else {
      i := CollectedFrom(texts[..n], k);
      assert texts[..n][i] == texts[i];
    }
  }

  /** Uppercasing leaves no lowercase letter in any collected key. */
  lemma {:induction false} CollectedUpper(texts: seq<string>)
    ensures forall k :: k in Collected(texts) ==> NoLowercase(k)
    decreases |texts|
  {
    if |texts| > 0 {
      var n := |texts| - 1;
      CollectedUpper(texts[..n]);
      var ks := UpperBoundedKeys(texts[n]);
      forall k | k in ks ensures NoLowercase(k) {
        var i :| 0 <= i < |ks| && ks[i] == k;
        UpperHasNoLowercase(BoundedKeys(texts[n])[i]);
      }
    }
  }

  /**
   * The issue keys of an event: sorted, without duplicates, uppercased,
   * and exactly the keys some scanned text mentions.
   */
  function EventIssues(e: ApiEvent): (r: seq<string>)
    ensures StrictlySorted(r)
    ensures forall k :: k in r ==> NoLowercase(k)
    ensures forall k :: k in r <==> exists i :: 0 <= i < |ScannedTexts(e)| && k in UpperBoundedKeys(ScannedTexts(e)[i])
  {
    var texts := ScannedTexts(e);
    CollectedUpper(texts);
    forall k ensures k in Collected(texts) <==> exists i :: 0 <= i < |texts| && k in UpperBoundedKeys(texts[i]) {
      if k in Collected(texts) {
        var i := CollectedFrom(texts, k);
      }
      if exists i :: 0 <= i < |texts| && k in UpperBoundedKeys(texts[i]) {
        var i :| 0 <= i < |texts| && k in UpperBoundedKeys(texts[i]);
        CollectedHas(texts, i, k);
      }
    }
    SortDedup(Collected(texts))
  }

  /** `extract_jira_issues`: every scanned text's matches are pushed, then the list is sorted and de-duplicated. */
  method ExtractJiraIssues(e: ApiEvent) returns (issues: seq<string>)
    ensures issues == EventIssues(e)
  {
    var texts := ScannedTexts(e);
    issues := [];
    for i := 0 to |texts|
      invariant issues == Collected(texts[..i])
    {
      assert texts[..i + 1][..i] == texts[..i];
      issues := issues + UpperBoundedKeys(texts[i]);
    }
    assert texts[..|texts|] == texts;
    issues := SortDedup(issues);
  }

  /** The repository name is always scanned: each key it mentions is among the event's issues. */
  lemma RepoAlwaysScanned(e: ApiEvent, k: string)
    requires k in UpperBoundedKeys(e.repoName)
    ensures k in EventIssues(e)
  {
    assert ScannedTexts(e)[0] == e.repoName;
  }

  /** An event of a type the program does not know is scanned on its repository name alone. */
  lemma UnknownTypeScansRepo(e: ApiEvent)
    requires !IsScannedType(e.eventType)
    ensures EventIssues(e) == SortDedup(UpperBoundedKeys(e.repoName))
  {
    var texts := ScannedTexts(e);
    assert texts == [e.repoName];
    assert texts[..0] == [];
    assert Collected(texts) == UpperBoundedKeys(e.repoName);
  }

  // ---------------------------------------------------------------------
  // Descriptions
  // ---------------------------------------------------------------------

  /**
   * The line `line` is the first line of `s`: either `s` has no line
   * feed and is the line, or the line is followed by "\n" or by "\r\n"
   * (one carriage return before the line feed belongs to the ending).
   */
  predicate IsFirstLine(s: string, line: string) {
    var n := |line|;
    && '\n' !in line
    && n <= |s| && s[..n] == line
    && (if '\n' !in s then n == |s|
        else
          || (n < |s| && s[n] == '\n' && (n == 0 || s[n - 1] != '\r'))
          || (n + 1 < |s| && s[n] == '\r' && s[n + 1] == '\n'))
  }

  /** `lines().next()`: the text before the first line feed, a carriage return before it dropped; None for "". */
  function FirstLine(s: string): (r: Option<string>)
    ensures r.None? <==> s == ""
    ensures r.Some? ==> IsFirstLine(s, r.value)
  {
    if s == "" then None
    else if '\n' !in s then Some(s)
    else
      var line := s[..IndexOf(s, '\n')];
      if |line| > 0 && line[|line| - 1] == '\r' then
        assert s[..|line| - 1] == line[..|line| - 1];
        Some(line[..|line| - 1])
      else Some(line)
  }

  /** A message written as a line, a line ending and the rest has that line as its first line. */
  lemma FirstLineOfMessage(line: string, crlf: bool, rest: string)
    requires '\n' !in line
    requires !crlf ==> |line| == 0 || line[|line| - 1] != '\r'
    ensures FirstLine(line + (if crlf then "\r\n" else "\n") + rest) == Some(line)
  {
    var s := line + (if crlf then "\r\n" else "\n") + rest;
    var k := if crlf then |line| + 1 else |line|;
    var head := if crlf then line + "\r" else line;
    assert s[..k] == head;
    assert s[k] == '\n';
    IndexOfFirst(s, '\n', k);
    assert s[..IndexOf(s, '\n')] == head;
    if crlf {
      assert head[..|head| - 1] == line;
    }
  }

  /** The index of the first occurrence is the position before which the character does not occur. */
  lemma IndexOfFirst(s: string, c: char, k: nat)
    requires k < |s| && s[k] == c && c !in s[..k]
    ensures IndexOf(s, c) == k
  {
  }

  /** The first line is unique: any line in the sense of `IsFirstLine` is the one `FirstLine` returns. */
  lemma FirstLineUnique(s: string, line: string)
    requires s != "" && IsFirstLine(s, line)
    ensures FirstLine(s) == Some(line)
  {
    if '\n' in s {
      var n := |line|;
      if n < |s| && s[n] == '\n' && (n == 0 || s[n - 1] != '\r') {
        assert s == line + "\n" + s[n + 1..];
        FirstLineOfMessage(line, false, s[n + 1..]);
      } else {
        assert s == line + "\r\n" + s[n + 2..];
        FirstLineOfMessage(line, true, s[n + 2..]);
      }
    }
  }

  /** The event types `extract_description` describes in its own words. */
  predicate IsDescribedType(t: string) {
    t == "PushEvent" || t == "PullRequestEvent" || t == "PullRequestReviewEvent"
    || t == "IssuesEvent" || t == "IssueCommentEvent"
  }

  /** The first commit's message, when the commit list is a non-empty array and that message is a string. */
  function FirstCommitMessage(p: Payload): (r: Option<string>)
    ensures r.Some? <==> p.commits.Some? && |p.commits.value| > 0 && p.commits.value[0].Some?
  {
    if p.commits.Some? && |p.commits.value| > 0 then p.commits.value[0] else None
  }

  /**
   * `extract_description`: the first line of the first commit for a
   * push, the title for a pull request or an issue, a fixed text for the
   * other known types, and the event type itself for an unknown one.
   */
  function ExtractDescription(e: ApiEvent): (r: string)
    ensures e.eventType == "PushEvent" ==> '\n' !in r
    ensures e.eventType == "PushEvent" && FirstCommitMessage(e.payload).None? ==> r == "Push to repository"
    ensures e.eventType == "PushEvent" && FirstCommitMessage(e.payload) == Some("") ==> r == "Push"
    ensures e.eventType == "PushEvent" && FirstCommitMessage(e.payload).Some? && FirstCommitMessage(e.payload).value != "" ==>
              IsFirstLine(FirstCommitMessage(e.payload).value, r)
    ensures !IsDescribedType(e.eventType) ==> r == e.eventType
  {
    var p := e.payload;
    match e.eventType
    case "PushEvent" =>
      var m := FirstCommitMessage(p);
      if m.Some? then FirstLine(m.value).UnwrapOr("Push") else "Push to repository"
    case "PullRequestEvent" =>
      if p.prTitle.Some? then "PR: " + p.prTitle.value else "Pull Request"
    case "PullRequestReviewEvent" => "PR Review"
    case "IssuesEvent" =>
      if p.action.Some? then
        if p.issueTitle.Some? then p.action.value + " issue: " + p.issueTitle.value
        else p.action.value + " issue"
      else "Issue activity"
    case "IssueCommentEvent" => "Issue comment"
    case _ => e.eventType
  }

  /** A push whose first commit message is a line, a line ending and more is described by that line. */
  lemma PushDescribedByFirstLine(e: ApiEvent, line: string, crlf: bool, rest: string)
    requires e.eventType == "PushEvent"
    requires '\n' !in line && (!crlf ==> |line| == 0 || line[|line| - 1] != '\r')
    requires FirstCommitMessage(e.payload) == Some(line + (if crlf then "\r\n" else "\n") + rest)
    ensures ExtractDescription(e) == line
  {
    FirstLineOfMessage(line, crlf, rest);
  }
}
