/**
 * How `GitHubService` collects the events of the followed sprints: one
 * fetch per sprint that has started, failures skipped, events kept once
 * per id (the first one), then restricted to an organisation's
 * repositories when one is configured. Syncing also converts the events
 * to their stored form and derives the day sessions.
 *
 * The `gh` command line, the user name it reports, the clock and the
 * configuration file are parameters.
 */
module GitHubService {
  import opened Wrappers
  import opened Text
  import opened Model
  import opened GitHubClient
  import opened GitHubSessions

  const NotConfigured: string := "GitHub CLI is not installed or configured"
  const SyncNotConfigured: string :=
    "GitHub CLI is not installed or configured. Please install gh CLI and run 'gh auth login'"

  /** `GitHubClient::fetch_events(username, start, end)`. */
  type Fetch = (string, int, int) -> Result<seq<ApiEvent>, string>

  /**
   * The window fetched for a sprint: none when it has no start or starts
   * after `now`; an open end is `now`.
   */
  function SprintWindow(s: Sprint, now: int): (w: Option<(int, int)>)
    ensures w.Some? <==> s.start.Some? && s.start.value <= now
    ensures w.Some? ==> w.value.0 == s.start.value && w.value.1 == s.end.UnwrapOr(now)
  {
    if s.start.Some? && s.start.value <= now then Some((s.start.value, s.end.UnwrapOr(now))) else None
  }

  /** What one sprint adds: the events of its window, or nothing when it is skipped or the fetch fails. */
  function SprintEvents(username: string, s: Sprint, now: int, fetch: Fetch): seq<ApiEvent> {
    var w := SprintWindow(s, now);
    if w.None? then []
    else
      var got := fetch(username, w.value.0, w.value.1);
      if got.Ok? then got.value else []
  }

  /** The events of every sprint, sprint after sprint. */
  function Fetched(username: string, sprints: seq<Sprint>, now: int, fetch: Fetch): seq<ApiEvent>
    decreases |sprints|
  {
    if |sprints| == 0 then []
    else Fetched(username, sprints[..|sprints| - 1], now, fetch) + SprintEvents(username, sprints[|sprints| - 1], now, fetch)
  }

  /** Every event an answered fetch returns is collected. */
  lemma {:induction false} FetchedHas(username: string, sprints: seq<Sprint>, now: int, fetch: Fetch, i: nat, e: ApiEvent)
    requires i < |sprints| && e in SprintEvents(username, sprints[i], now, fetch)
    ensures e in Fetched(username, sprints, now, fetch)
    decreases |sprints|
  {
    var n := |sprints| - 1;
    if i < n {
      assert sprints[..n][i] == sprints[i];
      FetchedHas(username, sprints[..n], now, fetch, i, e);
    }
  }

  /** Every collected event comes from a sprint that has started and whose fetch answered. */
  lemma {:induction false} FetchedFrom(username: string, sprints: seq<Sprint>, now: int, fetch: Fetch, e: ApiEvent) returns (i: nat)
    requires e in Fetched(username, sprints, now, fetch)
    ensures i < |sprints| && e in SprintEvents(username, sprints[i], now, fetch)
    ensures sprints[i].start.Some? && sprints[i].start.value <= now
    decreases |sprints|
  {
    var n := |sprints| - 1;
    if e in SprintEvents(username, sprints[n], now, fetch) {
      i := n;
    } else {
      i := FetchedFrom(username, sprints[..n], now, fetch, e);
      assert sprints[..n][i] == sprints[i];
    }
  }

  /** The fetch loop: each started sprint's window is fetched, and a failed fetch is only logged. */
  method FetchAll(username: string, sprints: seq<Sprint>, now: int, fetch: Fetch) returns (events: seq<ApiEvent>)
    ensures events == Fetched(username, sprints, now, fetch)
  {
    events := [];
    for i := 0 to |sprints|
      invariant events == Fetched(username, sprints[..i], now, fetch)
    {
      assert sprints[..i + 1][..i] == sprints[..i];
      var w := SprintWindow(sprints[i], now);
      if w.Some? {
        var got := fetch(username, w.value.0, w.value.1);
        if got.Ok? {
          events := events + got.value;
        }
      }
    }
    assert sprints[..|sprints|] == sprints;
  }

  // ---------------------------------------------------------------------
  // De-duplication by id
  // ---------------------------------------------------------------------

  function Ids(es: seq<ApiEvent>): (r: set<string>)
    ensures forall x :: x in r <==> exists e :: e in es && e.id == x
  {
    set e | e in es :: e.id
  }

  lemma IdsSnoc(es: seq<ApiEvent>, e: ApiEvent)
    ensures Ids(es + [e]) == Ids(es) + {e.id}
  {
    assert forall x :: x in es + [e] <==> x in es || x == e;
  }

  /** `retain(|e| seen.insert(e.id))`: each event whose id has not been seen before. */
  function FirstById(es: seq<ApiEvent>): seq<ApiEvent>
    decreases |es|
  {
    if |es| == 0 then []
    else
      var n := |es| - 1;
      if es[n].id in Ids(es[..n]) then FirstById(es[..n]) else FirstById(es[..n]) + [es[n]]
  }

  predicate DistinctIds(es: seq<ApiEvent>) {
    forall i, j :: 0 <= i < j < |es| ==> es[i].id != es[j].id
  }

  /** Whether `es[i]` is the first event of its id. */
  predicate FirstOfId(es: seq<ApiEvent>, i: nat)
    requires i < |es|
  {
    forall j :: 0 <= j < i ==> es[j].id != es[i].id
  }

  /**
   * De-duplication keeps every id once, keeps exactly the first event of
   * each id, and keeps nothing else.
   */
  lemma {:induction false} FirstByIdProperties(es: seq<ApiEvent>)
    ensures DistinctIds(FirstById(es))
    ensures Ids(FirstById(es)) == Ids(es)
    ensures forall e :: e in FirstById(es) ==> e in es
    ensures forall i :: 0 <= i < |es| && FirstOfId(es, i) ==> es[i] in FirstById(es)
    decreases |es|
  {
    if |es| > 0 {
      var n := |es| - 1;
      var init, last := es[..n], es[n];
      assert es == init + [last];
      var prev := FirstById(init);
      FirstByIdProperties(init);
      IdsSnoc(init, last);
      forall i | 0 <= i < |es| && FirstOfId(es, i) ensures es[i] in FirstById(es) {
        if i < n {
          assert init[i] == es[i];
          assert FirstOfId(init, i);
        } else {
          assert last.id !in Ids(init) by {
            forall e | e in init ensures e.id != last.id {
              var j :| 0 <= j < n && init[j] == e;
              assert es[j] == e;
            }
          }
        }
      }
      if last.id !in Ids(init) {
        IdsSnoc(prev, last);
        forall i, j | 0 <= i < j < |prev| + 1 ensures (prev + [last])[i].id != (prev + [last])[j].id {
          if j == |prev| {
            assert prev[i] in prev;
          }
        }
      }
    }
  }

  /** Events that already have distinct ids are left as they are. */
  lemma {:induction false} FirstByIdFixpoint(es: seq<ApiEvent>)
    requires DistinctIds(es)
    ensures FirstById(es) == es
    decreases |es|
  {
    if |es| > 0 {
      var n := |es| - 1;
      assert DistinctIds(es[..n]);
      FirstByIdFixpoint(es[..n]);
      assert es[n].id !in Ids(es[..n]) by {
        forall e | e in es[..n] ensures e.id != es[n].id {
          var j :| 0 <= j < n && es[..n][j] == e;
          assert es[j] == e;
        }
      }
      assert es == es[..n] + [es[n]];
    }
  }

  /** De-duplicating twice is de-duplicating once. */
  lemma FirstByIdIdempotent(es: seq<ApiEvent>)
    ensures FirstById(FirstById(es)) == FirstById(es)
  {
    FirstByIdProperties(es);
    FirstByIdFixpoint(FirstById(es));
  }

  /** The `retain` with the set of seen ids. */
  method DedupeById(es: seq<ApiEvent>) returns (kept: seq<ApiEvent>)
    ensures kept == FirstById(es)
  {
    kept := [];
    var seen: set<string> := {};
    for i := 0 to |es|
      invariant kept == FirstById(es[..i]) && seen == Ids(es[..i])
    {
      assert es[..i + 1][..i] == es[..i];
      assert es[..i + 1] == es[..i] + [es[i]];
      IdsSnoc(es[..i], es[i]);
      if es[i].id !in seen {
        kept := kept + [es[i]];
      }
      seen := seen + {es[i].id};
    }
    assert es[..|es|] == es;
  }

  // ---------------------------------------------------------------------
  // Organisation filter
  // ---------------------------------------------------------------------

  /** Whether the event's repository belongs to `org`: its full name starts with "org/". */
  predicate InOrganisation(e: ApiEvent, org: string) {
    StartsWith(e.repoName, org + "/")
  }

  /** The events of `org`'s repositories, in order. */
  function OfOrganisation(es: seq<ApiEvent>, org: string): (r: seq<ApiEvent>)
    ensures |r| <= |es|
    ensures forall e :: e in r <==> e in es && InOrganisation(e, org)
    decreases |es|
  {
    if |es| == 0 then []
    else
      var n := |es| - 1;
      assert es == es[..n] + [es[n]];
      OfOrganisation(es[..n], org) + (if InOrganisation(es[n], org) then [es[n]] else [])
  }

  /** Filtering keeps the ids distinct. */
  lemma {:induction false} OfOrganisationDistinct(es: seq<ApiEvent>, org: string)
    requires DistinctIds(es)
    ensures DistinctIds(OfOrganisation(es, org))
    decreases |es|
  {
    if |es| > 0 {
      var n := |es| - 1;
      assert DistinctIds(es[..n]);
      OfOrganisationDistinct(es[..n], org);
      var prev := OfOrganisation(es[..n], org);
      if InOrganisation(es[n], org) {
        forall i, j | 0 <= i < j < |prev| + 1 ensures (prev + [es[n]])[i].id != (prev + [es[n]])[j].id {
          if j == |prev| {
            assert prev[i] in prev;
            var k :| 0 <= k < n && es[..n][k] == prev[i];
            assert es[k] == prev[i];
          }
        }
      }
    }
  }

  /** The `retain` of the organisation filter; without an organisation, nothing is filtered. */
  method RetainOrganisation(es: seq<ApiEvent>, org: Option<string>) returns (kept: seq<ApiEvent>)
    ensures org.None? ==> kept == es
    ensures org.Some? ==> kept == OfOrganisation(es, org.value)
  {
    if org.None? {
      return es;
    }
    var prefix := org.value + "/";
    kept := [];
    for i := 0 to |es|
      invariant kept == OfOrganisation(es[..i], org.value)
    {
      assert es[..i + 1][..i] == es[..i];
      if StartsWith(es[i].repoName, prefix) {
        kept := kept + [es[i]];
      }
    }
    assert es[..|es|] == es;
  }

  // ---------------------------------------------------------------------
  // Fetch and sync
  // ---------------------------------------------------------------------

  /** The events of the sprints: fetched, de-duplicated, then filtered by organisation. */
  function SprintsEvents(username: string, sprints: seq<Sprint>, now: int, org: Option<string>, fetch: Fetch): seq<ApiEvent> {
    var unique := FirstById(Fetched(username, sprints, now, fetch));
    if org.Some? then OfOrganisation(unique, org.value) else unique
  }

  /**
   * What the sprints' events are: ids distinct, every repository in the
   * organisation, and each event fetched for a sprint that has started.
   */
  lemma SprintsEventsShape(username: string, sprints: seq<Sprint>, now: int, org: Option<string>, fetch: Fetch)
    ensures DistinctIds(SprintsEvents(username, sprints, now, org, fetch))
    ensures org.Some? ==> forall e :: e in SprintsEvents(username, sprints, now, org, fetch) ==> InOrganisation(e, org.value)
    ensures forall e :: e in SprintsEvents(username, sprints, now, org, fetch) ==>
              exists i :: 0 <= i < |sprints| && sprints[i].start.Some? && sprints[i].start.value <= now
                          && e in SprintEvents(username, sprints[i], now, fetch)
  {
    var fetched := Fetched(username, sprints, now, fetch);
    FirstByIdProperties(fetched);
    if org.Some? {
      OfOrganisationDistinct(FirstById(fetched), org.value);
    }
    forall e | e in SprintsEvents(username, sprints, now, org, fetch)
      ensures exists i :: 0 <= i < |sprints| && sprints[i].start.Some? && sprints[i].start.value <= now
                          && e in SprintEvents(username, sprints[i], now, fetch)
    {
      var i := FetchedFrom(username, sprints, now, fetch, e);
    }
  }

  /** The first event of each id fetched for a started sprint is kept, when its repository passes the filter. */
  lemma SprintsEventsKeepFirst(username: string, sprints: seq<Sprint>, now: int, org: Option<string>, fetch: Fetch, i: nat)
    requires i < |Fetched(username, sprints, now, fetch)| && FirstOfId(Fetched(username, sprints, now, fetch), i)
    requires org.Some? ==> InOrganisation(Fetched(username, sprints, now, fetch)[i], org.value)
    ensures Fetched(username, sprints, now, fetch)[i] in SprintsEvents(username, sprints, now, org, fetch)
  {
    FirstByIdProperties(Fetched(username, sprints, now, fetch));
  }

  /**
   * `fetch_events_for_sprints`: an error when `gh` is missing or the user
   * name cannot be read, otherwise the sprints' events.
   */
  method FetchEventsForSprints(configured: bool, username: Result<string, string>, sprints: seq<Sprint>,
                               now: int, org: Option<string>, fetch: Fetch)
    returns (r: Result<seq<ApiEvent>, string>)
    ensures !configured ==> r == Err(NotConfigured)
    ensures configured && username.Err? ==> r == Err(username.error)
    ensures configured && username.Ok? ==> r == Ok(SprintsEvents(username.value, sprints, now, org, fetch))
  {
    if !configured {
      return Err(NotConfigured);
    }
    if username.Err? {
      return Err(username.error);
    }
    var all := FetchAll(username.value, sprints, now, fetch);
    all := DedupeById(all);
    all := RetainOrganisation(all, org);
    return Ok(all);
  }

  /** The stored form of an event: its issues joined with commas, its day. */
  function StoredEvent(e: ApiEvent): (s: GitHubEvent)
    ensures s.id == e.id && s.timestamp == e.createdAt && s.date == DayOf(e.createdAt)
    ensures s.jiraIssues == Join(EventIssues(e), ',') && s.description == ExtractDescription(e)
  {
    GitHubEvent(e.id, e.eventType, e.repoName, e.createdAt, ExtractDescription(e), Join(EventIssues(e), ','), DayOf(e.createdAt))
  }

  function StoredEvents(es: seq<ApiEvent>): (r: seq<GitHubEvent>)
    ensures |r| == |es|
  {
    Mapped(StoredEvent, es)
  }

  /** One stored event per fetched event, in the same order. */
  lemma StoredEventsAt(es: seq<ApiEvent>)
    ensures forall i :: 0 <= i < |es| ==> StoredEvents(es)[i] == StoredEvent(es[i])
  {
    MappedAt(StoredEvent, es);
  }

  /** The conversion loop: each event is saved with its extracted issues and description. */
  method StoreEvents(es: seq<ApiEvent>) returns (saved: seq<GitHubEvent>)
    ensures saved == StoredEvents(es)
  {
    saved := [];
    for i := 0 to |es|
      invariant saved == StoredEvents(es[..i])
    {
      var stored := StoreEvent(es[i]);
      StoredEventsSnoc(es, i);
      saved := saved + [stored];
    }
    assert es[..|es|] == es;
  }

  lemma StoredEventsSnoc(es: seq<ApiEvent>, i: nat)
    requires i < |es|
    ensures StoredEvents(es[..i + 1]) == StoredEvents(es[..i]) + [StoredEvent(es[i])]
  {
    MappedSnoc(StoredEvent, es, i);
  }

  /** One event of that loop, in the form it is saved in. */
  method StoreEvent(e: ApiEvent) returns (stored: GitHubEvent)
    ensures stored == StoredEvent(e)
  {
    var issues := ExtractJiraIssues(e);
    stored := GitHubEvent(e.id, e.eventType, e.repoName, e.createdAt, ExtractDescription(e),
                          Join(issues, ','), DayOf(e.createdAt));
  }

  /**
   * `sync_events_for_sprints`: the same events as the fetch, each saved in
   * its stored form, then the day sessions saved. The counts returned are
   * the number of events and of sessions saved; `days` is the order the
   * days were visited in.
   */
  method SyncEventsForSprints(configured: bool, username: Result<string, string>, sprints: seq<Sprint>,
                              now: int, org: Option<string>, fetch: Fetch, idOf: (string, int, int) -> string)
    returns (r: Result<(nat, nat), string>, savedEvents: seq<GitHubEvent>, sessions: seq<GitHubSession>, ghost days: seq<DateKey>)
    ensures !configured ==> r == Err(SyncNotConfigured) && savedEvents == [] && sessions == []
    ensures configured && username.Err? ==> r == Err(username.error) && savedEvents == [] && sessions == []
    ensures configured && username.Ok? ==>
              var es := SprintsEvents(username.value, sprints, now, org, fetch);
              && savedEvents == StoredEvents(es)
              && (forall d :: d in days <==> DayTemps(es, d) != [])
              && Distinct(days)
              && sessions == SavedFor(es, days, idOf)
              && r == Ok((|savedEvents|, |sessions|))
  {
    savedEvents, sessions, days := [], [], [];
    if !configured {
      return Err(SyncNotConfigured), savedEvents, sessions, days;
    }
    if username.Err? {
      return Err(username.error), savedEvents, sessions, days;
    }
    var all := FetchAll(username.value, sprints, now, fetch);
    all := DedupeById(all);
    all := RetainOrganisation(all, org);
    savedEvents := StoreEvents(all);
    var count;
    sessions, count, days := CalculateAndSaveSessions(all, idOf);
    r := Ok((|savedEvents|, count));
  }
}
