/**
 * The TUI's own types: the data snapshot the screens draw from, the
 * wizard's state, the fetch status, the application events and the event
 * bus that carries them to the subscribers.
 *
 * Hours are kept as whole seconds.
 */
module TuiTypes {
  import opened Wrappers
  import opened Model
  import Achievements

  // ---------------------------------------------------------------------
  // The data snapshot
  // ---------------------------------------------------------------------

  /** `TabUiState`: the selections and filters that survive a data refresh. */
  datatype TabUiState = TabUiState(
    selectedSprintIndex: nat, selectedMeetingIndex: nat, selectedWorklogIndex: nat,
    selectedGithubSessionIndex: nat, filterUnlinkedOnly: bool, filterStagedOnly: bool)

  const DefaultUiState := TabUiState(0, 0, 0, 0, false, false)

  /** `TuiData`: what a refresh collects from the database, with the preserved UI state. */
  datatype TuiData = TuiData(
    sprints: seq<Sprint>, meetings: seq<Meeting>, worklogs: seq<LocalWorklog>,
    histories: seq<LocalWorklogHistory>, sessions: seq<GitHubSession>,
    issuesByKey: map<string, Issue>, dailyLimitSeconds: int, ui: TabUiState)

  // ---------------------------------------------------------------------
  // The wizard
  // ---------------------------------------------------------------------

  datatype WizardStep =
    | Syncing
    | AutoLinking
    | ManualLinking(unlinkedMeetings: seq<Meeting>, selectedIndex: nat)
    | CreatingMeetingWorklogs
    | CreatingGitHubWorklogs(sessions: seq<GitHubSession>, currentSessionIndex: nat)
    | FillingGaps(selectedIssue: Option<string>)
    | ReviewingWorklogs(excludedDays: set<int>)
    | Pushing
    | Complete

  /** `WizardRollbackLog`: what the wizard changed, so that it can be undone. */
  datatype RollbackLog = RollbackLog(
    linkedMeetingIds: seq<string>, createdWorklogIds: seq<string>,
    originalMeetingLinks: map<string, Option<string>>)

  const EmptyRollbackLog := RollbackLog([], [], map[])

  /** `WizardSummary`; `total_hours` is kept as seconds. */
  datatype Summary = Summary(
    meetingsAutoLinked: nat, meetingsManuallyLinked: nat, worklogsFromMeetings: nat,
    worklogsFromGithub: nat, worklogsFromGaps: nat, totalSeconds: int, pushedCount: nat)

  const EmptySummary := Summary(0, 0, 0, 0, 0, 0, 0)

  datatype WizardState = WizardState(
    sprintId: nat, sprintName: string, currentStep: WizardStep, completedSteps: set<nat>,
    summary: Summary, rollbackLog: RollbackLog, skipReasons: map<nat, string>,
    pushLogs: seq<string>, spinnerFrame: nat, pushCurrent: nat, pushTotal: nat,
    startupMessage: Option<string>)

  // ---------------------------------------------------------------------
  // Popups the operations open
  // ---------------------------------------------------------------------

  datatype WorklogSource =
    | FromMeeting(meetingId: string, title: string)
    | FromGitHub(sessionId: string, description: string)

  /** `WorklogCreationConfirmation`, its hour figures as seconds. */
  datatype WorklogCreationConfirmation = WorklogCreationConfirmation(
    source: WorklogSource, issueId: string, date: int,
    requestedSeconds: int, existingSeconds: int, dailyLimitSeconds: int, userInput: string)

  datatype GapFillState = GapFillState(sprintId: nat, allIssues: seq<Issue>, selectedIssueIndex: nat, searchQuery: string)

  datatype IssueSelectionState = IssueSelectionState(meetingId: string, allIssues: seq<Issue>, selectedIssueIndex: nat, searchQuery: string)

  // ---------------------------------------------------------------------
  // Status and events
  // ---------------------------------------------------------------------

  datatype FetchStatus = Idle | Fetching(message: string) | FetchDone | FetchFailed(error: string)

  datatype AppEvent =
    | FetchComplete(data: TuiData)
    | FetchError(error: string)
    | PushComplete(historyId: string)
    | PushProgress(current: nat, total: nat, message: string)
    | PushError(error: string)
    | RevertComplete
    | RevertError(error: string)
    | DataRefreshed(data: TuiData)
    | StatusMessageTimeout
    | AboutPopupOpened
    | AchievementUnlocked(achievement: Achievements.Achievement)
    | SecretSequenceTriggered(sequenceName: string)

  /** The two subscribers the TUI registers, in registration order. */
  datatype Subscriber = WizardEventHandler | AchievementTracker

  const Subscribers: seq<Subscriber> := [WizardEventHandler, AchievementTracker]

  /** The (event, subscriber) calls `process_events` makes: every subscriber for the first event, then the next. */
  function Deliveries(events: seq<AppEvent>, subs: seq<Subscriber>): (r: seq<(AppEvent, Subscriber)>)
    decreases |events|
  {
    if |events| == 0 then []
    else seq(|subs|, j requires 0 <= j < |subs| => (events[0], subs[j])) + Deliveries(events[1..], subs)
  }

  /** Call number `i * |subs| + j` hands event `i` to subscriber `j`: the order is FIFO, then registration order. */
  lemma {:induction false} DeliveriesOrder(events: seq<AppEvent>, subs: seq<Subscriber>, i: nat, j: nat)
    requires i < |events| && j < |subs|
    ensures |Deliveries(events, subs)| == |events| * |subs|
    ensures i * |subs| + j < |Deliveries(events, subs)|
    ensures Deliveries(events, subs)[i * |subs| + j] == (events[i], subs[j])
    decreases |events|
  {
    var n := |subs|;
    DeliveriesLength(events, subs);
    CallIndexBound(i, j, |events|, n);
    var head := seq(n, k requires 0 <= k < n => (events[0], subs[k]));
    var rest := Deliveries(events[1..], subs);
    assert Deliveries(events, subs) == head + rest;
    if i > 0 {
      DeliveriesOrder(events[1..], subs, i - 1, j);
      CallIndexStep(i, j, n);
      assert (head + rest)[i * n + j] == rest[(i - 1) * n + j];
    }
  }

  lemma CallIndexBound(i: nat, j: nat, m: nat, n: nat)
    requires i < m && j < n
    ensures i * n + j < m * n
  {
    assert (i + 1) * n <= m * n;
  }

  lemma CallIndexStep(i: nat, j: nat, n: nat)
    requires i > 0
    ensures (i - 1) * n + j + n == i * n + j
  {
  }

  lemma {:induction false} DeliveriesLength(events: seq<AppEvent>, subs: seq<Subscriber>)
    ensures |Deliveries(events, subs)| == |events| * |subs|
    decreases |events|
  {
    if |events| > 0 {
      DeliveriesLength(events[1..], subs);
    }
  }

  /** Delivering a queue and then one more event is delivering the longer queue. */
  lemma {:induction false} DeliveriesSnoc(events: seq<AppEvent>, e: AppEvent, subs: seq<Subscriber>)
    ensures Deliveries(events + [e], subs) == Deliveries(events, subs) + Deliveries([e], subs)
    decreases |events|
  {
    if |events| > 0 {
      assert (events + [e])[1..] == events[1..] + [e];
      DeliveriesSnoc(events[1..], e, subs);
    }
  }

  /** One event is handed to every subscriber, in registration order. */
  lemma DeliveriesOne(e: AppEvent, subs: seq<Subscriber>)
    ensures Deliveries([e], subs) == seq(|subs|, j requires 0 <= j < |subs| => (e, subs[j]))
  {
    assert [e][1..] == [];
  }

  /**
   * `EventBus`: a FIFO queue of pending events, the registered
   * subscribers, and the history of everything published.
   */
  class EventBus {
    var pending: seq<AppEvent>
    var subscribers: seq<Subscriber>
    var history: seq<AppEvent>

    constructor ()
      ensures pending == [] && subscribers == [] && history == []
    {
      pending, subscribers, history := [], [], [];
    }

    /** `publish`: queue the event and record it. */
    method Publish(e: AppEvent)
      modifies this
      ensures pending == old(pending) + [e]
      ensures history == old(history) + [e]
      ensures subscribers == old(subscribers)
    {
      history := history + [e];
      pending := pending + [e];
    }

    /** `subscribe`: the new subscriber is called after those already registered. */
    method Subscribe(s: Subscriber)
      modifies this
      ensures subscribers == old(subscribers) + [s]
      ensures pending == old(pending) && history == old(history)
    {
      subscribers := subscribers + [s];
    }

    /** `pending_events.pop_front()`. */
    method PopFront() returns (e: Option<AppEvent>)
      modifies this
      ensures old(pending) == [] ==> e == None && pending == []
      ensures old(pending) != [] ==> e == Some(old(pending)[0]) && pending == old(pending)[1..]
      ensures subscribers == old(subscribers) && history == old(history)
    {
      if |pending| == 0 {
        e := None;
      } else {
        e := Some(pending[0]);
        pending := pending[1..];
      }
    }

    /**
     * `process_events`: pop events until the queue is empty and hand each
     * one to every subscriber in turn; `calls` lists those hand-overs.
     */
    method ProcessEvents() returns (calls: seq<(AppEvent, Subscriber)>)
      modifies this
      ensures calls == Deliveries(old(pending), subscribers)
      ensures pending == []
      ensures subscribers == old(subscribers) && history == old(history)
    {
      calls := [];
      ghost var done: seq<AppEvent> := [];
      var next := PopFront();
      while next.Some?
        invariant next.Some? ==> old(pending) == done + [next.value] + pending
        invariant next.None? ==> old(pending) == done && pending == []
        invariant calls == Deliveries(done, subscribers)
        invariant subscribers == old(subscribers) && history == old(history)
        decreases |pending| + (if next.Some? then 1 else 0)
      {
        var event := next.value;
        var subs := subscribers;
        var k := 0;
        while k < |subs|
          invariant 0 <= k <= |subs|
          invariant calls == Deliveries(done, subs) + seq(k, j requires 0 <= j < k => (event, subs[j]))
        {
          calls := calls + [(event, subs[k])];
          k := k + 1;
        }
        DeliveriesOne(event, subs);
        DeliveriesSnoc(done, event, subs);
        done := done + [event];
        next := PopFront();
      }
    }
  }

  /** The bus the TUI builds at start: the wizard handler, then the achievement tracker. */
  method NewTuiBus() returns (bus: EventBus)
    ensures fresh(bus)
    ensures bus.subscribers == Subscribers && bus.pending == [] && bus.history == []
  {
    bus := new EventBus();
    bus.Subscribe(WizardEventHandler);
    bus.Subscribe(AchievementTracker);
  }
}
