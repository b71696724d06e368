/**
 * `AchievementTracker`: the event subscriber that decides which
 * achievements an application event earns, unlocks the ones not yet
 * unlocked and publishes a notice for each of those.
 *
 * The stores it reads (push history, local worklogs by id, the meetings
 * the TUI holds) and the clock are passed in as `Lookups`.
 */
module AchievementTracking {
  import opened Wrappers
  import opened Model
  import opened Achievements
  import opened TuiTypes
  import opened Text

  /** A worklog is old once it started more than sixty days before now. */
  const OldAge: int := 60 * SecondsPerDay
  /** Worklogs on one date that make a push a "squash". */
  const SameDayThreshold: nat := 3
  /** Meetings needed before perfect auto-linking counts. */
  const AutoLinkMinimum: nat := 10

  /**
   * What the tracker looks up besides the event: `get_history_by_id`,
   * `get_local_worklog_by_id`, `tui.data.all_meetings` and `Utc::now()`.
   */
  datatype Lookups = Lookups(
    histories: map<string, LocalWorklogHistory>,
    worklogs: map<string, LocalWorklog>,
    meetings: seq<Meeting>,
    now: int)

  /** The worklog ids a push recorded; none when the history entry is missing. */
  function PushIds(historyId: string, lk: Lookups): (ids: seq<string>)
    ensures historyId !in lk.histories ==> ids == []
  {
    if historyId in lk.histories then lk.histories[historyId].localWorklogsId else []
  }

  // ---------------------------------------------------------------------
  // Timeline Fixer: a worklog older than sixty days
  // ---------------------------------------------------------------------

  predicate IsOld(w: LocalWorklog, now: int) {
    w.started < now - OldAge
  }

  /** Some id names a stored worklog that is old at `now`; ids with no worklog are skipped. */
  predicate HasOldIn(ids: seq<string>, worklogs: map<string, LocalWorklog>, now: int) {
    exists i :: 0 <= i < |ids| && ids[i] in worklogs && IsOld(worklogs[ids[i]], now)
  }

  /** `has_old_worklog_in_push`: the loop stops at the first old worklog. */
  method HasOldWorklogInPush(historyId: string, lk: Lookups) returns (b: bool)
    ensures b <==> historyId in lk.histories && HasOldIn(PushIds(historyId, lk), lk.worklogs, lk.now)
  {
    if historyId !in lk.histories {
      return false;
    }
    var ids := lk.histories[historyId].localWorklogsId;
    var sixtyDaysAgo := lk.now - OldAge;
    for i := 0 to |ids|
      invariant forall k :: 0 <= k < i ==> !(ids[k] in lk.worklogs && IsOld(lk.worklogs[ids[k]], lk.now))
    {
      if ids[i] in lk.worklogs && lk.worklogs[ids[i]].started < sixtyDaysAgo {
        return true;
      }
    }
    return false;
  }

  /** A push that holds an old worklog still holds one later on. */
  lemma OldStaysOld(ids: seq<string>, worklogs: map<string, LocalWorklog>, now: int, later: int)
    requires now <= later && HasOldIn(ids, worklogs, now)
    ensures HasOldIn(ids, worklogs, later)
  {
    var i :| 0 <= i < |ids| && ids[i] in worklogs && IsOld(worklogs[ids[i]], now);
    assert IsOld(worklogs[ids[i]], later);
  }

  // ---------------------------------------------------------------------
  // Git Squash Master: three worklogs on one date
  // ---------------------------------------------------------------------

  /** Whether id `i` names a stored worklog that started on day `d`. */
  predicate OnDay(ids: seq<string>, worklogs: map<string, LocalWorklog>, d: int, i: int)
    requires 0 <= i < |ids|
  {
    ids[i] in worklogs && DayOf(worklogs[ids[i]].started) == d
  }

  /** How many ids name a stored worklog that started on day `d`. */
  function CountOn(ids: seq<string>, worklogs: map<string, LocalWorklog>, d: int): (n: nat)
    ensures n <= |ids|
    decreases |ids|
  {
    if |ids| == 0 then 0
    else CountOn(ids[..|ids| - 1], worklogs, d) + (if OnDay(ids, worklogs, d, |ids| - 1) then 1 else 0)
  }

  /** The positions of the ids that count for day `d`. */
  function PositionsOn(ids: seq<string>, worklogs: map<string, LocalWorklog>, d: int): set<nat> {
    set i: nat | i < |ids| && OnDay(ids, worklogs, d, i)
  }

  /** The running count is the number of positions on that day. */
  lemma {:induction false} CountOnIsPositions(ids: seq<string>, worklogs: map<string, LocalWorklog>, d: int)
    ensures CountOn(ids, worklogs, d) == |PositionsOn(ids, worklogs, d)|
    decreases |ids|
  {
    if |ids| > 0 {
      var n := |ids| - 1;
      var front := ids[..n];
      CountOnIsPositions(front, worklogs, d);
      forall i: nat | i < n ensures OnDay(front, worklogs, d, i) == OnDay(ids, worklogs, d, i) {
        assert front[i] == ids[i];
      }
      if OnDay(ids, worklogs, d, n) {
        assert PositionsOn(ids, worklogs, d) == PositionsOn(front, worklogs, d) + {n};
      } else {
        assert PositionsOn(ids, worklogs, d) == PositionsOn(front, worklogs, d);
      }
    }
  }

  /** Some date has at least three of the push's worklogs. */
  ghost predicate SameDayIn(ids: seq<string>, worklogs: map<string, LocalWorklog>) {
    exists d :: CountOn(ids, worklogs, d) >= SameDayThreshold
  }

  /** `date_counts`: per date, the number of worklogs on it; a date without any has no entry. */
  method DateCounts(ids: seq<string>, worklogs: map<string, LocalWorklog>) returns (counts: map<int, nat>)
    ensures forall d :: d in counts ==> counts[d] == CountOn(ids, worklogs, d) && counts[d] > 0
    ensures forall d :: d !in counts ==> CountOn(ids, worklogs, d) == 0
  {
    counts := map[];
    for i := 0 to |ids|
      invariant forall d :: d in counts ==> counts[d] == CountOn(ids[..i], worklogs, d) && counts[d] > 0
      invariant forall d :: d !in counts ==> CountOn(ids[..i], worklogs, d) == 0
    {
      var next := ids[..i + 1];
      assert next[..i] == ids[..i] && next[i] == ids[i];
      if ids[i] in worklogs {
        var day := DayOf(worklogs[ids[i]].started);
        var c := if day in counts then counts[day] else 0;
        counts := counts[day := c + 1];
      }
    }
    assert ids[..|ids|] == ids;
  }

  /** `has_multiple_pushes_same_day`: some date's count reaches three. */
  method HasMultiplePushesSameDay(historyId: string, lk: Lookups) returns (b: bool)
    ensures b <==> historyId in lk.histories && SameDayIn(PushIds(historyId, lk), lk.worklogs)
  {
    if historyId !in lk.histories {
      return false;
    }
    var ids := lk.histories[historyId].localWorklogsId;
    var counts := DateCounts(ids, lk.worklogs);
    b := exists d | d in counts :: counts[d] >= SameDayThreshold;
    if !b {
      forall d ensures CountOn(ids, lk.worklogs, d) < SameDayThreshold {
        if d in counts {
          assert !(counts[d] >= SameDayThreshold);
        }
      }
    }
  }

  /** The squash condition in terms of positions: three distinct ids on one date. */
  lemma SameDayIff(ids: seq<string>, worklogs: map<string, LocalWorklog>)
    ensures SameDayIn(ids, worklogs) <==> exists d :: |PositionsOn(ids, worklogs, d)| >= SameDayThreshold
  {
    forall d ensures CountOn(ids, worklogs, d) == |PositionsOn(ids, worklogs, d)| {
      CountOnIsPositions(ids, worklogs, d);
    }
  }

  /** Three ids of worklogs that started on one date make a squash. */
  lemma ThreeOnOneDay(ids: seq<string>, worklogs: map<string, LocalWorklog>, i: nat, j: nat, k: nat)
    requires i < j < k < |ids|
    requires ids[i] in worklogs && ids[j] in worklogs && ids[k] in worklogs
    requires DayOf(worklogs[ids[i]].started) == DayOf(worklogs[ids[j]].started) == DayOf(worklogs[ids[k]].started)
    ensures SameDayIn(ids, worklogs)
  {
    var d := DayOf(worklogs[ids[i]].started);
    var ps := PositionsOn(ids, worklogs, d);
    assert {i, j, k} <= ps;
    SubsetCard({i, j, k}, ps);
    CountOnIsPositions(ids, worklogs, d);
  }

  // ---------------------------------------------------------------------
  // Auto-Link Master: every one of at least ten meetings linked
  // ---------------------------------------------------------------------

  /** `has_perfect_auto_linking`. */
  predicate PerfectAutoLinking(meetings: seq<Meeting>) {
    |meetings| >= AutoLinkMinimum && forall m :: m in meetings ==> m.jiraLink.Some?
  }

  /** How many meetings carry a Jira link. */
  function LinkedCount(meetings: seq<Meeting>): (n: nat)
    ensures n <= |meetings|
    decreases |meetings|
  {
    if |meetings| == 0 then 0
    else LinkedCount(meetings[1..]) + (if meetings[0].jiraLink.Some? then 1 else 0)
  }

  /** Perfect auto-linking is "ten meetings or more, and as many links as meetings". */
  lemma {:induction false} PerfectIffAllCounted(meetings: seq<Meeting>)
    ensures PerfectAutoLinking(meetings) <==> |meetings| >= AutoLinkMinimum && LinkedCount(meetings) == |meetings|
  {
    AllLinkedIffCounted(meetings);
  }

  lemma {:induction false} AllLinkedIffCounted(meetings: seq<Meeting>)
    ensures (forall m :: m in meetings ==> m.jiraLink.Some?) <==> LinkedCount(meetings) == |meetings|
    decreases |meetings|
  {
    if |meetings| > 0 {
      AllLinkedIffCounted(meetings[1..]);
      assert meetings == [meetings[0]] + meetings[1..];
    }
  }

  /** One unlinked meeting spoils it, however many others are linked. */
  lemma UnlinkedSpoils(meetings: seq<Meeting>, i: nat)
    requires i < |meetings| && meetings[i].jiraLink.None?
    ensures !PerfectAutoLinking(meetings)
  {
    assert meetings[i] in meetings;
  }

  // ---------------------------------------------------------------------
  // Declined But Logged: a worklog logged for a declined meeting
  // ---------------------------------------------------------------------

  /** `iter().find`: the first meeting with that id. */
  function FindMeeting(meetings: seq<Meeting>, id: string): (r: Option<Meeting>)
    ensures r.None? <==> forall k :: 0 <= k < |meetings| ==> meetings[k].id != id
    ensures r.Some? ==> exists k :: 0 <= k < |meetings| && meetings[k] == r.value && r.value.id == id
                          && forall j :: 0 <= j < k ==> meetings[j].id != id
    decreases |meetings|
  {
    if |meetings| == 0 then None
    else if meetings[0].id == id then Some(meetings[0])
    else
      var r := FindMeeting(meetings[1..], id);
      assert forall k :: 0 < k < |meetings| ==> meetings[k] == meetings[1..][k - 1];
      if r.Some? then
        var k :| 0 <= k < |meetings[1..]| && meetings[1..][k] == r.value && r.value.id == id
                 && forall j :: 0 <= j < k ==> meetings[1..][j].id != id;
        assert meetings[k + 1] == r.value;
        r
      else r
  }

  /** The response status is exactly "declined"; a missing status is not. */
  predicate IsDeclined(m: Meeting) {
    m.myResponseStatus == Some("declined")
  }

  /** The worklog's meeting is found, and it was declined. */
  predicate LinksDeclined(w: LocalWorklog, meetings: seq<Meeting>) {
    w.meetingId.Some? && FindMeeting(meetings, w.meetingId.value).Some? && IsDeclined(FindMeeting(meetings, w.meetingId.value).value)
  }

  predicate HasDeclinedIn(ids: seq<string>, worklogs: map<string, LocalWorklog>, meetings: seq<Meeting>) {
    exists i :: 0 <= i < |ids| && ids[i] in worklogs && LinksDeclined(worklogs[ids[i]], meetings)
  }

  /** `has_declined_meeting_worklog`: the loop stops at the first worklog of a declined meeting. */
  method HasDeclinedMeetingWorklog(historyId: string, lk: Lookups) returns (b: bool)
    ensures b <==> historyId in lk.histories && HasDeclinedIn(PushIds(historyId, lk), lk.worklogs, lk.meetings)
  {
    if historyId !in lk.histories {
      return false;
    }
    var ids := lk.histories[historyId].localWorklogsId;
    for i := 0 to |ids|
      invariant forall k :: 0 <= k < i ==> !(ids[k] in lk.worklogs && LinksDeclined(lk.worklogs[ids[k]], lk.meetings))
    {
      if ids[i] in lk.worklogs {
        var w := lk.worklogs[ids[i]];
        if w.meetingId.Some? {
          var found := FindMeeting(lk.meetings, w.meetingId.value);
          if found.Some? && found.value.myResponseStatus.Some? && found.value.myResponseStatus.value == "declined" {
            return true;
          }
        }
      }
    }
    return false;
  }

  /** Only the first meeting with an id decides: a declined duplicate further on does not count. */
  lemma FirstMeetingDecides(meetings: seq<Meeting>, w: LocalWorklog, k: nat)
    requires w.meetingId.Some? && k < |meetings| && meetings[k].id == w.meetingId.value
    requires forall j :: 0 <= j < k ==> meetings[j].id != w.meetingId.value
    ensures LinksDeclined(w, meetings) <==> IsDeclined(meetings[k])
  {
    var r := FindMeeting(meetings, w.meetingId.value);
    var k' :| 0 <= k' < |meetings| && meetings[k'] == r.value && r.value.id == w.meetingId.value
              && forall j :: 0 <= j < k' ==> meetings[j].id != w.meetingId.value;
    assert k' == k;
  }

  // ---------------------------------------------------------------------
  // Candidates
  // ---------------------------------------------------------------------

  /** The condition under which an event earns `a`, achievement by achievement. */
  ghost predicate Earns(a: Achievement, e: AppEvent, hasWizard: bool, lk: Lookups) {
    match a
    case ChroniesApprentice => e.PushComplete? && hasWizard
    case TimelineFixer =>
      e.PushComplete? && e.historyId in lk.histories && HasOldIn(PushIds(e.historyId, lk), lk.worklogs, lk.now)
    case GitSquashMaster =>
      e.PushComplete? && e.historyId in lk.histories && SameDayIn(PushIds(e.historyId, lk), lk.worklogs)
    case DeclinedButLogged =>
      e.PushComplete? && e.historyId in lk.histories && HasDeclinedIn(PushIds(e.historyId, lk), lk.worklogs, lk.meetings)
    case TheUndoer => e.RevertComplete?
    case AboutClicker => e.AboutPopupOpened?
    case ChroniesFriend => e.SecretSequenceTriggered? && e.sequenceName == "chronie"
    case AutoLinkMaster => (e.FetchComplete? || e.DataRefreshed?) && PerfectAutoLinking(lk.meetings)
  }

  function When(c: bool, a: Achievement): (r: seq<Achievement>)
    ensures r == (if c then [a] else [])
  {
    if c then [a] else []
  }

  /**
   * The candidates of `check_unlock_candidates`, in the order it pushes
   * them: exactly the achievements the event earns, each once.
   */
  ghost function Candidates(e: AppEvent, hasWizard: bool, lk: Lookups): (r: seq<Achievement>)
    ensures |r| <= 4
  {
    match e
    case PushComplete(h) =>
      var ids := PushIds(h, lk);
      PushCandidates(hasWizard, h in lk.histories && HasOldIn(ids, lk.worklogs, lk.now),
                     h in lk.histories && SameDayIn(ids, lk.worklogs),
                     h in lk.histories && HasDeclinedIn(ids, lk.worklogs, lk.meetings))
    case RevertComplete => [TheUndoer]
    case AboutPopupOpened => [AboutClicker]
    case SecretSequenceTriggered(name) => When(name == "chronie", ChroniesFriend)
    case FetchComplete(_) => When(PerfectAutoLinking(lk.meetings), AutoLinkMaster)
    case DataRefreshed(_) => When(PerfectAutoLinking(lk.meetings), AutoLinkMaster)
    case _ => []
  }

  /** The four checks of a completed push, in the order they are pushed. */
  function PushCandidates(wizard: bool, old_: bool, squash: bool, declined: bool): (r: seq<Achievement>)
    ensures |r| <= 4
  {
    When(wizard, ChroniesApprentice) + When(old_, TimelineFixer) + When(squash, GitSquashMaster)
    + When(declined, DeclinedButLogged)
  }

  /** A completed push lists exactly the rules that held. */
  lemma PushCandidatesMembers(wizard: bool, old_: bool, squash: bool, declined: bool, a: Achievement)
    ensures a in PushCandidates(wizard, old_, squash, declined)
            <==> match a
                 case ChroniesApprentice => wizard
                 case TimelineFixer => old_
                 case GitSquashMaster => squash
                 case DeclinedButLogged => declined
                 case _ => false
  {
    var r := PushCandidates(wizard, old_, squash, declined);
    var a1, a2, a3 := When(wizard, ChroniesApprentice), When(old_, TimelineFixer), When(squash, GitSquashMaster);
    assert r == a1 + a2 + a3 + When(declined, DeclinedButLogged);
    assert a in r <==> a in a1 || a in a2 || a in a3 || a in When(declined, DeclinedButLogged);
  }

  /** ... and each of them once. */
  lemma PushCandidatesDistinct(wizard: bool, old_: bool, squash: bool, declined: bool)
    ensures var r := PushCandidates(wizard, old_, squash, declined); forall i, j :: 0 <= i < j < |r| ==> r[i] != r[j]
  {
    var head := When(wizard, ChroniesApprentice);
    var tail := When(old_, TimelineFixer) + When(squash, GitSquashMaster) + When(declined, DeclinedButLogged);
    assert PushCandidates(wizard, old_, squash, declined) == head + tail;
    PushTailDistinct(old_, squash, declined);
  }

  /** The last three checks, by cases. */
  lemma PushTailDistinct(old_: bool, squash: bool, declined: bool)
    ensures var r := When(old_, TimelineFixer) + When(squash, GitSquashMaster) + When(declined, DeclinedButLogged);
            (forall i, j :: 0 <= i < j < |r| ==> r[i] != r[j]) && ChroniesApprentice !in r
  {
    if old_ {
      if squash {
        if declined {
        } else {
        }
      } else {
        if declined {
        } else {
        }
      }
    } else {
      if squash {
        if declined {
        } else {
        }
      } else {
        if declined {
        } else {
        }
      }
    }
  }

  /** The candidates are exactly the achievements the event earns. */
  lemma CandidatesEarned(e: AppEvent, hasWizard: bool, lk: Lookups)
    ensures forall a :: a in Candidates(e, hasWizard, lk) <==> Earns(a, e, hasWizard, lk)
  {
    forall a {
      CandidateEarned(e, hasWizard, lk, a);
    }
  }

  lemma CandidateEarned(e: AppEvent, hasWizard: bool, lk: Lookups, a: Achievement)
    ensures a in Candidates(e, hasWizard, lk) <==> Earns(a, e, hasWizard, lk)
  {
    if e.PushComplete? {
      var h := e.historyId;
      var ids := PushIds(h, lk);
      PushCandidatesMembers(hasWizard, h in lk.histories && HasOldIn(ids, lk.worklogs, lk.now),
                          h in lk.histories && SameDayIn(ids, lk.worklogs),
                          h in lk.histories && HasDeclinedIn(ids, lk.worklogs, lk.meetings), a);
    }
  }

  /** No achievement is a candidate twice. */
  lemma CandidatesDistinct(e: AppEvent, hasWizard: bool, lk: Lookups)
    ensures var r := Candidates(e, hasWizard, lk); forall i, j :: 0 <= i < j < |r| ==> r[i] != r[j]
  {
    if e.PushComplete? {
      var h := e.historyId;
      var ids := PushIds(h, lk);
      PushCandidatesDistinct(hasWizard, h in lk.histories && HasOldIn(ids, lk.worklogs, lk.now),
                          h in lk.histories && SameDayIn(ids, lk.worklogs),
                          h in lk.histories && HasDeclinedIn(ids, lk.worklogs, lk.meetings));
    }
  }

  /** `check_unlock_candidates`. */
  method CheckUnlockCandidates(e: AppEvent, hasWizard: bool, lk: Lookups) returns (cs: seq<Achievement>)
    ensures cs == Candidates(e, hasWizard, lk)
  {
    cs := [];
    match e {
      case PushComplete(h) =>
        cs := CheckPush(h, hasWizard, lk);
      case RevertComplete =>
        cs := [TheUndoer];
      case AboutPopupOpened =>
        cs := [AboutClicker];
      case SecretSequenceTriggered(name) =>
        if name == "chronie" {
          cs := [ChroniesFriend];
        }
      case FetchComplete(_) =>
        if PerfectAutoLinking(lk.meetings) {
          cs := [AutoLinkMaster];
        }
      case DataRefreshed(_) =>
        if PerfectAutoLinking(lk.meetings) {
          cs := [AutoLinkMaster];
        }
      case _ =>
    }
  }

  /** Four conditional pushes build the push candidates. */
  lemma PushSteps(c1: seq<Achievement>, c2: seq<Achievement>, c3: seq<Achievement>, c4: seq<Achievement>,
                  wizard: bool, old_: bool, squash: bool, declined: bool)
    requires c1 == When(wizard, ChroniesApprentice)
    requires c2 == c1 + When(old_, TimelineFixer)
    requires c3 == c2 + When(squash, GitSquashMaster)
    requires c4 == c3 + When(declined, DeclinedButLogged)
    ensures c4 == PushCandidates(wizard, old_, squash, declined)
  {
  }

  /** The `PushComplete` arm of `check_unlock_candidates`. */
  method CheckPush(h: string, hasWizard: bool, lk: Lookups) returns (cs: seq<Achievement>)
    ensures cs == PushCandidates(hasWizard, h in lk.histories && HasOldIn(PushIds(h, lk), lk.worklogs, lk.now),
                                 h in lk.histories && SameDayIn(PushIds(h, lk), lk.worklogs),
                                 h in lk.histories && HasDeclinedIn(PushIds(h, lk), lk.worklogs, lk.meetings))
  {
    cs := [];
    if hasWizard {
      cs := cs + [ChroniesApprentice];
    }
    ghost var c1 := cs;
    var old_ := HasOldWorklogInPush(h, lk);
    if old_ {
      cs := cs + [TimelineFixer];
    }
    ghost var c2 := cs;
    var squash := HasMultiplePushesSameDay(h, lk);
    if squash {
      cs := cs + [GitSquashMaster];
    }
    ghost var c3 := cs;
    var declined := HasDeclinedMeetingWorklog(h, lk);
    if declined {
      cs := cs + [DeclinedButLogged];
    }
    PushSteps(c1, c2, c3, cs, hasWizard, old_, squash, declined);
  }

  /** A secret sequence other than "chronie", and the events without a rule, earn nothing. */
  lemma NothingElseEarns(e: AppEvent, hasWizard: bool, lk: Lookups)
    requires (e.SecretSequenceTriggered? && e.sequenceName != "chronie")
             || e.FetchError? || e.PushProgress? || e.PushError? || e.RevertError?
             || e.StatusMessageTimeout? || e.AchievementUnlocked?
    ensures Candidates(e, hasWizard, lk) == []
  {
  }

  // ---------------------------------------------------------------------
  // on_event
  // ---------------------------------------------------------------------

  /** The candidates that have no unlock record yet, in candidate order. */
  function NewlyUnlocked(cs: seq<Achievement>, us: seq<AchievementUnlock>): (r: seq<Achievement>)
    ensures |r| <= |cs|
    decreases |cs|
  {
    if |cs| == 0 then []
    else
      var n := |cs| - 1;
      NewlyUnlocked(cs[..n], us) + (if cs[n] in Named(us) then [] else [cs[n]])
  }

  /** Exactly the candidates without a record are newly unlocked. */
  lemma {:induction false} NewlyUnlockedMembers(cs: seq<Achievement>, us: seq<AchievementUnlock>)
    ensures forall a :: a in NewlyUnlocked(cs, us) <==> a in cs && a !in Named(us)
    decreases |cs|
  {
    if |cs| > 0 {
      var n := |cs| - 1;
      NewlyUnlockedMembers(cs[..n], us);
      assert cs == cs[..n] + [cs[n]];
    }
  }

  /** The records `unlock` appends for those achievements. */
  function Records(as_: seq<Achievement>, now: int): (r: seq<AchievementUnlock>)
    ensures |r| == |as_|
    ensures forall k :: 0 <= k < |r| ==> r[k] == AchievementUnlock(as_[k], now)
  {
    seq(|as_|, k requires 0 <= k < |as_| => AchievementUnlock(as_[k], now))
  }

  /** The `AchievementUnlocked` notices `handle_unlock` publishes. */
  function Notices(as_: seq<Achievement>): (r: seq<AppEvent>)
    ensures |r| == |as_|
    ensures forall k :: 0 <= k < |r| ==> r[k] == AchievementUnlocked(as_[k])
  {
    seq(|as_|, k requires 0 <= k < |as_| => AchievementUnlocked(as_[k]))
  }

  lemma NamedAppend(us: seq<AchievementUnlock>, vs: seq<AchievementUnlock>)
    ensures Named(us + vs) == Named(us) + Named(vs)
  {
    var w := us + vs;
    forall a ensures a in Named(w) <==> a in Named(us) || a in Named(vs) {
      if a in Named(w) {
        var i :| 0 <= i < |w| && w[i].achievement == a;
        if i >= |us| {
          assert vs[i - |us|].achievement == a;
        }
      }
      if a in Named(us) {
        var i :| 0 <= i < |us| && us[i].achievement == a;
        assert w[i].achievement == a;
      }
      if a in Named(vs) {
        var i :| 0 <= i < |vs| && vs[i].achievement == a;
        assert w[|us| + i].achievement == a;
      }
    }
  }

  lemma NamedRecords(as_: seq<Achievement>, now: int)
    ensures forall a :: a in Named(Records(as_, now)) <==> a in as_
  {
    var rs := Records(as_, now);
    forall a ensures a in Named(rs) <==> a in as_ {
      if a in as_ {
        var k :| 0 <= k < |as_| && as_[k] == a;
        assert rs[k].achievement == a;
      }
    }
  }

  lemma NewlySnoc(done: seq<Achievement>, c: Achievement, us: seq<AchievementUnlock>)
    ensures NewlyUnlocked(done + [c], us) == NewlyUnlocked(done, us) + (if c in Named(us) then [] else [c])
  {
    assert (done + [c])[..|done|] == done;
  }

  /** A candidate not offered yet is unlocked exactly when it was unlocked before the event. */
  lemma UnlockedSoFar(done: seq<Achievement>, c: Achievement, us: seq<AchievementUnlock>, now: int)
    requires c !in done
    ensures c in Named(us + Records(NewlyUnlocked(done, us), now)) <==> c in Named(us)
  {
    NewlyUnlockedMembers(done, us);
    NamedAppend(us, Records(NewlyUnlocked(done, us), now));
    NamedRecords(NewlyUnlocked(done, us), now);
  }

  lemma RecordsNoticesSnoc(done: seq<Achievement>, a: Achievement, now: int)
    ensures Records(done + [a], now) == Records(done, now) + [AchievementUnlock(a, now)]
    ensures Notices(done + [a]) == Notices(done) + [AchievementUnlocked(a)]
  {
  }

  /** The unlock records of `data` name `a` exactly when `a` is unlocked. */
  lemma UnlockedIffNamed(data: AchievementData, a: Achievement)
    ensures data.IsUnlocked(a) <==> a in Named(data.unlocks)
  {
  }

  /** The loop of `on_event`: offer each candidate to `unlock`, and announce the ones it adds. */
  method OfferAll(cs: seq<Achievement>, now: int, data: AchievementData, bus: EventBus)
    requires data.Valid()
    requires forall p, q :: 0 <= p < q < |cs| ==> cs[p] != cs[q]
    modifies data, bus
    ensures data.Valid()
    ensures data.unlocks == old(data.unlocks) + Records(NewlyUnlocked(cs, old(data.unlocks)), now)
    ensures bus.pending == old(bus.pending) + Notices(NewlyUnlocked(cs, old(data.unlocks)))
    ensures bus.history == old(bus.history) + Notices(NewlyUnlocked(cs, old(data.unlocks)))
    ensures bus.subscribers == old(bus.subscribers)
  {
    for i := 0 to |cs|
      invariant data.Valid()
      invariant data.unlocks == old(data.unlocks) + Records(NewlyUnlocked(cs[..i], old(data.unlocks)), now)
      invariant bus.pending == old(bus.pending) + Notices(NewlyUnlocked(cs[..i], old(data.unlocks)))
      invariant bus.history == old(bus.history) + Notices(NewlyUnlocked(cs[..i], old(data.unlocks)))
      invariant bus.subscribers == old(bus.subscribers)
    {
      assert cs[i] !in cs[..i];
      OfferOne(cs[..i], cs[i], now, data, bus, old(data.unlocks), old(bus.pending), old(bus.history));
      PrefixSnoc(cs, i);
    }
    assert cs[..|cs|] == cs;
  }

  /** One pass of that loop: the candidate after `done`, which was not among them. */
  method OfferOne(done: seq<Achievement>, c: Achievement, now: int, data: AchievementData, bus: EventBus,
                  ghost before: seq<AchievementUnlock>, ghost pending0: seq<AppEvent>, ghost history0: seq<AppEvent>)
    requires data.Valid() && c !in done
    requires data.unlocks == before + Records(NewlyUnlocked(done, before), now)
    requires bus.pending == pending0 + Notices(NewlyUnlocked(done, before))
    requires bus.history == history0 + Notices(NewlyUnlocked(done, before))
    modifies data, bus
    ensures data.Valid()
    ensures data.unlocks == before + Records(NewlyUnlocked(done + [c], before), now)
    ensures bus.pending == pending0 + Notices(NewlyUnlocked(done + [c], before))
    ensures bus.history == history0 + Notices(NewlyUnlocked(done + [c], before))
    ensures bus.subscribers == old(bus.subscribers)
  {
    ghost var pre, pending, history := data.unlocks, bus.pending, bus.history;
    UnlockedIffNamed(data, c);
    var added := data.Unlock(c, now);
    if added {
      bus.Publish(AchievementUnlocked(c));
    }
    OfferedNext(done, c, now, before, pre, added);
    ghost var sofar, next := NewlyUnlocked(done, before), NewlyUnlocked(done + [c], before);
    Offered(sofar, next, c, now, before, pre, data.unlocks, added);
    OfferedNotices(pending0, sofar, next, c, pending, bus.pending, added);
    OfferedNotices(history0, sofar, next, c, history, bus.history, added);
  }

  /** One offer adds the candidate to the newly unlocked ones exactly when it had no record. */
  lemma OfferedNext(done: seq<Achievement>, c: Achievement, now: int, before: seq<AchievementUnlock>,
                    pre: seq<AchievementUnlock>, added: bool)
    requires c !in done && pre == before + Records(NewlyUnlocked(done, before), now)
    requires added <==> c !in Named(pre)
    ensures NewlyUnlocked(done + [c], before) == if added then NewlyUnlocked(done, before) + [c] else NewlyUnlocked(done, before)
  {
    UnlockedSoFar(done, c, before, now);
    NewlySnoc(done, c, before);
  }

  /** The records after one offer. */
  lemma Offered(sofar: seq<Achievement>, next: seq<Achievement>, c: Achievement, now: int, before: seq<AchievementUnlock>,
                pre: seq<AchievementUnlock>, after: seq<AchievementUnlock>, added: bool)
    requires pre == before + Records(sofar, now)
    requires next == if added then sofar + [c] else sofar
    requires after == if added then pre + [AchievementUnlock(c, now)] else pre
    ensures after == before + Records(next, now)
  {
    if added {
      RecordsNoticesSnoc(sofar, c, now);
    }
  }

  /** The notices after one offer. */
  lemma OfferedNotices(start: seq<AppEvent>, sofar: seq<Achievement>, next: seq<Achievement>, c: Achievement,
                       pre: seq<AppEvent>, after: seq<AppEvent>, added: bool)
    requires pre == start + Notices(sofar)
    requires next == if added then sofar + [c] else sofar
    requires after == if added then pre + [AchievementUnlocked(c)] else pre
    ensures after == start + Notices(next)
  {
    if added {
      RecordsNoticesSnoc(sofar, c, 0);
    }
  }

  /**
   * `on_event`: every candidate is offered to `unlock`; each one newly
   * unlocked gets a record and an `AchievementUnlocked` notice on the bus,
   * in candidate order, and nothing else is published.
   */
  method OnEvent(e: AppEvent, hasWizard: bool, lk: Lookups, data: AchievementData, bus: EventBus)
    requires data.Valid()
    modifies data, bus
    ensures data.Valid()
    ensures data.unlocks == old(data.unlocks) + Records(NewlyUnlocked(Candidates(e, hasWizard, lk), old(data.unlocks)), lk.now)
    ensures bus.pending == old(bus.pending) + Notices(NewlyUnlocked(Candidates(e, hasWizard, lk), old(data.unlocks)))
    ensures bus.history == old(bus.history) + Notices(NewlyUnlocked(Candidates(e, hasWizard, lk), old(data.unlocks)))
    ensures bus.subscribers == old(bus.subscribers)
  {
    var cs := CheckUnlockCandidates(e, hasWizard, lk);
    CandidatesDistinct(e, hasWizard, lk);
    OfferAll(cs, lk.now, data, bus);
  }

  /** A notice names a candidate of the event that had not been unlocked before, and every such candidate gets one. */
  lemma NoticeOnlyWhenNew(cs: seq<Achievement>, us: seq<AchievementUnlock>, a: Achievement)
    ensures AchievementUnlocked(a) in Notices(NewlyUnlocked(cs, us)) <==> a in cs && a !in Named(us)
  {
    var r := NewlyUnlocked(cs, us);
    var ns := Notices(r);
    NewlyUnlockedMembers(cs, us);
    if AchievementUnlocked(a) in ns {
      var k :| 0 <= k < |ns| && ns[k] == AchievementUnlocked(a);
      assert r[k] == a;
    }
    if a in cs && a !in Named(us) {
      var k :| 0 <= k < |r| && r[k] == a;
      assert ns[k] == AchievementUnlocked(a);
    }
  }

  /** Handling the same event a second time unlocks nothing more and publishes nothing. */
  lemma {:induction false} SecondTimeNothingNew(cs: seq<Achievement>, us: seq<AchievementUnlock>, now: int)
    ensures NewlyUnlocked(cs, us + Records(NewlyUnlocked(cs, us), now)) == []
  {
    var r := NewlyUnlocked(cs, us);
    var after := us + Records(r, now);
    NamedAppend(us, Records(r, now));
    NamedRecords(r, now);
    NewlyUnlockedMembers(cs, us);
    forall a | a in cs ensures a in Named(after) {
      if a !in Named(us) {
        assert a in r;
      }
    }
    AllNamedNoneNew(cs, after);
  }

  /** When every candidate already has a record, none is newly unlocked. */
  lemma {:induction false} AllNamedNoneNew(cs: seq<Achievement>, us: seq<AchievementUnlock>)
    requires forall a :: a in cs ==> a in Named(us)
    ensures NewlyUnlocked(cs, us) == []
    decreases |cs|
  {
    if |cs| > 0 {
      var n := |cs| - 1;
      assert cs[n] in cs;
      assert forall a :: a in cs[..n] ==> a in cs;
      AllNamedNoneNew(cs[..n], us);
    }
  }
}
