/**
 * The TUI's meeting operations: unlinking a meeting, linking one (directly
 * when it names exactly one known issue, else through the issue-selection
 * popup), and auto-linking every unlinked meeting of the snapshot.
 *
 * `MeetingsService::get_meeting_by_id` and `save` are lookups and inserts
 * in the meeting store; the wizard's auto-linking step runs the same loop
 * and is modelled with it.
 */
module MeetingOps {
  import opened Wrappers
  import opened Text
  import opened Lex
  import opened Tree
  import opened IssueKeys
  import opened Model
  import opened Storage
  import opened TuiTypes
  import opened TuiState

  /** `MeetingsService::save`. */
  method SaveMeeting(db: Db, m: Meeting)
    requires db.Valid()
    modifies db`meetings
    ensures db.Valid()
    ensures db.meetings == Insert(old(db.meetings), m.id, m)
  {
    InsertKeepsMeetingsKeyed(db.meetings, m);
    db.meetings := Insert(db.meetings, m.id, m);
  }

  lemma MeetingKeyIsId(r: seq<(string, Meeting)>, k: string)
    requires MeetingsKeyed(r) && Get(r, k).Some?
    ensures Get(r, k).value.id == k
  {
    var j :| 0 <= j < |r| && r[j] == (k, Get(r, k).value);
  }

  // ---------------------------------------------------------------------
  // Unlink
  // ---------------------------------------------------------------------

  /** `unlink_meeting`: a stored meeting loses its link and a refresh starts; an unknown id changes nothing. */
  method UnlinkMeeting(tui: Tui, db: Db, meetingId: string)
    requires db.Valid()
    modifies db`meetings, tui`refreshPending
    ensures db.Valid()
    ensures Get(old(db.meetings), meetingId).None? ==>
              db.meetings == old(db.meetings) && tui.refreshPending == old(tui.refreshPending)
    ensures Get(old(db.meetings), meetingId).Some? ==>
              && db.meetings == Insert(old(db.meetings), meetingId, Get(old(db.meetings), meetingId).value.(jiraLink := None))
              && tui.refreshPending == if old(tui.refreshPending).Some? then old(tui.refreshPending) else Some(tui.data.ui)
  {
    var found := Get(db.meetings, meetingId);
    if found.Some? {
      MeetingKeyIsId(db.meetings, meetingId);
      SaveMeeting(db, found.value.(jiraLink := None));
      tui.RefreshData();
    }
  }

  /** After an unlink the meeting has no link and every other meeting is as it was. */
  lemma UnlinkLookup(r: seq<(string, Meeting)>, meetingId: string, k: string)
    requires MeetingsKeyed(r) && Get(r, meetingId).Some?
    ensures var after := Insert(r, meetingId, Get(r, meetingId).value.(jiraLink := None));
            && Get(after, meetingId).Some? && Get(after, meetingId).value.jiraLink.None?
            && (k != meetingId ==> Get(after, k) == Get(r, k))
  {
    var m := Get(r, meetingId).value.(jiraLink := None);
    GetInsert(r, meetingId, m, meetingId);
    GetInsert(r, meetingId, m, k);
  }

  // ---------------------------------------------------------------------
  // Link
  // ---------------------------------------------------------------------

  /** Keys of the bounded pattern in an optional text, uppercased; no text, no keys. */
  function KeysIn(text: Option<string>): (r: seq<string>)
    ensures text.None? ==> r == []
    ensures text.Some? ==> r == UpperBoundedKeys(text.value)
  {
    match text
    case None => []
    case Some(t) => UpperBoundedKeys(t)
  }

  /** `potential_issues`: the keys in the title, then the description, uppercased, sorted, de-duplicated. */
  function LinkCandidates(m: Meeting): (r: seq<string>)
    ensures StrictlySorted(r)
    ensures forall k :: k in r <==> k in KeysIn(m.title) || k in KeysIn(m.description)
  {
    SortDedup(KeysIn(m.title) + KeysIn(m.description))
  }

  /** Every candidate is an uppercased match of `\b[A-Z][A-Z0-9]+-\d+\b`, case-insensitively. */
  lemma CandidatesAreUpperKeys(m: Meeting, k: string)
    requires k in LinkCandidates(m)
    ensures exists w :: IsBoundedKey(w) && k == ToUpper(w)
    ensures NoLowercase(k)
  {
    var t := if k in KeysIn(m.title) then m.title else m.description;
    var ks := BoundedKeys(t.value);
    var i :| 0 <= i < |UpperBoundedKeys(t.value)| && UpperBoundedKeys(t.value)[i] == k;
    assert IsBoundedKey(ks[i]) && k == ToUpper(ks[i]);
    UpperHasNoLowercase(ks[i]);
  }

  /** `issue_usage`: how many meetings of the snapshot link to a key. */
  function Usage(meetings: seq<Meeting>, key: string): (n: nat)
    ensures n <= |meetings|
    ensures n == 0 <==> forall i :: 0 <= i < |meetings| ==> meetings[i].jiraLink != Some(key)
  {
    if |meetings| == 0 then 0
    else (if meetings[0].jiraLink == Some(key) then 1 else 0) + Usage(meetings[1..], key)
  }

  /**
   * The popup's order: extracted issues first, then higher usage, then
   * the lower key.
   */
  predicate IssueBefore(a: Issue, b: Issue, extracted: seq<string>, meetings: seq<Meeting>) {
    var ae := a.key in extracted;
    var be := b.key in extracted;
    if ae != be then ae
    else
      var ua := Usage(meetings, a.key);
      var ub := Usage(meetings, b.key);
      ua > ub || (ua == ub && Less(a.key, b.key))
  }

  lemma IssueBeforeTransitive(a: Issue, b: Issue, c: Issue, extracted: seq<string>, meetings: seq<Meeting>)
    requires IssueBefore(a, b, extracted, meetings) && IssueBefore(b, c, extracted, meetings)
    ensures IssueBefore(a, c, extracted, meetings)
  {
    if (a.key in extracted) == (c.key in extracted) && Usage(meetings, a.key) == Usage(meetings, c.key) {
      LessTransitive(a.key, b.key, c.key);
    }
  }

  lemma IssueBeforeIrreflexive(a: Issue, extracted: seq<string>, meetings: seq<Meeting>)
    ensures !IssueBefore(a, a, extracted, meetings)
  {
    LessIrreflexive(a.key);
  }

  /** Two issues with different keys are ordered one way or the other. */
  lemma IssueBeforeTotal(a: Issue, b: Issue, extracted: seq<string>, meetings: seq<Meeting>)
    requires a.key != b.key
    ensures IssueBefore(a, b, extracted, meetings) || IssueBefore(b, a, extracted, meetings)
  {
    LessTotal(a.key, b.key);
  }

  predicate InPopupOrder(issues: seq<Issue>, extracted: seq<string>, meetings: seq<Meeting>) {
    forall i, j :: 0 <= i < j < |issues| ==> !IssueBefore(issues[j], issues[i], extracted, meetings)
  }

  /** One step of the stable sort: before the first issue it comes before. */
  function InsertIssue(sorted: seq<Issue>, x: Issue, extracted: seq<string>, meetings: seq<Meeting>): (r: seq<Issue>)
    ensures multiset(r) == multiset(sorted) + multiset{x}
    decreases |sorted|
  {
    if |sorted| == 0 then [x]
    else if IssueBefore(x, sorted[0], extracted, meetings) then [x] + sorted
    else
      assert sorted == [sorted[0]] + sorted[1..];
      [sorted[0]] + InsertIssue(sorted[1..], x, extracted, meetings)
  }

  /** `sort_by` with the popup's comparator. */
  function PopupOrder(issues: seq<Issue>, extracted: seq<string>, meetings: seq<Meeting>): (r: seq<Issue>)
    ensures multiset(r) == multiset(issues)
    decreases |issues|
  {
    if |issues| == 0 then []
    else
      var n := |issues| - 1;
      assert issues == issues[..n] + [issues[n]];
      InsertIssue(PopupOrder(issues[..n], extracted, meetings), issues[n], extracted, meetings)
  }

  lemma {:induction false} InsertIssueInOrder(sorted: seq<Issue>, x: Issue, extracted: seq<string>, meetings: seq<Meeting>)
    requires InPopupOrder(sorted, extracted, meetings)
    ensures InPopupOrder(InsertIssue(sorted, x, extracted, meetings), extracted, meetings)
    decreases |sorted|
  {
    if |sorted| == 0 {
    } else if IssueBefore(x, sorted[0], extracted, meetings) {
      forall j | 0 <= j < |sorted| ensures !IssueBefore(sorted[j], x, extracted, meetings) {
        if j > 0 && IssueBefore(sorted[j], x, extracted, meetings) {
          IssueBeforeTransitive(sorted[j], x, sorted[0], extracted, meetings);
        }
        if j == 0 {
          IssueBeforeAsymmetric(x, sorted[0], extracted, meetings);
        }
      }
      HeadInOrder(x, sorted, extracted, meetings);
    } else {
      var tail := sorted[1..];
      assert InPopupOrder(tail, extracted, meetings) by {
        forall i, j | 0 <= i < j < |tail| ensures !IssueBefore(tail[j], tail[i], extracted, meetings) {
          assert tail[i] == sorted[i + 1] && tail[j] == sorted[j + 1];
        }
      }
      InsertIssueInOrder(tail, x, extracted, meetings);
      var rest := InsertIssue(tail, x, extracted, meetings);
      forall k | 0 <= k < |rest| ensures !IssueBefore(rest[k], sorted[0], extracted, meetings) {
        assert rest[k] in multiset(rest);
        if rest[k] != x {
          assert rest[k] in multiset(tail);
          var m :| 0 <= m < |tail| && tail[m] == rest[k];
          assert sorted[m + 1] == rest[k];
        }
      }
      HeadInOrder(sorted[0], rest, extracted, meetings);
    }
  }

  lemma IssueBeforeAsymmetric(a: Issue, b: Issue, extracted: seq<string>, meetings: seq<Meeting>)
    requires IssueBefore(a, b, extracted, meetings)
    ensures !IssueBefore(b, a, extracted, meetings)
  {
    if IssueBefore(b, a, extracted, meetings) {
      IssueBeforeTransitive(a, b, a, extracted, meetings);
      IssueBeforeIrreflexive(a, extracted, meetings);
    }
  }

  lemma HeadInOrder(h: Issue, rest: seq<Issue>, extracted: seq<string>, meetings: seq<Meeting>)
    requires InPopupOrder(rest, extracted, meetings)
    requires forall k :: 0 <= k < |rest| ==> !IssueBefore(rest[k], h, extracted, meetings)
    ensures InPopupOrder([h] + rest, extracted, meetings)
  {
    var s := [h] + rest;
    forall i, j | 0 <= i < j < |s| ensures !IssueBefore(s[j], s[i], extracted, meetings) {
      assert s[j] == rest[j - 1];
      if i > 0 {
        assert s[i] == rest[i - 1];
      }
    }
  }

  /** The popup lists the issues extracted first, then by usage, then by key. */
  lemma {:induction false} PopupOrderSorted(issues: seq<Issue>, extracted: seq<string>, meetings: seq<Meeting>)
    ensures InPopupOrder(PopupOrder(issues, extracted, meetings), extracted, meetings)
    decreases |issues|
  {
    if |issues| > 0 {
      var n := |issues| - 1;
      PopupOrderSorted(issues[..n], extracted, meetings);
      InsertIssueInOrder(PopupOrder(issues[..n], extracted, meetings), issues[n], extracted, meetings);
    }
  }

  /** In particular every extracted issue of the popup comes before every other one. */
  lemma ExtractedFirst(r: seq<Issue>, extracted: seq<string>, meetings: seq<Meeting>, i: nat, j: nat)
    requires InPopupOrder(r, extracted, meetings)
    requires i < |r| && j < |r| && r[j].key in extracted && r[i].key !in extracted
    ensures j < i
  {
    assert IssueBefore(r[j], r[i], extracted, meetings);
  }

  /** What `link_meeting` decides. */
  datatype LinkChoice =
    | UnknownMeeting
    | DirectLink(meeting: Meeting, key: string)
    | NoIssuesStored
    | OpenPopup(selection: IssueSelectionState)

  function ChooseLink(data: TuiData, meetings: seq<(string, Meeting)>, issues: seq<(string, Issue)>,
                      meetingId: string): (c: LinkChoice)
    ensures c.UnknownMeeting? <==> Get(meetings, meetingId).None?
    ensures c.DirectLink? ==>
              && Get(meetings, meetingId) == Some(c.meeting)
              && LinkCandidates(c.meeting) == [c.key] && c.key in data.issuesByKey
    ensures c.NoIssuesStored? <==>
              && Get(meetings, meetingId).Some? && issues == []
              && !(|LinkCandidates(Get(meetings, meetingId).value)| == 1
                   && LinkCandidates(Get(meetings, meetingId).value)[0] in data.issuesByKey)
    ensures c.OpenPopup? ==>
              && Get(meetings, meetingId).Some? && issues != []
              && c.selection.meetingId == meetingId && c.selection.selectedIssueIndex == 0
              && c.selection.searchQuery == ""
              && multiset(c.selection.allIssues) == multiset(Values(issues))
              && InPopupOrder(c.selection.allIssues, LinkCandidates(Get(meetings, meetingId).value), data.meetings)
              && !(|LinkCandidates(Get(meetings, meetingId).value)| == 1
                   && LinkCandidates(Get(meetings, meetingId).value)[0] in data.issuesByKey)
  {
    match Get(meetings, meetingId)
    case None => UnknownMeeting
    case Some(m) =>
      var candidates := LinkCandidates(m);
      if |candidates| == 1 && candidates[0] in data.issuesByKey then DirectLink(m, candidates[0])
      else if |issues| == 0 then NoIssuesStored
      else
        PopupOrderSorted(Values(issues), candidates, data.meetings);
        OpenPopup(IssueSelectionState(meetingId, PopupOrder(Values(issues), candidates, data.meetings), 0, ""))
  }

  /** A meeting naming exactly one known issue is linked straight away, without a popup. */
  lemma SingleKnownCandidateLinks(data: TuiData, meetings: seq<(string, Meeting)>, issues: seq<(string, Issue)>,
                                  meetingId: string)
    requires Get(meetings, meetingId).Some?
    requires var cs := LinkCandidates(Get(meetings, meetingId).value);
             |cs| == 1 && cs[0] in data.issuesByKey
    ensures ChooseLink(data, meetings, issues, meetingId)
              == DirectLink(Get(meetings, meetingId).value, LinkCandidates(Get(meetings, meetingId).value)[0])
  {
  }

  /**
   * `link_meeting`: an unknown meeting changes nothing; a direct link is
   * saved and a refresh starts; with no issue stored nothing opens;
   * otherwise the popup opens.
   */
  method LinkMeeting(tui: Tui, db: Db, meetingId: string)
    requires db.Valid()
    modifies db`meetings, tui`refreshPending, tui`issueSelection
    ensures db.Valid()
    ensures LinkApplied(ChooseLink(old(tui.data), old(db.meetings), old(db.issues), meetingId), meetingId,
                        old(db.meetings), db.meetings, old(tui.refreshPending), tui.refreshPending, tui.data.ui,
                        old(tui.issueSelection), tui.issueSelection)
  {
    var c := ChooseLink(tui.data, db.meetings, db.issues, meetingId);
    ApplyLink(tui, db, meetingId, c);
  }

  /** The effect of each choice on the meeting store, the pending refresh and the popup. */
  predicate LinkApplied(c: LinkChoice, meetingId: string,
                        before: seq<(string, Meeting)>, after: seq<(string, Meeting)>,
                        refreshBefore: Option<TabUiState>, refreshAfter: Option<TabUiState>, ui: TabUiState,
                        popupBefore: Option<IssueSelectionState>, popupAfter: Option<IssueSelectionState>)
  {
    match c
    case DirectLink(m, key) =>
      && Ordered(before) && after == Insert(before, meetingId, m.(jiraLink := Some(key)))
      && refreshAfter == (if refreshBefore.Some? then refreshBefore else Some(ui))
      && popupAfter == popupBefore
    case OpenPopup(selection) =>
      after == before && refreshAfter == refreshBefore && popupAfter == Some(selection)
    case _ =>
      after == before && refreshAfter == refreshBefore && popupAfter == popupBefore
  }

  method ApplyLink(tui: Tui, db: Db, meetingId: string, c: LinkChoice)
    requires db.Valid()
    requires c.DirectLink? ==> Get(db.meetings, meetingId) == Some(c.meeting)
    modifies db`meetings, tui`refreshPending, tui`issueSelection
    ensures db.Valid()
    ensures LinkApplied(c, meetingId, old(db.meetings), db.meetings, old(tui.refreshPending), tui.refreshPending,
                        tui.data.ui, old(tui.issueSelection), tui.issueSelection)
  {
    match c
    case DirectLink(m, key) =>
      MeetingKeyIsId(db.meetings, meetingId);
      SaveMeeting(db, m.(jiraLink := Some(key)));
      tui.RefreshData();
    case OpenPopup(selection) =>
      tui.issueSelection := Some(selection);
    case _ =>
  }

  // ---------------------------------------------------------------------
  // Auto-link
  // ---------------------------------------------------------------------

  /** The meetings of the snapshot that have no link yet, in order. */
  function Unlinked(meetings: seq<Meeting>): (r: seq<Meeting>)
    ensures |r| <= |meetings|
    ensures forall m :: m in r <==> m in meetings && m.jiraLink.None?
  {
    if |meetings| == 0 then []
    else (if meetings[0].jiraLink.None? then [meetings[0]] else []) + Unlinked(meetings[1..])
  }

  /** `format!("{} {}", title, description)`, a missing part being empty. */
  function CombinedText(m: Meeting): string {
    m.title.UnwrapOr("") + " " + m.description.UnwrapOr("")
  }

  /** The first match of `([A-Z]+-\d+)` in the combined text. */
  function AutoLinkKey(m: Meeting): (r: Option<string>)
    ensures r.Some? ==> IsLetterKey(r.value, UpperOnly)
    ensures r.None? <==> LetterKeys(CombinedText(m), UpperOnly) == []
  {
    var ks := LetterKeys(CombinedText(m), UpperOnly);
    LetterKeysAreKeys(CombinedText(m), UpperOnly);
    if |ks| == 0 then None else Some(ks[0])
  }

  /** Whether a meeting of the snapshot gets linked, given what the store holds for it. */
  predicate Links(m: Meeting, current: Option<Meeting>, byKey: map<string, Issue>) {
    AutoLinkKey(m).Some? && AutoLinkKey(m).value in byKey && current.Some?
  }

  /** The stored meeting after looking at one snapshot meeting. */
  function LinkOne(current: Option<Meeting>, m: Meeting, byKey: map<string, Issue>): (r: Option<Meeting>)
    ensures !Links(m, current, byKey) ==> r == current
    ensures Links(m, current, byKey) ==> r == Some(current.value.(jiraLink := AutoLinkKey(m)))
  {
    if Links(m, current, byKey) then Some(current.value.(jiraLink := AutoLinkKey(m))) else current
  }

  /** The meeting store after the loop over `ms`. */
  function AutoLinkStore(store: seq<(string, Meeting)>, ms: seq<Meeting>, byKey: map<string, Issue>): (r: seq<(string, Meeting)>)
    requires MeetingsKeyed(store)
    ensures MeetingsKeyed(r)
    decreases |ms|
  {
    if |ms| == 0 then store
    else
      var n := |ms| - 1;
      LinkStep(AutoLinkStore(store, ms[..n], byKey), ms[n], byKey)
  }

  /** The meeting store after looking at one snapshot meeting. */
  function LinkStep(store: seq<(string, Meeting)>, m: Meeting, byKey: map<string, Issue>): (r: seq<(string, Meeting)>)
    requires MeetingsKeyed(store)
    ensures MeetingsKeyed(r)
  {
    var current := Get(store, m.id);
    if Links(m, current, byKey) then
      MeetingKeyIsId(store, m.id);
      InsertKeepsMeetingsKeyed(store, current.value.(jiraLink := AutoLinkKey(m)));
      Insert(store, m.id, current.value.(jiraLink := AutoLinkKey(m)))
    else store
  }

  /** One step changes the record of the meeting it looks at, as `LinkOne` says, and no other. */
  lemma GetLinkStep(store: seq<(string, Meeting)>, m: Meeting, byKey: map<string, Issue>, k: string)
    requires MeetingsKeyed(store)
    ensures Get(LinkStep(store, m, byKey), k) == if k == m.id then LinkOne(Get(store, k), m, byKey) else Get(store, k)
  {
    var current := Get(store, m.id);
    if Links(m, current, byKey) {
      GetInsert(store, m.id, current.value.(jiraLink := AutoLinkKey(m)), k);
    }
  }

  /** The ids the loop links, in order. */
  function AutoLinkedIds(store: seq<(string, Meeting)>, ms: seq<Meeting>, byKey: map<string, Issue>): (ids: seq<string>)
    requires MeetingsKeyed(store)
    ensures |ids| <= |ms|
    decreases |ms|
  {
    if |ms| == 0 then []
    else
      var n := |ms| - 1;
      var prev := AutoLinkStore(store, ms[..n], byKey);
      AutoLinkedIds(store, ms[..n], byKey) + (if Links(ms[n], Get(prev, ms[n].id), byKey) then [ms[n].id] else [])
  }

  predicate DistinctIds(ms: seq<Meeting>) {
    forall i, j :: 0 <= i < j < |ms| ==> ms[i].id != ms[j].id
  }

  /** A meeting id that no snapshot meeting carries keeps its record. */
  lemma {:induction false} AutoLinkOther(store: seq<(string, Meeting)>, ms: seq<Meeting>, byKey: map<string, Issue>, k: string)
    requires MeetingsKeyed(store)
    requires forall i :: 0 <= i < |ms| ==> ms[i].id != k
    ensures Get(AutoLinkStore(store, ms, byKey), k) == Get(store, k)
    decreases |ms|
  {
    if |ms| > 0 {
      var n := |ms| - 1;
      GetLinkStep(AutoLinkStore(store, ms[..n], byKey), ms[n], byKey, k);
      assert forall i :: 0 <= i < n ==> ms[..n][i] == ms[i];
      AutoLinkOther(store, ms[..n], byKey, k);
    }
  }

  /**
   * With distinct ids, each snapshot meeting `ms[i]` whose first key is
   * known and which is still stored is saved with that key as its link;
   * the others keep their record.
   */
  lemma {:induction false} AutoLinkAt(store: seq<(string, Meeting)>, ms: seq<Meeting>, byKey: map<string, Issue>, i: nat)
    requires MeetingsKeyed(store) && DistinctIds(ms) && i < |ms|
    ensures Get(AutoLinkStore(store, ms, byKey), ms[i].id) == LinkOne(Get(store, ms[i].id), ms[i], byKey)
    decreases |ms|
  {
    var n := |ms| - 1;
    if i < n {
      DistinctIdsPrefix(ms, n);
      assert ms[..n][i] == ms[i];
      AutoLinkAt(store, ms[..n], byKey, i);
      AutoLinkAtEarlier(store, ms, byKey, i, LinkOne(Get(store, ms[i].id), ms[i], byKey));
    } else {
      AutoLinkAtLast(store, ms, byKey);
    }
  }

  lemma AutoLinkAtEarlier(store: seq<(string, Meeting)>, ms: seq<Meeting>, byKey: map<string, Issue>, i: nat, v: Option<Meeting>)
    requires MeetingsKeyed(store) && DistinctIds(ms) && i < |ms| - 1
    requires Get(AutoLinkStore(store, ms[..|ms| - 1], byKey), ms[i].id) == v
    ensures Get(AutoLinkStore(store, ms, byKey), ms[i].id) == v
  {
    var n := |ms| - 1;
    AutoLinkStoreUnfold(store, ms, byKey);
    assert ms[i].id != ms[n].id;
    LinkStepOther(AutoLinkStore(store, ms[..n], byKey), ms[n], byKey, ms[i].id, v);
  }

  lemma AutoLinkAtLast(store: seq<(string, Meeting)>, ms: seq<Meeting>, byKey: map<string, Issue>)
    requires MeetingsKeyed(store) && DistinctIds(ms) && |ms| > 0
    ensures Get(AutoLinkStore(store, ms, byKey), ms[|ms| - 1].id) == LinkOne(Get(store, ms[|ms| - 1].id), ms[|ms| - 1], byKey)
  {
    var n := |ms| - 1;
    AutoLinkStoreUnfold(store, ms, byKey);
    forall j | 0 <= j < n ensures ms[..n][j].id != ms[n].id {
      assert ms[..n][j] == ms[j];
    }
    AutoLinkOther(store, ms[..n], byKey, ms[n].id);
    LinkStepSelf(AutoLinkStore(store, ms[..n], byKey), ms[n], byKey, Get(store, ms[n].id));
  }

  lemma AutoLinkStoreUnfold(store: seq<(string, Meeting)>, ms: seq<Meeting>, byKey: map<string, Issue>)
    requires MeetingsKeyed(store) && |ms| > 0
    ensures AutoLinkStore(store, ms, byKey) == LinkStep(AutoLinkStore(store, ms[..|ms| - 1], byKey), ms[|ms| - 1], byKey)
  { }

  lemma DistinctIdsPrefix(ms: seq<Meeting>, n: nat)
    requires DistinctIds(ms) && n <= |ms|
    ensures DistinctIds(ms[..n])
  {
    forall i, j | 0 <= i < j < n ensures ms[..n][i].id != ms[..n][j].id {
      assert ms[..n][i] == ms[i] && ms[..n][j] == ms[j];
    }
  }

  lemma LinkStepOther(store: seq<(string, Meeting)>, m: Meeting, byKey: map<string, Issue>, k: string, v: Option<Meeting>)
    requires MeetingsKeyed(store) && k != m.id && Get(store, k) == v
    ensures Get(LinkStep(store, m, byKey), k) == v
  {
    GetLinkStep(store, m, byKey, k);
  }

  lemma LinkStepSelf(store: seq<(string, Meeting)>, m: Meeting, byKey: map<string, Issue>, v: Option<Meeting>)
    requires MeetingsKeyed(store) && Get(store, m.id) == v
    ensures Get(LinkStep(store, m, byKey), m.id) == LinkOne(v, m, byKey)
  {
    GetLinkStep(store, m, byKey, m.id);
  }

  /** The ids of some meetings, in order. */
  function MeetingIds(ms: seq<Meeting>): (ids: seq<string>)
    ensures |ids| == |ms| && forall i :: 0 <= i < |ms| ==> ids[i] == ms[i].id
  {
    seq(|ms|, i requires 0 <= i < |ms| => ms[i].id)
  }

  /** Only ids of the looked-at meetings get linked. */
  lemma {:induction false} LinkedIdsAreMeetingIds(store: seq<(string, Meeting)>, ms: seq<Meeting>, byKey: map<string, Issue>)
    requires MeetingsKeyed(store)
    ensures forall k :: k in AutoLinkedIds(store, ms, byKey) ==> k in MeetingIds(ms)
    decreases |ms|
  {
    if |ms| > 0 {
      var n := |ms| - 1;
      LinkedIdsAreMeetingIds(store, ms[..n], byKey);
      assert MeetingIds(ms[..n]) == MeetingIds(ms)[..n];
    }
  }

  /** With distinct ids, meeting `ms[i]` is among the linked ids exactly when it was linked. */
  lemma {:induction false} LinkedIdAt(store: seq<(string, Meeting)>, ms: seq<Meeting>, byKey: map<string, Issue>, i: nat)
    requires MeetingsKeyed(store) && DistinctIds(ms) && i < |ms|
    ensures ms[i].id in AutoLinkedIds(store, ms, byKey) <==> Links(ms[i], Get(store, ms[i].id), byKey)
    decreases |ms|
  {
    var n := |ms| - 1;
    var prev := AutoLinkStore(store, ms[..n], byKey);
    forall j | 0 <= j < n ensures ms[..n][j].id != ms[n].id {
      assert ms[..n][j] == ms[j];
    }
    if i < n {
      assert DistinctIds(ms[..n]);
      assert ms[..n][i] == ms[i];
      LinkedIdAt(store, ms[..n], byKey, i);
    } else {
      AutoLinkOther(store, ms[..n], byKey, ms[n].id);
      LinkedIdsAreMeetingIds(store, ms[..n], byKey);
      assert ms[n].id !in MeetingIds(ms[..n]);
    }
  }

  /** One more meeting looked at: the store takes one `LinkStep` and its id is added when it links. */
  lemma AutoLinkSnoc(store: seq<(string, Meeting)>, done: seq<Meeting>, m: Meeting, byKey: map<string, Issue>)
    requires MeetingsKeyed(store)
    ensures AutoLinkStore(store, done + [m], byKey) == LinkStep(AutoLinkStore(store, done, byKey), m, byKey)
    ensures AutoLinkedIds(store, done + [m], byKey)
              == AutoLinkedIds(store, done, byKey) + (if Links(m, Get(AutoLinkStore(store, done, byKey), m.id), byKey) then [m.id] else [])
  {
    assert (done + [m])[..|done|] == done;
  }

  /** The loop of `auto_link_meetings` and of the wizard's auto-link step. */
  method AutoLinkEach(db: Db, ms: seq<Meeting>, byKey: map<string, Issue>) returns (linked: seq<string>)
    requires db.Valid()
    modifies db`meetings
    ensures db.Valid()
    ensures db.meetings == AutoLinkStore(old(db.meetings), ms, byKey)
    ensures linked == AutoLinkedIds(old(db.meetings), ms, byKey)
  {
    linked := [];
    for i := 0 to |ms|
      invariant db.Valid()
      invariant db.meetings == AutoLinkStore(old(db.meetings), ms[..i], byKey)
      invariant linked == AutoLinkedIds(old(db.meetings), ms[..i], byKey)
    {
      linked := AutoLinkOne(db, ms[..i], ms[i], byKey, old(db.meetings), linked);
      PrefixSnoc(ms, i);
    }
    assert ms[..|ms|] == ms;
  }

  /** One pass of that loop: the meeting after `done`. */
  method AutoLinkOne(db: Db, done: seq<Meeting>, m: Meeting, byKey: map<string, Issue>,
                     ghost store0: seq<(string, Meeting)>, linked: seq<string>) returns (linkedAfter: seq<string>)
    requires db.Valid() && MeetingsKeyed(store0)
    requires db.meetings == AutoLinkStore(store0, done, byKey) && linked == AutoLinkedIds(store0, done, byKey)
    modifies db`meetings
    ensures db.Valid()
    ensures db.meetings == AutoLinkStore(store0, done + [m], byKey)
    ensures linkedAfter == AutoLinkedIds(store0, done + [m], byKey)
  {
    AutoLinkSnoc(store0, done, m, byKey);
    linkedAfter := linked;
    var current := Get(db.meetings, m.id);
    match AutoLinkKey(m)
    case Some(key) =>
      if key in byKey && current.Some? {
        MeetingKeyIsId(db.meetings, m.id);
        SaveMeeting(db, current.value.(jiraLink := Some(key)));
        linkedAfter := linked + [m.id];
      }
    case None =>
  }

  /** `auto_link_meetings`: the unlinked meetings of the snapshot are linked, then a refresh starts. */
  method AutoLinkMeetings(tui: Tui, db: Db) returns (linkedCount: nat)
    requires db.Valid()
    modifies db`meetings, tui`refreshPending
    ensures db.Valid()
    ensures db.meetings == AutoLinkStore(old(db.meetings), Unlinked(tui.data.meetings), tui.data.issuesByKey)
    ensures linkedCount == |AutoLinkedIds(old(db.meetings), Unlinked(tui.data.meetings), tui.data.issuesByKey)|
    ensures tui.refreshPending == if old(tui.refreshPending).Some? then old(tui.refreshPending) else Some(tui.data.ui)
  {
    var linked := AutoLinkEach(db, Unlinked(tui.data.meetings), tui.data.issuesByKey);
    linkedCount := |linked|;
    tui.RefreshData();
  }

  /** Distinct ids stay distinct in the unlinked list. */
  lemma {:induction false} UnlinkedDistinct(ms: seq<Meeting>)
    requires DistinctIds(ms)
    ensures DistinctIds(Unlinked(ms))
    decreases |ms|
  {
    if |ms| > 0 {
      var tail := ms[1..];
      assert DistinctIds(tail) by {
        forall i, j | 0 <= i < j < |tail| ensures tail[i].id != tail[j].id {
          assert tail[i] == ms[i + 1] && tail[j] == ms[j + 1];
        }
      }
      UnlinkedDistinct(tail);
      var rest := Unlinked(tail);
      forall j | 0 <= j < |rest| ensures rest[j].id != ms[0].id {
        assert rest[j] in rest;
        var m :| 0 <= m < |tail| && tail[m] == rest[j];
        assert ms[m + 1] == rest[j];
      }
      var r := Unlinked(ms);
      if ms[0].jiraLink.None? {
        forall i, j | 0 <= i < j < |r| ensures r[i].id != r[j].id {
          assert r[j] == rest[j - 1];
          if i > 0 {
            assert r[i] == rest[i - 1];
          }
        }
      } else {
        assert r == rest;
      }
    }
  }

  /**
   * Auto-linking on a snapshot with distinct ids leaves every meeting
   * that was already linked in the snapshot as the store holds it.
   */
  lemma AutoLinkSkipsLinked(store: seq<(string, Meeting)>, meetings: seq<Meeting>, byKey: map<string, Issue>, j: nat)
    requires MeetingsKeyed(store) && DistinctIds(meetings) && j < |meetings| && meetings[j].jiraLink.Some?
    ensures Get(AutoLinkStore(store, Unlinked(meetings), byKey), meetings[j].id) == Get(store, meetings[j].id)
  {
    var un := Unlinked(meetings);
    forall i | 0 <= i < |un| ensures un[i].id != meetings[j].id {
      assert un[i] in un;
      var m :| 0 <= m < |meetings| && meetings[m] == un[i];
      assert m != j;
    }
    AutoLinkOther(store, un, byKey, meetings[j].id);
  }
}
