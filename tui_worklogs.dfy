/**
 * The TUI's worklog operations: pushing every Staged worklog to Jira,
 * reset, delete, stage toggling, stage-all, and creating a worklog from
 * a meeting.
 *
 * The push runs on a background thread in the program; here it runs to
 * the end when it is started. Jira's reply to each `add_time` call is
 * the parameter `replies` (reply `i` answers the `i`-th call), and what
 * the thread would send back is returned: the progress lines, then the
 * completion message with the history id.
 */
module TuiWorklogs {
  import opened Wrappers
  import opened Text
  import opened Tree
  import opened Numbers
  import opened Model
  import opened Storage
  import opened JiraService
  import opened WorklogsService
  import opened WorklogBatches
  import opened TuiTypes
  import opened TuiState
  import opened WizardCore

  // ---------------------------------------------------------------------
  // What the push thread does
  // ---------------------------------------------------------------------

  /** The worklogs a push sends, read from the store: the Staged ones, in key order. */
  function StagedWorklogs(locals: seq<(string, LocalWorklog)>): (r: seq<LocalWorklog>)
    ensures forall w :: w in r <==> w in Values(locals) && w.status == Staged
  {
    WithStatus(Values(locals), [Staged])
  }

  /** The entry saved once Jira has logged `jw`. */
  function PushedEntry(w: LocalWorklog, jw: JiraWorklog): (r: LocalWorklog)
    ensures r.status == Pushed && r.worklogId == Some(jw.id)
    ensures r.(status := w.status, worklogId := w.worklogId) == w
  {
    w.(status := Pushed, worklogId := Some(jw.id))
  }

  /** The local store after the first `|staged|` replies. */
  function PushLocals(locals: seq<(string, LocalWorklog)>, staged: seq<LocalWorklog>,
                      replies: nat -> AddTimeReply): (r: seq<(string, LocalWorklog)>)
    requires LocalsKeyed(locals)
    ensures LocalsKeyed(r)
    decreases |staged|
  {
    if |staged| == 0 then locals
    else
      var n := |staged| - 1;
      var prev := PushLocals(locals, staged[..n], replies);
      if replies(n).Logged? then
        InsertKeepsLocalsKeyed(prev, PushedEntry(staged[n], replies(n).worklog));
        Insert(prev, staged[n].id, PushedEntry(staged[n], replies(n).worklog))
      else prev
  }

  /** How many of the first `n` replies logged a worklog. */
  function CountLogged(replies: nat -> AddTimeReply, n: nat): (c: nat)
    ensures c <= n
    ensures (forall i :: 0 <= i < n ==> replies(i).Logged?) ==> c == n
    ensures (forall i :: 0 <= i < n ==> !replies(i).Logged?) ==> c == 0
  {
    if n == 0 then 0 else CountLogged(replies, n - 1) + (if replies(n - 1).Logged? then 1 else 0)
  }

  const CheckMark: string := "\U{2705} "
  const CrossMark: string := "❌ "

  /**
   * `seconds / 3600` to one decimal, the tenth rounded half up, unlike
   * `{:.1}`, which rounds an exact tie to even (900 s: "0.3" here, "0.2" there).
   */
  function OneDecimalHours(seconds: int): string {
    var tenths := ((if seconds < 0 then -seconds else seconds) * 10 + 1800) / 3600;
    (if seconds < 0 then "-" else "") + NatToString(tenths / 10) + "." + NatToString(tenths % 10)
  }

  /** The progress line for entry `i` of `n`, from what `add_time` returned. */
  function PushLine(i: nat, n: nat, w: LocalWorklog, outcome: Result<Option<JiraWorklog>, string>): string {
    PushMark(outcome) + ProgressTag(i + 1, n) + PushText(w, outcome)
  }

  /** The mark a progress line starts with: a check for a created worklog, a cross otherwise. */
  function PushMark(outcome: Result<Option<JiraWorklog>, string>): string {
    if outcome.Ok? && outcome.value.Some? then CheckMark else CrossMark
  }

  /** What a progress line says after its counter. */
  function PushText(w: LocalWorklog, outcome: Result<Option<JiraWorklog>, string>): string {
    match outcome
    case Ok(Some(_)) => " Pushed " + w.issueId + " (" + OneDecimalHours(w.timeSpentSeconds) + "h)"
    case Ok(None) => " Failed " + w.issueId
    case Err(e) => " Error " + w.issueId + ": " + e
  }

  /** One progress line per staged entry, in push order. */
  function PushLines(staged: seq<LocalWorklog>, replies: nat -> AddTimeReply): (lines: seq<string>)
    ensures |lines| == |staged|
  {
    seq(|staged|, i requires 0 <= i < |staged| =>
      PushLine(i, |staged|, staged[i], AddTimeOutcome(staged[i].issueId, replies(i))))
  }

  /** The completion message. */
  function PushSummary(successes: nat, errors: nat): string {
    CheckMark + "Pushed " + NatToString(successes) + " worklogs (" + NatToString(errors) + " errors)"
  }

  function PushingStatus(n: nat): string {
    "Pushing " + NatToString(n) + " worklogs to Jira..."
  }

  // ---------------------------------------------------------------------
  // What the push promises
  // ---------------------------------------------------------------------

  lemma MarksHaveNoBrackets()
    ensures '[' !in CheckMark && ']' !in CheckMark
    ensures '[' !in CrossMark && ']' !in CrossMark
  {
  }

  /** Each kind of progress line carries the counter `[i+1/n]`, which the TUI parses back. */
  lemma PushLineParsesOne(i: nat, n: nat, w: LocalWorklog, outcome: Result<Option<JiraWorklog>, string>)
    requires i < n <= U64Max
    ensures BracketsInOrder(PushLine(i, n, w, outcome))
    ensures ParseProgress(PushLine(i, n, w, outcome)) == Some((i + 1, n))
  {
    PushMarkHasNoBrackets(outcome);
    LineParsesAs(PushLine(i, n, w, outcome), PushMark(outcome), i + 1, n, PushText(w, outcome));
  }

  lemma LineParsesAs(line: string, mark: string, current: nat, total: nat, rest: string)
    requires '[' !in mark && ']' !in mark && current <= U64Max && total <= U64Max
    requires line == mark + ProgressTag(current, total) + rest
    ensures BracketsInOrder(line) && ParseProgress(line) == Some((current, total))
  {
    ProgressTagParses(mark, current, total, rest);
  }

  lemma PushMarkHasNoBrackets(outcome: Result<Option<JiraWorklog>, string>)
    ensures '[' !in PushMark(outcome) && ']' !in PushMark(outcome)
  {
    MarksHaveNoBrackets();
  }

  /** Line `i` of a push carries the counter `[i+1/n]`. */
  lemma PushLineParses(staged: seq<LocalWorklog>, replies: nat -> AddTimeReply, i: nat)
    requires i < |staged| <= U64Max
    ensures BracketsInOrder(PushLines(staged, replies)[i])
    ensures ParseProgress(PushLines(staged, replies)[i]) == Some((i + 1, |staged|))
  {
    PushLineParsesOne(i, |staged|, staged[i], AddTimeOutcome(staged[i].issueId, replies(i)));
  }

  /** So every line of a push can be handed to `handle_push_operations`. */
  lemma PushLinesInOrder(staged: seq<LocalWorklog>, replies: nat -> AddTimeReply)
    requires |staged| <= U64Max
    ensures AllBracketsInOrder(PushLines(staged, replies))
  {
    forall k | 0 <= k < |staged| ensures BracketsInOrder(PushLines(staged, replies)[k]) {
      PushLineParses(staged, replies, k);
    }
  }

  /** An id no pushed entry carries keeps its record. */
  lemma {:induction false} PushLocalsOther(locals: seq<(string, LocalWorklog)>, staged: seq<LocalWorklog>,
                                           replies: nat -> AddTimeReply, k: string)
    requires LocalsKeyed(locals)
    requires forall i :: 0 <= i < |staged| ==> staged[i].id != k
    ensures Get(PushLocals(locals, staged, replies), k) == Get(locals, k)
    decreases |staged|
  {
    if |staged| > 0 {
      var n := |staged| - 1;
      var prev := PushLocals(locals, staged[..n], replies);
      if replies(n).Logged? {
        GetInsert(prev, staged[n].id, PushedEntry(staged[n], replies(n).worklog), k);
      }
      assert forall i :: 0 <= i < n ==> staged[..n][i] == staged[i];
      PushLocalsOther(locals, staged[..n], replies, k);
    }
  }

  /** Entry `i` is saved as Pushed with Jira's id iff its reply logged a worklog, and is left alone otherwise. */
  lemma {:induction false} PushLocalsAt(locals: seq<(string, LocalWorklog)>, staged: seq<LocalWorklog>,
                                        replies: nat -> AddTimeReply, i: nat)
    requires LocalsKeyed(locals) && IdsAscending(staged) && i < |staged|
    ensures replies(i).Logged? ==>
              Get(PushLocals(locals, staged, replies), staged[i].id) == Some(PushedEntry(staged[i], replies(i).worklog))
    ensures !replies(i).Logged? ==>
              Get(PushLocals(locals, staged, replies), staged[i].id) == Get(locals, staged[i].id)
    decreases |staged|
  {
    var n := |staged| - 1;
    var prev := PushLocals(locals, staged[..n], replies);
    if replies(n).Logged? {
      GetInsert(prev, staged[n].id, PushedEntry(staged[n], replies(n).worklog), staged[i].id);
    }
    if i < n {
      AscendingDistinct(staged, i, n);
      assert IdsAscending(staged[..n]);
      assert staged[..n][i] == staged[i];
      PushLocalsAt(locals, staged[..n], replies, i);
    } else {
      forall j | 0 <= j < n ensures staged[..n][j].id != staged[n].id {
        AscendingDistinct(staged, j, n);
      }
      PushLocalsOther(locals, staged[..n], replies, staged[n].id);
    }
  }

  /**
   * The push's effect on the store: a Staged worklog whose reply logged
   * a worklog is now Pushed with Jira's id; one whose reply was empty or
   * an error is still Staged and unchanged.
   */
  lemma PushOutcome(locals: seq<(string, LocalWorklog)>, replies: nat -> AddTimeReply, i: nat)
    requires LocalsKeyed(locals) && i < |StagedWorklogs(locals)|
    ensures var w := StagedWorklogs(locals)[i];
            w.status == Staged
            && (replies(i).Logged? ==> Get(PushLocals(locals, StagedWorklogs(locals), replies), w.id)
                                         == Some(PushedEntry(w, replies(i).worklog)))
            && (!replies(i).Logged? ==> Get(PushLocals(locals, StagedWorklogs(locals), replies), w.id) == Some(w))
  {
    var staged := StagedWorklogs(locals);
    assert staged[i] in staged;
    StoreIdsAscending(locals);
    WithStatusAscending(Values(locals), [Staged]);
    StoredUnderId(locals, staged[i]);
    PushLocalsAt(locals, staged, replies, i);
  }

  /** The push touches no record that was not Staged. */
  lemma PushLeavesOthers(locals: seq<(string, LocalWorklog)>, replies: nat -> AddTimeReply, k: string)
    requires LocalsKeyed(locals)
    requires Get(locals, k).None? || Get(locals, k).value.status != Staged
    ensures Get(PushLocals(locals, StagedWorklogs(locals), replies), k) == Get(locals, k)
  {
    var staged := StagedWorklogs(locals);
    forall i | 0 <= i < |staged| ensures staged[i].id != k {
      assert staged[i] in staged;
      StoredUnderId(locals, staged[i]);
    }
    PushLocalsOther(locals, staged, replies, k);
  }

  // ---------------------------------------------------------------------
  // The push
  // ---------------------------------------------------------------------

  /**
   * `handle_push_worklogs`. With nothing Staged it pushes nothing and,
   * in the wizard's Pushing step, completes the wizard. Otherwise the
   * history listing every staged id is stored first, whatever Jira then
   * answers, and the entries are pushed in key order.
   */
  method HandlePushWorklogs(tui: Tui, db: Db, historyId: string, now: int, replies: nat -> AddTimeReply)
    returns (progress: seq<string>, completion: Option<(string, string)>)
    requires db.Valid()
    modifies tui`wizard, tui`fetchStatus, tui`pushReceiving, tui`progressReceiving
    modifies db`localWorklogs, db`histories, db`worklogs
    ensures db.Valid()
    ensures StagedWorklogs(old(db.localWorklogs)) == [] ==>
              && db.localWorklogs == old(db.localWorklogs) && db.histories == old(db.histories)
              && db.worklogs == old(db.worklogs)
              && progress == [] && completion == None
              && tui.fetchStatus == old(tui.fetchStatus)
              && tui.pushReceiving == old(tui.pushReceiving) && tui.progressReceiving == old(tui.progressReceiving)
              && tui.wizard == (if old(tui.wizard).Some? && old(tui.wizard).value.currentStep.Pushing?
                                then Some(PushCompleted(old(tui.wizard).value)) else old(tui.wizard))
    ensures StagedWorklogs(old(db.localWorklogs)) != [] ==>
              && db.histories == Insert(old(db.histories), historyId,
                   LocalWorklogHistory(historyId, now, IdsOf(StagedWorklogs(old(db.localWorklogs)))))
              && db.localWorklogs == PushLocals(old(db.localWorklogs), StagedWorklogs(old(db.localWorklogs)), replies)
              && db.worklogs == PushRemote(old(db.worklogs), replies, |StagedWorklogs(old(db.localWorklogs))|)
              && progress == PushLines(StagedWorklogs(old(db.localWorklogs)), replies)
              && completion == Some((PushSummary(CountLogged(replies, |StagedWorklogs(old(db.localWorklogs))|),
                                                 |StagedWorklogs(old(db.localWorklogs))|
                                                 - CountLogged(replies, |StagedWorklogs(old(db.localWorklogs))|)),
                                     historyId))
              && tui.fetchStatus == Fetching(PushingStatus(|StagedWorklogs(old(db.localWorklogs))|))
              && tui.pushReceiving && tui.progressReceiving && tui.wizard == old(tui.wizard)
  {
    var staged := StagedWorklogs(db.localWorklogs);
    if |staged| == 0 {
      if tui.wizard.Some? && tui.wizard.value.currentStep.Pushing? {
        WizardPushComplete(tui);
      }
      return [], None;
    }
    var n := |staged|;
    tui.fetchStatus := Fetching(PushingStatus(n));
    var hid := Historize(db, historyId, now, IdsOf(staged));
    tui.pushReceiving := true;
    tui.progressReceiving := true;
    var successes, errors;
    progress, successes, errors := PushAll(db, staged, replies);
    completion := Some((PushSummary(successes, errors), hid));
  }

  /** The thread's loop: one `add_time` per entry, counting successes and errors. */
  method PushAll(db: Db, staged: seq<LocalWorklog>, replies: nat -> AddTimeReply)
    returns (lines: seq<string>, successes: nat, errors: nat)
    requires db.Valid()
    modifies db`localWorklogs, db`worklogs
    ensures db.Valid()
    ensures db.localWorklogs == PushLocals(old(db.localWorklogs), staged, replies)
    ensures db.worklogs == PushRemote(old(db.worklogs), replies, |staged|)
    ensures lines == PushLines(staged, replies)
    ensures successes == CountLogged(replies, |staged|) && successes + errors == |staged|
  {
    var n := |staged|;
    lines, successes, errors := [], 0, 0;
    for i := 0 to n
      invariant db.Valid()
      invariant db.localWorklogs == PushLocals(old(db.localWorklogs), staged[..i], replies)
      invariant db.worklogs == PushRemote(old(db.worklogs), replies, i)
      invariant |lines| == i
      invariant forall k :: 0 <= k < i ==> lines[k] == PushLine(k, n, staged[k], AddTimeOutcome(staged[k].issueId, replies(k)))
      invariant successes == CountLogged(replies, i) && successes + errors == i
    {
      lines, successes, errors := PushEntry(db, staged, i, replies, old(db.localWorklogs), old(db.worklogs), lines, successes, errors);
    }
    assert staged[..n] == staged;
  }

  /** One pass of that loop: entry `i` pushed after the `i` before it. */
  method PushEntry(db: Db, staged: seq<LocalWorklog>, i: nat, replies: nat -> AddTimeReply,
                   ghost locals0: seq<(string, LocalWorklog)>, ghost remote0: seq<(string, JiraWorklog)>,
                   lines: seq<string>, successes: nat, errors: nat)
    returns (linesAfter: seq<string>, successesAfter: nat, errorsAfter: nat)
    requires db.Valid() && LocalsKeyed(locals0) && WorklogsKeyed(remote0) && i < |staged|
    requires db.localWorklogs == PushLocals(locals0, staged[..i], replies)
    requires db.worklogs == PushRemote(remote0, replies, i)
    requires |lines| == i
    requires forall k :: 0 <= k < i ==> lines[k] == PushLine(k, |staged|, staged[k], AddTimeOutcome(staged[k].issueId, replies(k)))
    requires successes == CountLogged(replies, i) && successes + errors == i
    modifies db`localWorklogs, db`worklogs
    ensures db.Valid()
    ensures db.localWorklogs == PushLocals(locals0, staged[..i + 1], replies)
    ensures db.worklogs == PushRemote(remote0, replies, i + 1)
    ensures |linesAfter| == i + 1
    ensures forall k :: 0 <= k < i + 1 ==>
              linesAfter[k] == PushLine(k, |staged|, staged[k], AddTimeOutcome(staged[k].issueId, replies(k)))
    ensures successesAfter == CountLogged(replies, i + 1) && successesAfter + errorsAfter == i + 1
  {
    PushStep(locals0, staged, replies, i);
    var line, logged := PushOne(db, staged[i], i, |staged|, replies(i));
    linesAfter := lines + [line];
    PushLinesSnoc(staged, replies, i, lines, line);
    successesAfter, errorsAfter := successes, errors;
    if logged {
      successesAfter := successes + 1;
    } else {
      errorsAfter := errors + 1;
    }
  }

  lemma PushLinesSnoc(staged: seq<LocalWorklog>, replies: nat -> AddTimeReply, i: nat, lines: seq<string>, line: string)
    requires i < |staged| && |lines| == i
    requires forall k :: 0 <= k < i ==> lines[k] == PushLine(k, |staged|, staged[k], AddTimeOutcome(staged[k].issueId, replies(k)))
    requires line == PushLine(i, |staged|, staged[i], AddTimeOutcome(staged[i].issueId, replies(i)))
    ensures forall k :: 0 <= k < i + 1 ==>
              (lines + [line])[k] == PushLine(k, |staged|, staged[k], AddTimeOutcome(staged[k].issueId, replies(k)))
  { }

  lemma PushStep(locals: seq<(string, LocalWorklog)>, staged: seq<LocalWorklog>, replies: nat -> AddTimeReply, i: nat)
    requires LocalsKeyed(locals) && i < |staged|
    ensures PushLocals(locals, staged[..i + 1], replies) ==
            if replies(i).Logged? then Insert(PushLocals(locals, staged[..i], replies), staged[i].id,
                                              PushedEntry(staged[i], replies(i).worklog))
            else PushLocals(locals, staged[..i], replies)
  {
    assert staged[..i + 1][..i] == staged[..i];
    assert staged[..i + 1][i] == staged[i];
  }

  /** One iteration: `add_time`, then on `Ok(Some(jw))` the entry is saved as Pushed with `jw`'s id. */
  method PushOne(db: Db, w: LocalWorklog, i: nat, n: nat, reply: AddTimeReply) returns (line: string, logged: bool)
    requires db.Valid()
    modifies db`localWorklogs, db`worklogs
    ensures db.Valid()
    ensures db.worklogs == WithLoggedWorklog(old(db.worklogs), reply)
    ensures reply.Logged? ==> db.localWorklogs == Insert(old(db.localWorklogs), w.id, PushedEntry(w, reply.worklog))
    ensures !reply.Logged? ==> db.localWorklogs == old(db.localWorklogs)
    ensures line == PushLine(i, n, w, AddTimeOutcome(w.issueId, reply))
    ensures logged == reply.Logged?
  {
    var r := AddTime(db, w.issueId, reply);
    line := PushLine(i, n, w, r);
    logged := false;
    if r.Ok? && r.value.Some? {
      SaveLocalWorklog(db, PushedEntry(w, r.value.value));
      logged := true;
    }
  }

  // ---------------------------------------------------------------------
  // Reset, delete, toggle, stage all
  // ---------------------------------------------------------------------

  /** The snapshot's UI state with the worklog selection back at the top. */
  function SelectionReset(data: TuiData): (r: TuiData)
    ensures r.ui.selectedWorklogIndex == 0
    ensures r == data.(ui := r.ui) && r.ui == data.ui.(selectedWorklogIndex := 0)
  {
    data.(ui := data.ui.(selectedWorklogIndex := 0))
  }

  /**
   * `handle_reset_worklogs`: every Created or Staged worklog of the
   * snapshot is removed from the store, a refresh starts, and the
   * worklog selection goes back to 0.
   */
  method HandleResetWorklogs(tui: Tui, db: Db)
    requires db.Valid()
    modifies db`localWorklogs, tui`refreshPending, tui`data
    ensures db.Valid()
    ensures db.localWorklogs == RemoveAll(old(db.localWorklogs), IdsOf(WithStatus(old(tui.data.worklogs), [Staged, Created])))
    ensures tui.refreshPending == if old(tui.refreshPending).Some? then old(tui.refreshPending) else Some(old(tui.data).ui)
    ensures tui.data == SelectionReset(old(tui.data))
  {
    var unpushed := WithStatus(tui.data.worklogs, [Staged, Created]);
    RemoveEach(db, unpushed);
    tui.RefreshData();
    tui.data := SelectionReset(tui.data);
  }

  /** `handle_delete_worklog`: a stored worklog is removed and a refresh starts; an unknown id changes nothing. */
  method HandleDeleteWorklog(tui: Tui, db: Db, worklogId: string)
    requires db.Valid()
    modifies db`localWorklogs, tui`refreshPending
    ensures db.Valid()
    ensures HasKey(old(db.localWorklogs), worklogId) ==>
              db.localWorklogs == Remove(old(db.localWorklogs), worklogId)
              && tui.refreshPending == if old(tui.refreshPending).Some? then old(tui.refreshPending) else Some(tui.data.ui)
    ensures !HasKey(old(db.localWorklogs), worklogId) ==>
              db.localWorklogs == old(db.localWorklogs) && tui.refreshPending == old(tui.refreshPending)
  {
    var found := Get(db.localWorklogs, worklogId);
    if found.Some? {
      var j :| 0 <= j < |db.localWorklogs| && db.localWorklogs[j] == (worklogId, found.value);
      RemoveLocalWorklog(db, found.value);
      tui.RefreshData();
    }
  }

  /** Deleting leaves the id empty and every other id as it was. */
  lemma DeleteLookup(locals: seq<(string, LocalWorklog)>, worklogId: string, k: string)
    requires LocalsKeyed(locals)
    ensures Get(Remove(locals, worklogId), k) == if k == worklogId then None else Get(locals, k)
  {
    GetRemove(locals, worklogId, k);
  }

  /** Created and Staged swap; Pushed cannot be unstaged. */
  function Toggled(s: LocalWorklogState): (r: LocalWorklogState)
    ensures s.Pushed? <==> r.Pushed?
    ensures !s.Pushed? ==> r != s
  {
    match s
    case Created => Staged
    case Staged => Created
    case Pushed => Pushed
  }

  /** The store after `handle_toggle_worklog_stage`. */
  function ToggleStore(locals: seq<(string, LocalWorklog)>, worklogId: string): (r: seq<(string, LocalWorklog)>)
    requires LocalsKeyed(locals)
    ensures LocalsKeyed(r)
  {
    match Get(locals, worklogId)
    case None => locals
    case Some(w) =>
      if w.status.Pushed? then locals
      else
        InsertKeepsLocalsKeyed(locals, w.(status := Toggled(w.status)));
        Insert(locals, w.id, w.(status := Toggled(w.status)))
  }

  /** `handle_toggle_worklog_stage`: a refresh starts only when a record changed. */
  method HandleToggleWorklogStage(tui: Tui, db: Db, worklogId: string)
    requires db.Valid()
    modifies db`localWorklogs, tui`refreshPending
    ensures db.Valid()
    ensures db.localWorklogs == ToggleStore(old(db.localWorklogs), worklogId)
    ensures (Get(old(db.localWorklogs), worklogId).Some? && !Get(old(db.localWorklogs), worklogId).value.status.Pushed?) ==>
              tui.refreshPending == if old(tui.refreshPending).Some? then old(tui.refreshPending) else Some(tui.data.ui)
    ensures !(Get(old(db.localWorklogs), worklogId).Some? && !Get(old(db.localWorklogs), worklogId).value.status.Pushed?) ==>
              tui.refreshPending == old(tui.refreshPending)
  {
    var found := Get(db.localWorklogs, worklogId);
    if found.Some? && !found.value.status.Pushed? {
      var w := found.value;
      SaveLocalWorklog(db, w.(status := Toggled(w.status)));
      tui.RefreshData();
    }
  }

  /** Toggling changes only the status of the toggled record: Created to Staged, Staged to Created, Pushed stays. */
  lemma ToggleLookup(locals: seq<(string, LocalWorklog)>, worklogId: string, k: string)
    requires LocalsKeyed(locals)
    ensures k != worklogId ==> Get(ToggleStore(locals, worklogId), k) == Get(locals, k)
    ensures Get(locals, worklogId).None? ==> Get(ToggleStore(locals, worklogId), worklogId).None?
    ensures Get(locals, worklogId).Some? ==>
              Get(ToggleStore(locals, worklogId), worklogId)
                == Some(Get(locals, worklogId).value.(status := Toggled(Get(locals, worklogId).value.status)))
  {
    var found := Get(locals, worklogId);
    if found.Some? {
      KeyIsId(locals, worklogId);
      if !found.value.status.Pushed? {
        GetInsert(locals, worklogId, found.value.(status := Toggled(found.value.status)), k);
        GetInsert(locals, worklogId, found.value.(status := Toggled(found.value.status)), worklogId);
      }
    }
  }

  /** The record under a key carries that key as its id. */
  lemma KeyIsId(locals: seq<(string, LocalWorklog)>, k: string)
    requires LocalsKeyed(locals) && Get(locals, k).Some?
    ensures Get(locals, k).value.id == k
  {
    var j :| 0 <= j < |locals| && locals[j] == (k, Get(locals, k).value);
  }

  /** Toggling twice gives the store back. */
  lemma ToggleTwice(locals: seq<(string, LocalWorklog)>, worklogId: string)
    requires LocalsKeyed(locals)
    ensures ToggleStore(ToggleStore(locals, worklogId), worklogId) == locals
  {
    var once := ToggleStore(locals, worklogId);
    var twice := ToggleStore(once, worklogId);
    forall k ensures Get(twice, k) == Get(locals, k) {
      ToggleLookup(locals, worklogId, k);
      ToggleLookup(once, worklogId, k);
      ToggleLookup(locals, worklogId, worklogId);
      ToggleLookup(once, worklogId, worklogId);
      if Get(locals, worklogId).Some? {
        var w := Get(locals, worklogId).value;
        assert w.(status := Toggled(w.status)).(status := Toggled(Toggled(w.status))) == w by {
          match w.status
          case Created =>
          case Staged =>
          case Pushed =>
        }
      }
    }
    Extensionality(twice, locals);
  }

  /** `handle_stage_all_worklogs`: every Created worklog of the snapshot is saved as Staged, then a refresh starts. */
  method HandleStageAllWorklogs(tui: Tui, db: Db)
    requires db.Valid()
    modifies db`localWorklogs, tui`refreshPending
    ensures db.Valid()
    ensures db.localWorklogs == SaveAll(old(db.localWorklogs), WithState(WithStatus(tui.data.worklogs, [Created]), Staged))
    ensures tui.refreshPending == if old(tui.refreshPending).Some? then old(tui.refreshPending) else Some(tui.data.ui)
  {
    var created := WithStatus(tui.data.worklogs, [Created]);
    SaveEach(db, WithState(created, Staged));
    tui.RefreshData();
  }

  /** On a snapshot of the store, stage-all turns every Created into Staged and touches nothing else. */
  lemma StageAllLookup(locals: seq<(string, LocalWorklog)>, k: string)
    requires LocalsKeyed(locals)
    ensures var after := SaveAll(locals, WithState(WithStatus(Values(locals), [Created]), Staged));
            Get(after, k) == if Get(locals, k).Some? && Get(locals, k).value.status == Created
                             then Some(Get(locals, k).value.(status := Staged)) else Get(locals, k)
  {
    var created := WithStatus(Values(locals), [Created]);
    StoreIdsAscending(locals);
    WithStatusAscending(Values(locals), [Created]);
    forall i | 0 <= i < |created| ensures created[i] in Values(locals) {
      assert created[i] in created;
    }
    RestatusLookup(locals, created, Staged, k);
    if k in IdsOf(created) {
      FilteredIdStored(locals, [Created], k);
    }
    if Get(locals, k).Some? && Get(locals, k).value.status == Created {
      StoredInFilter(locals, [Created], k);
    }
  }

  // ---------------------------------------------------------------------
  // A worklog from a meeting
  // ---------------------------------------------------------------------

  /** The comment a meeting worklog carries. */
  function MeetingComment(m: Meeting): string {
    "Meeting: " + m.title.UnwrapOr("Untitled")
  }

  /**
   * `create_worklog_from_meeting`: a Created worklog for the meeting's
   * span, linked to it; a running wizard counts it, adds its time and
   * keeps its id for rollback. `id` is the md5 id the program derives.
   */
  method CreateWorklogFromMeeting(tui: Tui, db: Db, m: Meeting, issueKey: string, id: string) returns (w: LocalWorklog)
    requires db.Valid()
    modifies db`localWorklogs, tui`wizard
    ensures db.Valid()
    ensures w.timeSpentSeconds == m.end - m.start && w.started == m.start
    ensures w.issueId == issueKey && w.meetingId == Some(m.id) && w.status == Created && w.worklogId == None
    ensures w == NewLocalWorklog(id, m.start, m.end - m.start, issueKey, Some(MeetingComment(m)), Some(m.id))
    ensures db.localWorklogs == Insert(old(db.localWorklogs), id, w)
    ensures old(tui.wizard).None? ==> tui.wizard == None
    ensures old(tui.wizard).Some? ==> tui.wizard == Some(RecordMeetingWorklog(old(tui.wizard).value, m.end - m.start, id))
  {
    var seconds := m.end - m.start;
    w := CreateNewLocalWorklog(db, id, m.start, seconds, issueKey, Some(MeetingComment(m)), Some(m.id));
    if tui.wizard.Some? {
      tui.wizard := Some(RecordMeetingWorklog(tui.wizard.value, seconds, w.id));
    }
  }
}
