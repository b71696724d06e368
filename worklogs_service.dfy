/**
 * `LocalWorklogService` and `WorklogsService`: the store of local worklogs
 * and their push history, the recovery of missing history, reverting a
 * push, daily totals and gap days, and the replacement of the Jira
 * worklogs of a date range.
 *
 * Durations are whole seconds; the program's hours are seconds / 3600.
 * The md5 ids the program derives (for a new worklog and for a history)
 * and the current instant are parameters.
 */
module WorklogsService {
  import opened Wrappers
  import opened Text
  import opened Tree
  import opened Model
  import opened Storage
  import opened JiraService

  // ---------------------------------------------------------------------
  // Queries and single-record updates
  // ---------------------------------------------------------------------

  /** `get_all_local_worklogs_by_status`: the records, in store order, whose status is listed. */
  function WithStatus(ws: seq<LocalWorklog>, statuses: seq<LocalWorklogState>): (r: seq<LocalWorklog>)
    ensures |r| <= |ws|
    ensures forall w :: w in r <==> w in ws && w.status in statuses
  {
    if |ws| == 0 then []
    else
      var rest := WithStatus(ws[1..], statuses);
      assert forall w :: w in ws <==> w == ws[0] || w in ws[1..] by {
        assert ws == [ws[0]] + ws[1..];
      }
      if ws[0].status in statuses then [ws[0]] + rest else rest
  }

  /** Asking for every status returns the whole store, asking for none returns nothing. */
  lemma {:induction false} WithStatusExtremes(ws: seq<LocalWorklog>)
    ensures WithStatus(ws, [Created, Staged, Pushed]) == ws
    ensures WithStatus(ws, []) == []
    decreases |ws|
  {
    if |ws| > 0 {
      WithStatusExtremes(ws[1..]);
      assert ws[0].status in [Created, Staged, Pushed] by {
        match ws[0].status
        case Created =>
        case Staged =>
        case Pushed =>
      }
      assert ws == [ws[0]] + ws[1..];
    }
  }

  /** `save_local_worklog`: insert or overwrite under the worklog's id. */
  method SaveLocalWorklog(db: Db, w: LocalWorklog)
    requires db.Valid()
    modifies db`localWorklogs
    ensures db.Valid()
    ensures db.localWorklogs == Insert(old(db.localWorklogs), w.id, w)
  {
    InsertKeepsLocalsKeyed(db.localWorklogs, w);
    db.localWorklogs := Insert(db.localWorklogs, w.id, w);
  }

  /** `remove_local_worklog`: drop the record with the worklog's id. */
  method RemoveLocalWorklog(db: Db, w: LocalWorklog)
    requires db.Valid()
    modifies db`localWorklogs
    ensures db.Valid()
    ensures db.localWorklogs == Remove(old(db.localWorklogs), w.id)
  {
    RemoveKeepsLocalsKeyed(db.localWorklogs, w.id);
    db.localWorklogs := Remove(db.localWorklogs, w.id);
  }

  // ---------------------------------------------------------------------
  // Creating a worklog
  // ---------------------------------------------------------------------

  /** The comment a new worklog carries: its id tagged, then the message or `no_msg`. */
  function NewComment(id: string, message: Option<string>): (c: string)
    ensures StartsWith(c, "wtf[" + id + "]-")
  {
    "wtf[" + id + "]-" + message.UnwrapOr("no_msg")
  }

  /** Reads back the id tagged at the front of a comment. */
  function CommentId(c: string): (r: Option<string>)
    ensures r.Some? ==> StartsWith(c, "wtf[" + r.value + "]")
  {
    if StartsWith(c, "wtf[") && ']' in c[4..] then
      var rest := c[4..];
      var i := IndexOf(rest, ']');
      assert c[..4 + i + 1] == "wtf[" + rest[..i] + "]";
      Some(rest[..i])
    else None
  }

  /** The tagged id reads back from the comment, whatever the message. */
  lemma CommentIdRoundTrip(id: string, message: Option<string>)
    requires ']' !in id
    ensures CommentId(NewComment(id, message)) == Some(id)
  {
    var c := NewComment(id, message);
    var tail := "]-" + message.UnwrapOr("no_msg");
    assert c == "wtf[" + (id + tail);
    assert c[4..] == id + tail;
    IndexOfAfterPrefix(id, tail, ']');
    assert (id + tail)[..|id|] == id;
  }

  /** The worklog `create_new_local_worklogs` builds. */
  function NewLocalWorklog(id: string, started: int, timeSpentSeconds: int, issueId: string,
                           message: Option<string>, meetingId: Option<string>): (w: LocalWorklog)
    ensures w.id == id && w.status == Created && w.worklogId == None
    ensures w.comment == NewComment(id, message)
    ensures w.started == started && w.timeSpentSeconds == timeSpentSeconds
    ensures w.issueId == issueId && w.meetingId == meetingId
  {
    LocalWorklog(id, NewComment(id, message), timeSpentSeconds, issueId, Created, started, meetingId, None)
  }

  /** `create_new_local_worklogs`: build a Created worklog and store it under its id. */
  method CreateNewLocalWorklog(db: Db, id: string, started: int, timeSpentSeconds: int, issueId: string,
                               message: Option<string>, meetingId: Option<string>) returns (w: LocalWorklog)
    requires db.Valid()
    modifies db`localWorklogs
    ensures db.Valid()
    ensures w == NewLocalWorklog(id, started, timeSpentSeconds, issueId, message, meetingId)
    ensures db.localWorklogs == Insert(old(db.localWorklogs), id, w)
  {
    w := NewLocalWorklog(id, started, timeSpentSeconds, issueId, message, meetingId);
    SaveLocalWorklog(db, w);
  }

  // ---------------------------------------------------------------------
  // History
  // ---------------------------------------------------------------------

  /** `historize`: store one history holding exactly `ids`, in order, and return its id. */
  method Historize(db: Db, historyId: string, now: int, ids: seq<string>) returns (hid: string)
    requires db.Valid()
    modifies db`histories
    ensures db.Valid()
    ensures hid == historyId
    ensures db.histories == Insert(old(db.histories), historyId, LocalWorklogHistory(historyId, now, ids))
  {
    var h := LocalWorklogHistory(historyId, now, ids);
    InsertKeepsHistoriesKeyed(db.histories, h);
    db.histories := Insert(db.histories, historyId, h);
    hid := historyId;
  }

  /** Every worklog id some history lists. */
  function HistorizedIds(hs: seq<LocalWorklogHistory>): (s: set<string>)
    ensures forall id :: id in s <==> exists i :: 0 <= i < |hs| && id in hs[i].localWorklogsId
  {
    if |hs| == 0 then {}
    else
      var n := |hs| - 1;
      var s := HistorizedIds(hs[..n]) + (set id | id in hs[n].localWorklogsId);
      assert forall i :: 0 <= i < n ==> hs[..n][i] == hs[i];
      s
  }

  /** The ids, in order, of the given worklogs that are not in `seen`. */
  function Unhistorized(ws: seq<LocalWorklog>, seen: set<string>): (ids: seq<string>)
    ensures |ids| <= |ws|
    ensures forall k :: 0 <= k < |ids| ==> ids[k] !in seen
    ensures forall k :: 0 <= k < |ids| ==> exists i :: 0 <= i < |ws| && ws[i].id == ids[k]
    ensures forall i :: 0 <= i < |ws| && ws[i].id !in seen ==> ws[i].id in ids
    ensures ids == [] <==> forall i :: 0 <= i < |ws| ==> ws[i].id in seen
  {
    if |ws| == 0 then []
    else
      var rest := Unhistorized(ws[1..], seen);
      assert forall i :: 0 < i < |ws| ==> ws[1..][i - 1] == ws[i];
      if ws[0].id in seen then rest else [ws[0].id] + rest
  }

  /** The ids the recovery would historize: Pushed worklogs that no history lists. */
  function RecoveryIds(locals: seq<(string, LocalWorklog)>, histories: seq<(string, LocalWorklogHistory)>): seq<string>
  {
    Unhistorized(WithStatus(Values(locals), [Pushed]), HistorizedIds(Values(histories)))
  }

  /** An id is recovered iff it is a Pushed worklog's and no history lists it. */
  lemma RecoveryIdsIff(locals: seq<(string, LocalWorklog)>, histories: seq<(string, LocalWorklogHistory)>, id: string)
    ensures id in RecoveryIds(locals, histories) <==>
      (exists w :: w in Values(locals) && w.id == id && w.status == Pushed)
      && (forall h :: h in Values(histories) ==> id !in h.localWorklogsId)
  {
    if id in RecoveryIds(locals, histories) {
      RecoveredIsUnlisted(locals, histories, id);
    }
    if (exists w :: w in Values(locals) && w.id == id && w.status == Pushed)
       && (forall h :: h in Values(histories) ==> id !in h.localWorklogsId) {
      var w :| w in Values(locals) && w.id == id && w.status == Pushed;
      UnlistedIsRecovered(locals, histories, w);
    }
  }

  lemma RecoveredIsUnlisted(locals: seq<(string, LocalWorklog)>, histories: seq<(string, LocalWorklogHistory)>, id: string)
    requires id in RecoveryIds(locals, histories)
    ensures exists w :: w in Values(locals) && w.id == id && w.status == Pushed
    ensures forall h :: h in Values(histories) ==> id !in h.localWorklogsId
  {
    var pushed := WithStatus(Values(locals), [Pushed]);
    var ids := RecoveryIds(locals, histories);
    var hs := Values(histories);
    var k :| 0 <= k < |ids| && ids[k] == id;
    var i :| 0 <= i < |pushed| && pushed[i].id == id;
    assert pushed[i] in pushed;
    forall h | h in hs ensures id !in h.localWorklogsId {
      var j :| 0 <= j < |hs| && hs[j] == h;
    }
  }

  lemma UnlistedIsRecovered(locals: seq<(string, LocalWorklog)>, histories: seq<(string, LocalWorklogHistory)>, w: LocalWorklog)
    requires w in Values(locals) && w.status == Pushed
    requires forall h :: h in Values(histories) ==> w.id !in h.localWorklogsId
    ensures w.id in RecoveryIds(locals, histories)
  {
    var pushed := WithStatus(Values(locals), [Pushed]);
    var hs := Values(histories);
    assert w in pushed;
    var i :| 0 <= i < |pushed| && pushed[i] == w;
    assert w.id !in HistorizedIds(hs) by {
      forall j | 0 <= j < |hs| ensures w.id !in hs[j].localWorklogsId {
        assert hs[j] in hs;
      }
    }
  }

  /**
   * Recovery with a fresh history id leaves nothing more to recover, so a
   * second run stores nothing.
   */
  lemma RecoveryIdempotent(locals: seq<(string, LocalWorklog)>, histories: seq<(string, LocalWorklogHistory)>,
                           historyId: string, now: int)
    requires HistoriesKeyed(histories) && !HasKey(histories, historyId)
    ensures RecoveryIds(locals, Insert(histories, historyId,
              LocalWorklogHistory(historyId, now, RecoveryIds(locals, histories)))) == []
  {
    var ids := RecoveryIds(locals, histories);
    var h := LocalWorklogHistory(historyId, now, ids);
    var after := Insert(histories, historyId, h);
    var again := RecoveryIds(locals, after);
    var pushed := WithStatus(Values(locals), [Pushed]);
    forall i | 0 <= i < |pushed| ensures pushed[i].id in HistorizedIds(Values(after)) {
      assert pushed[i] in pushed;
      ListedAfterRecovery(locals, histories, historyId, now, pushed[i]);
    }
  }

  /** Once the recovery stores its history, every Pushed worklog is listed by some history. */
  lemma ListedAfterRecovery(locals: seq<(string, LocalWorklog)>, histories: seq<(string, LocalWorklogHistory)>,
                            historyId: string, now: int, w: LocalWorklog)
    requires HistoriesKeyed(histories) && !HasKey(histories, historyId)
    requires w in Values(locals) && w.status == Pushed
    ensures w.id in HistorizedIds(Values(Insert(histories, historyId,
              LocalWorklogHistory(historyId, now, RecoveryIds(locals, histories)))))
  {
    var h := LocalWorklogHistory(historyId, now, RecoveryIds(locals, histories));
    RecoveryIdsIff(locals, histories, w.id);
    if exists oh :: oh in Values(histories) && w.id in oh.localWorklogsId {
      var oh :| oh in Values(histories) && w.id in oh.localWorklogsId;
      StillListed(histories, historyId, h, oh, w.id);
    } else {
      StillListed(histories, historyId, h, h, w.id);
    }
  }

  /** An id listed by an old history, or by the inserted one, is listed after the insertion. */
  lemma StillListed(histories: seq<(string, LocalWorklogHistory)>, historyId: string, h: LocalWorklogHistory,
                    oh: LocalWorklogHistory, id: string)
    requires HistoriesKeyed(histories) && !HasKey(histories, historyId)
    requires oh == h || oh in Values(histories)
    requires id in oh.localWorklogsId
    ensures id in HistorizedIds(Values(Insert(histories, historyId, h)))
  {
    var after := Insert(histories, historyId, h);
    var x := if oh == h then (historyId, h) else HistoryEntry(histories, oh);
    assert x in after;
    var j :| 0 <= j < |after| && after[j] == x;
    assert Values(after)[j] == oh;
  }

  /** The entry an old history is stored under; its key is not the new one. */
  ghost function HistoryEntry(histories: seq<(string, LocalWorklogHistory)>, oh: LocalWorklogHistory): (x: (string, LocalWorklogHistory))
    requires oh in Values(histories)
    ensures x in histories && x.1 == oh
  {
    var i :| 0 <= i < |histories| && Values(histories)[i] == oh;
    histories[i]
  }

  /** `create_history_for_pushed_worklogs`: historize the unlisted Pushed worklogs, if any. */
  method CreateHistoryForPushedWorklogs(db: Db, historyId: string, now: int)
    requires db.Valid()
    modifies db`histories
    ensures db.Valid()
    ensures RecoveryIds(old(db.localWorklogs), old(db.histories)) == [] ==> db.histories == old(db.histories)
    ensures RecoveryIds(old(db.localWorklogs), old(db.histories)) != [] ==>
      db.histories == Insert(old(db.histories), historyId,
                             LocalWorklogHistory(historyId, now, RecoveryIds(old(db.localWorklogs), old(db.histories))))
  {
    var pushed := WithStatus(Values(db.localWorklogs), [Pushed]);
    if |pushed| == 0 {
      assert Unhistorized(pushed, HistorizedIds(Values(db.histories))) == [];
      return;
    }
    var history := Values(db.histories);
    var seen: set<string> := {};
    var i := 0;
    while i < |history|
      invariant 0 <= i <= |history|
      invariant seen == HistorizedIds(history[..i])
    {
      var ids := history[i].localWorklogsId;
      var j := 0;
      while j < |ids|
        invariant 0 <= j <= |ids|
        invariant seen == HistorizedIds(history[..i]) + (set id | id in ids[..j])
      {
        seen := seen + {ids[j]};
        assert ids[..j + 1] == ids[..j] + [ids[j]];
        j := j + 1;
      }
      assert ids[..j] == ids;
      assert history[..i + 1][..i] == history[..i];
      i := i + 1;
    }
    assert history[..i] == history;
    var worklogIds := Unhistorized(pushed, seen);
    if |worklogIds| == 0 {
      return;
    }
    var _ := Historize(db, historyId, now, worklogIds);
  }

  /** `delete_history_from_db`: drop the history record only; the worklogs stay as they are. */
  method DeleteHistoryFromDb(db: Db, historyId: string) returns (r: Result<(), string>)
    requires db.Valid()
    modifies db`histories
    ensures db.Valid()
    ensures r.Ok?
    ensures db.histories == Remove(old(db.histories), historyId)
    ensures unchanged(db`localWorklogs) && unchanged(db`worklogs)
  {
    RemoveKeepsHistoriesKeyed(db.histories, historyId);
    db.histories := Remove(db.histories, historyId);
    r := Ok(());
  }

  // ---------------------------------------------------------------------
  // Reverting a push
  // ---------------------------------------------------------------------

  /** The listed worklogs still in the store, in list order (`filter_map(get_worklog)`). */
  function RevertTargets(locals: seq<(string, LocalWorklog)>, ids: seq<string>): (r: seq<LocalWorklog>)
    requires LocalsKeyed(locals)
    ensures |r| <= |ids|
    ensures forall w :: w in r ==> (w.id, w) in locals && w.id in ids
    ensures forall id :: id in ids && HasKey(locals, id) ==> Get(locals, id).value in r
  {
    if |ids| == 0 then []
    else
      var n := |ids| - 1;
      var prev := RevertTargets(locals, ids[..n]);
      assert forall id :: id in ids <==> id in ids[..n] || id == ids[n] by {
        assert ids == ids[..n] + [ids[n]];
      }
      GetOrdered(locals, ids[n]);
      match Get(locals, ids[n])
      case Some(w) =>
        var i :| 0 <= i < |locals| && locals[i] == (ids[n], w);
        assert w.id == ids[n];
        prev + [w]
      case None => prev
  }

  /** The ids of the targets that have a Jira worklog: the ones revert removes. */
  function PushedIds(ts: seq<LocalWorklog>): (ids: set<string>)
    ensures forall id :: id in ids <==> exists t :: t in ts && t.worklogId.Some? && t.id == id
  {
    set t | t in ts && t.worklogId.Some? :: t.id
  }

  /** The Jira ids of the targets that have one: the delete calls revert makes. */
  function JiraIds(ts: seq<LocalWorklog>): (ids: set<string>)
    ensures forall id :: id in ids <==> exists t :: t in ts && t.worklogId == Some(id)
  {
    set t | t in ts && t.worklogId.Some? :: t.worklogId.value
  }

  /** The local store after removing every target that has a Jira worklog. */
  function RemoveReverted(locals: seq<(string, LocalWorklog)>, ts: seq<LocalWorklog>): (r: seq<(string, LocalWorklog)>)
    requires LocalsKeyed(locals)
    ensures LocalsKeyed(r)
    ensures forall id :: id in PushedIds(ts) ==> !HasKey(r, id)
    ensures forall k :: k !in PushedIds(ts) ==> Get(r, k) == Get(locals, k)
  {
    if |ts| == 0 then locals
    else
      var n := |ts| - 1;
      var prev := RemoveReverted(locals, ts[..n]);
      PushedIdsLast(ts);
      if ts[n].worklogId.Some? then
        RemoveRevertedStep(locals, prev, PushedIds(ts[..n]), ts[n].id);
        Remove(prev, ts[n].id)
      else prev
  }

  /** The pushed ids of the targets are those of all but the last, and the last one's if it was pushed. */
  lemma PushedIdsLast(ts: seq<LocalWorklog>)
    requires |ts| > 0
    ensures PushedIds(ts) == PushedIds(ts[..|ts| - 1]) + (if ts[|ts| - 1].worklogId.Some? then {ts[|ts| - 1].id} else {})
  {
    var n := |ts| - 1;
    assert ts == ts[..n] + [ts[n]];
  }

  /** Removing one more id keeps the removal facts, with that id added to the removed ones. */
  lemma RemoveRevertedStep(locals: seq<(string, LocalWorklog)>, prev: seq<(string, LocalWorklog)>, ids: set<string>, id: string)
    requires LocalsKeyed(prev)
    requires forall x :: x in ids ==> !HasKey(prev, x)
    requires forall k :: k !in ids ==> Get(prev, k) == Get(locals, k)
    ensures LocalsKeyed(Remove(prev, id))
    ensures forall x :: x in ids + {id} ==> !HasKey(Remove(prev, id), x)
    ensures forall k :: k !in ids + {id} ==> Get(Remove(prev, id), k) == Get(locals, k)
  {
    RemoveKeepsLocalsKeyed(prev, id);
    forall k ensures Get(Remove(prev, id), k) == if k == id then None else Get(prev, k) {
      GetRemove(prev, id, k);
    }
  }

  /** The Jira-worklog tree after the delete calls; the i-th target's call gets `replies(i)`. */
  function DeleteRemote(ws: seq<(string, JiraWorklog)>, ts: seq<LocalWorklog>, replies: nat -> DeleteReply): (r: seq<(string, JiraWorklog)>)
    requires WorklogsKeyed(ws)
    ensures WorklogsKeyed(r)
    ensures forall k :: k !in JiraIds(ts) ==> Get(r, k) == Get(ws, k)
    ensures forall k :: Get(r, k).Some? ==> Get(r, k) == Get(ws, k)
  {
    if |ts| == 0 then ws
    else
      var n := |ts| - 1;
      var prev := DeleteRemote(ws, ts[..n], replies);
      assert forall t :: t in ts <==> t in ts[..n] || t == ts[n] by {
        assert ts == ts[..n] + [ts[n]];
      }
      if ts[n].worklogId.Some? then AfterDelete(prev, ts[n].worklogId.value, replies(n)) else prev
  }

  /** A Jira worklog that every delete call reported gone or forbidden is gone from the local copy. */
  lemma {:induction false} DeleteRemoteDrops(ws: seq<(string, JiraWorklog)>, ts: seq<LocalWorklog>, replies: nat -> DeleteReply, i: nat)
    requires WorklogsKeyed(ws)
    requires i < |ts| && ts[i].worklogId.Some? && DropsLocalCopy(replies(i))
    ensures !HasKey(DeleteRemote(ws, ts, replies), ts[i].worklogId.value)
    decreases |ts|
  {
    var n := |ts| - 1;
    var prev := DeleteRemote(ws, ts[..n], replies);
    assert DeleteRemote(ws, ts, replies) ==
      if ts[n].worklogId.Some? then AfterDelete(prev, ts[n].worklogId.value, replies(n)) else prev;
    if i < n {
      assert ts[..n][i] == ts[i];
      DeleteRemoteDrops(ws, ts[..n], replies, i);
      if ts[n].worklogId.Some? {
        MissingStaysMissing(prev, ts[i].worklogId.value, ts[n].worklogId.value, replies(n));
      }
    }
  }

  /** A delete call never brings back a worklog that is already gone. */
  lemma MissingStaysMissing(ws: seq<(string, JiraWorklog)>, k: string, worklogId: string, reply: DeleteReply)
    requires WorklogsKeyed(ws) && !HasKey(ws, k)
    ensures !HasKey(AfterDelete(ws, worklogId, reply), k)
  {
  }

  /**
   * `revert_worklog_history`: for every listed worklog still stored that
   * has a Jira id, ask Jira to delete it and remove the local one
   * (whatever Jira answers); then remove the history.
   */
  method RevertWorklogHistory(db: Db, h: LocalWorklogHistory, replies: nat -> DeleteReply)
    requires db.Valid()
    modifies db`localWorklogs, db`worklogs, db`histories
    ensures db.Valid()
    ensures db.localWorklogs == RemoveReverted(old(db.localWorklogs), RevertTargets(old(db.localWorklogs), h.localWorklogsId))
    ensures db.worklogs == DeleteRemote(old(db.worklogs), RevertTargets(old(db.localWorklogs), h.localWorklogsId), replies)
    ensures db.histories == Remove(old(db.histories), h.id)
  {
    var targets := RevertTargets(db.localWorklogs, h.localWorklogsId);
    RevertAll(db, targets, replies);
    var _ := DeleteHistoryFromDb(db, h.id);
  }

  /** The loop of the revert: one `RevertOne` step per target, the i-th with `replies(i)`. */
  method RevertAll(db: Db, targets: seq<LocalWorklog>, replies: nat -> DeleteReply)
    requires db.Valid()
    modifies db`localWorklogs, db`worklogs
    ensures db.Valid()
    ensures db.localWorklogs == RemoveReverted(old(db.localWorklogs), targets)
    ensures db.worklogs == DeleteRemote(old(db.worklogs), targets, replies)
  {
    ghost var locals0 := db.localWorklogs;
    ghost var remote0 := db.worklogs;
    for i := 0 to |targets|
      invariant db.Valid()
      invariant db.localWorklogs == RemoveReverted(locals0, targets[..i])
      invariant db.worklogs == DeleteRemote(remote0, targets[..i], replies)
    {
      RevertLast(locals0, remote0, targets[..i + 1], replies);
      assert targets[..i + 1][..i] == targets[..i] && targets[..i + 1][i] == targets[i];
      RevertOne(db, targets[i], replies(i));
    }
    assert targets[..|targets|] == targets;
  }

  /** The revert of a list of targets is the revert of all but the last, then the last one's step. */
  lemma RevertLast(locals: seq<(string, LocalWorklog)>, ws: seq<(string, JiraWorklog)>, ts: seq<LocalWorklog>, replies: nat -> DeleteReply)
    requires LocalsKeyed(locals) && WorklogsKeyed(ws) && |ts| > 0
    ensures var n := |ts| - 1;
      && RemoveReverted(locals, ts) ==
         (if ts[n].worklogId.Some? then Remove(RemoveReverted(locals, ts[..n]), ts[n].id) else RemoveReverted(locals, ts[..n]))
      && DeleteRemote(ws, ts, replies) ==
         (if ts[n].worklogId.Some? then AfterDelete(DeleteRemote(ws, ts[..n], replies), ts[n].worklogId.value, replies(n))
          else DeleteRemote(ws, ts[..n], replies))
  {
  }

  /** One step of the revert: a target with a Jira id is deleted there and removed locally. */
  method RevertOne(db: Db, wl: LocalWorklog, reply: DeleteReply)
    requires db.Valid()
    modifies db`localWorklogs, db`worklogs
    ensures db.Valid()
    ensures db.localWorklogs == if wl.worklogId.Some? then Remove(old(db.localWorklogs), wl.id) else old(db.localWorklogs)
    ensures db.worklogs == if wl.worklogId.Some? then AfterDelete(old(db.worklogs), wl.worklogId.value, reply) else old(db.worklogs)
  {
    if wl.worklogId.Some? {
      DeleteWorklog(db, wl.issueId, wl.worklogId.value, reply);
      RemoveLocalWorklog(db, wl);
    }
  }

  // ---------------------------------------------------------------------
  // Daily totals and gap days
  // ---------------------------------------------------------------------

  /** `calculate_daily_total`: seconds logged on a day, whatever the status. */
  function DailyTotal(ws: seq<LocalWorklog>, day: int): (total: int)
    ensures (forall i :: 0 <= i < |ws| ==> ws[i].timeSpentSeconds >= 0) ==> total >= 0
  {
    if |ws| == 0 then 0
    else
      (if DayOf(ws[0].started) == day then ws[0].timeSpentSeconds else 0) + DailyTotal(ws[1..], day)
  }

  lemma {:induction false} DailyTotalAppend(a: seq<LocalWorklog>, b: seq<LocalWorklog>, day: int)
    ensures DailyTotal(a + b, day) == DailyTotal(a, day) + DailyTotal(b, day)
    decreases |a|
  {
    if |a| == 0 {
      assert a + b == b;
    } else {
      assert (a + b)[1..] == a[1..] + b;
      DailyTotalAppend(a[1..], b, day);
    }
  }

  /** Staging, unstaging or pushing a worklog leaves every daily total as it was. */
  lemma {:induction false} DailyTotalIgnoresStatus(ws: seq<LocalWorklog>, i: nat, s: LocalWorklogState, day: int)
    requires i < |ws|
    ensures DailyTotal(ws[i := ws[i].(status := s)], day) == DailyTotal(ws, day)
    decreases |ws|
  {
    if i > 0 {
      assert ws[i := ws[i].(status := s)][1..] == ws[1..][i - 1 := ws[1..][i - 1].(status := s)];
      DailyTotalIgnoresStatus(ws[1..], i - 1, s, day);
    }
  }

  /** Worklogs started on other days do not count. */
  lemma {:induction false} DailyTotalOtherDays(ws: seq<LocalWorklog>, day: int)
    requires forall i :: 0 <= i < |ws| ==> DayOf(ws[i].started) != day
    ensures DailyTotal(ws, day) == 0
    decreases |ws|
  {
    if |ws| > 0 {
      DailyTotalOtherDays(ws[1..], day);
    }
  }

  /** A day `find_gap_days` reports: a weekday under the threshold that the limit leaves room on. */
  predicate IsGapDay(ws: seq<LocalWorklog>, d: int, limit: int, threshold: int) {
    !IsWeekend(d) && DailyTotal(ws, d) < threshold && limit - DailyTotal(ws, d) > 0
  }

  /** The gap a day contributes: the seconds the limit leaves, on a gap day only. */
  function GapOn(ws: seq<LocalWorklog>, d: int, limit: int, threshold: int): seq<(int, int)>
  {
    if IsGapDay(ws, d, limit, threshold) then [(d, limit - DailyTotal(ws, d))] else []
  }

  /** The gaps of the days `start..=last`, in ascending order, each with the seconds to add. */
  function GapDays(ws: seq<LocalWorklog>, start: int, last: int, limit: int, threshold: int): (gaps: seq<(int, int)>)
    ensures |gaps| <= if last < start then 0 else last - start + 1
    decreases last - start
  {
    if last < start then []
    else GapDays(ws, start, last - 1, limit, threshold) + GapOn(ws, last, limit, threshold)
  }

  /** Every gap is a gap day of `start..=last` with its missing seconds, and the days ascend. */
  predicate SoundGaps(gaps: seq<(int, int)>, ws: seq<LocalWorklog>, start: int, last: int, limit: int, threshold: int) {
    && (forall k :: 0 <= k < |gaps| ==>
          start <= gaps[k].0 <= last && IsGapDay(ws, gaps[k].0, limit, threshold)
          && gaps[k].1 == limit - DailyTotal(ws, gaps[k].0))
    && (forall k, l :: 0 <= k < l < |gaps| ==> gaps[k].0 < gaps[l].0)
  }

  /** What `find_gap_days` reports is sound: only gap days, each once, in ascending order. */
  lemma {:induction false} GapDaysSound(ws: seq<LocalWorklog>, start: int, last: int, limit: int, threshold: int)
    ensures SoundGaps(GapDays(ws, start, last, limit, threshold), ws, start, last, limit, threshold)
    decreases last - start
  {
    if last >= start {
      GapDaysSound(ws, start, last - 1, limit, threshold);
      var prev := GapDays(ws, start, last - 1, limit, threshold);
      var gaps := prev + GapOn(ws, last, limit, threshold);
      assert GapDays(ws, start, last, limit, threshold) == gaps;
      assert forall k :: |prev| <= k < |gaps| ==> gaps[k] == (last, limit - DailyTotal(ws, last)) && IsGapDay(ws, last, limit, threshold);
      assert forall k :: 0 <= k < |prev| ==> gaps[k] == prev[k];
    }
  }

  lemma GapDaysStep(ws: seq<LocalWorklog>, start: int, d: int, limit: int, threshold: int)
    requires start <= d
    ensures GapDays(ws, start, d, limit, threshold) == GapDays(ws, start, d - 1, limit, threshold) + GapOn(ws, d, limit, threshold)
  {
  }

  /** Every gap day of the range is reported. */
  lemma {:induction false} GapDaysComplete(ws: seq<LocalWorklog>, start: int, last: int, limit: int, threshold: int, d: int)
    requires start <= d <= last && IsGapDay(ws, d, limit, threshold)
    ensures (d, limit - DailyTotal(ws, d)) in GapDays(ws, start, last, limit, threshold)
    decreases last - start
  {
    var prev := GapDays(ws, start, last - 1, limit, threshold);
    if d < last {
      GapDaysComplete(ws, start, last - 1, limit, threshold, d);
    } else {
      assert GapDays(ws, start, last, limit, threshold)[|prev|] == (d, limit - DailyTotal(ws, d));
    }
  }

  /** `find_gap_days`: walk the days from `start` to `end`, skipping weekends and full days. */
  method FindGapDays(db: Db, start: int, end: int, limit: int, threshold: int) returns (gaps: seq<(int, int)>)
    ensures gaps == GapDays(Values(db.localWorklogs), start, end, limit, threshold)
  {
    var ws := Values(db.localWorklogs);
    gaps := [];
    var current := start;
    while current <= end
      invariant start <= current && (current <= end + 1 || current == start)
      invariant gaps == GapDays(ws, start, current - 1, limit, threshold)
      decreases end - current
    {
      GapDaysStep(ws, start, current, limit, threshold);
      if Weekday(current) >= 5 {
        assert GapOn(ws, current, limit, threshold) == [];
        current := current + 1;
        continue;
      }
      var existing := DailyTotal(ws, current);
      if existing >= threshold {
        assert GapOn(ws, current, limit, threshold) == [];
        current := current + 1;
        continue;
      }
      var toAdd := limit - existing;
      if toAdd > 0 {
        assert GapOn(ws, current, limit, threshold) == [(current, toAdd)];
        gaps := gaps + [(current, toAdd)];
      } else {
        assert GapOn(ws, current, limit, threshold) == [];
      }
      current := current + 1;
    }
  }

  // ---------------------------------------------------------------------
  // Replacing the Jira worklogs of a date range
  // ---------------------------------------------------------------------

  predicate InDateRange(w: JiraWorklog, start: int, end: int) {
    start <= DayOf(w.started) <= end
  }

  /** The worklogs started outside `[start, end]`, in order. */
  function KeptOutside(ws: seq<JiraWorklog>, start: int, end: int): (r: seq<JiraWorklog>)
    ensures forall w :: w in r <==> w in ws && !InDateRange(w, start, end)
  {
    if |ws| == 0 then []
    else
      var rest := KeptOutside(ws[1..], start, end);
      assert forall w :: w in ws <==> w == ws[0] || w in ws[1..] by {
        assert ws == [ws[0]] + ws[1..];
      }
      if InDateRange(ws[0], start, end) then rest else [ws[0]] + rest
  }

  /** Worklogs as the records `save_all` writes: each under its own id. */
  function AsRecords(ws: seq<JiraWorklog>): (r: seq<(string, JiraWorklog)>)
    ensures |r| == |ws| && forall i :: 0 <= i < |ws| ==> r[i] == (ws[i].id, ws[i])
  {
    seq(|ws|, i requires 0 <= i < |ws| => (ws[i].id, ws[i]))
  }

  lemma {:induction false} InsertAllKeepsWorklogsKeyed(r: seq<(string, JiraWorklog)>, items: seq<(string, JiraWorklog)>)
    requires WorklogsKeyed(r)
    requires forall i :: 0 <= i < |items| ==> items[i].0 == items[i].1.id
    ensures WorklogsKeyed(InsertAll(r, items))
    decreases |items|
  {
    if |items| > 0 {
      InsertKeepsWorklogsKeyed(r, items[0].1);
      InsertAllKeepsWorklogsKeyed(Insert(r, items[0].0, items[0].1), items[1..]);
    }
  }

  lemma {:induction false} LastWithConcat<T(!new)>(a: seq<(string, T)>, b: seq<(string, T)>, k: string)
    ensures LastWith(a + b, k) == if LastWith(b, k).Some? then LastWith(b, k) else LastWith(a, k)
    decreases |b|
  {
    if |b| == 0 {
      assert a + b == a;
    } else {
      var n := |b| - 1;
      assert (a + b)[..|a + b| - 1] == a + b[..n];
      if b[n].0 != k {
        LastWithConcat(a, b[..n], k);
      }
    }
  }

  /** The kept records answer a lookup as the old tree does for a worklog outside the range. */
  lemma KeptLookup(old_ws: seq<(string, JiraWorklog)>, start: int, end: int, k: string)
    requires WorklogsKeyed(old_ws)
    ensures LastWith(AsRecords(KeptOutside(Values(old_ws), start, end)), k)
         == if Get(old_ws, k).Some? && !InDateRange(Get(old_ws, k).value, start, end) then Get(old_ws, k) else None
  {
    var kept := KeptOutside(Values(old_ws), start, end);
    var recs := AsRecords(kept);
    var lw := LastWith(recs, k);
    GetOrdered(old_ws, k);
    if lw.Some? {
      var i :| 0 <= i < |recs| && recs[i] == (k, lw.value);
      assert kept[i] in kept;
      var j :| 0 <= j < |old_ws| && old_ws[j].1 == kept[i];
      assert Values(old_ws)[j] == kept[i];
      assert old_ws[j] == (k, lw.value);
      assert old_ws[j] in old_ws;
    }
    if Get(old_ws, k).Some? && !InDateRange(Get(old_ws, k).value, start, end) {
      var w := Get(old_ws, k).value;
      var j :| 0 <= j < |old_ws| && old_ws[j] == (k, w);
      assert Values(old_ws)[j] == w;
      assert w in kept;
      var i :| 0 <= i < |kept| && kept[i] == w;
      assert recs[i] == (k, w);
      assert lw.Some?;
      var m :| 0 <= m < |recs| && recs[m] == (k, lw.value);
      assert kept[m] in kept;
      var j2 :| 0 <= j2 < |old_ws| && old_ws[j2].1 == kept[m];
      assert Values(old_ws)[j2] == kept[m];
      assert old_ws[j2] in old_ws && old_ws[j] in old_ws;
      Distinct(old_ws, old_ws[j2], old_ws[j]);
    }
  }

  /**
   * What a key holds once a range is replaced: the last new worklog with
   * that id, else the old worklog if it lies outside the range, else nothing.
   */
  function RangeLookup(old_ws: seq<(string, JiraWorklog)>, start: int, end: int, newWs: seq<JiraWorklog>, k: string): Option<JiraWorklog>
  {
    var latest := LastWith(AsRecords(newWs), k);
    if latest.Some? then latest
    else if Get(old_ws, k).Some? && !InDateRange(Get(old_ws, k).value, start, end) then Get(old_ws, k)
    else None
  }

  /**
   * The tree after `replace_worklogs_for_date_range`: a key holds the last
   * new worklog with that id, else the old worklog if it lies outside the
   * range, else nothing.
   */
  function ReplaceRange(old_ws: seq<(string, JiraWorklog)>, start: int, end: int, newWs: seq<JiraWorklog>): (r: seq<(string, JiraWorklog)>)
    requires WorklogsKeyed(old_ws)
    ensures WorklogsKeyed(r)
    ensures forall k :: Get(r, k) == RangeLookup(old_ws, start, end, newWs, k)
  {
    var kept := KeptOutside(Values(old_ws), start, end);
    var items := AsRecords(kept + newWs);
    assert items == AsRecords(kept) + AsRecords(newWs);
    InsertAllKeepsWorklogsKeyed([], items);
    forall k ensures Get(InsertAll([], items), k) == RangeLookup(old_ws, start, end, newWs, k) {
      GetInsertAll([], items, k);
      LastWithConcat(AsRecords(kept), AsRecords(newWs), k);
      KeptLookup(old_ws, start, end, k);
    }
    InsertAll([], items)
  }

  /** `replace_worklogs_for_date_range`: keep the outside worklogs, clear, save them with the new ones. */
  method ReplaceWorklogsForDateRange(db: Db, start: int, end: int, newWs: seq<JiraWorklog>)
    requires db.Valid()
    modifies db`worklogs
    ensures db.Valid()
    ensures db.worklogs == ReplaceRange(old(db.worklogs), start, end, newWs)
  {
    var kept := KeptOutside(Values(db.worklogs), start, end);
    var combined := kept + newWs;
    ghost var old_ws := db.worklogs;
    db.worklogs := [];
    assert AsRecords(combined) == AsRecords(kept) + AsRecords(newWs);
    InsertAllKeepsWorklogsKeyed([], AsRecords(combined));
    db.worklogs := InsertAll(db.worklogs, AsRecords(combined));
    assert db.worklogs == ReplaceRange(old_ws, start, end, newWs);
  }
}
