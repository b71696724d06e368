/**
 * The `worklog` command of the command line: the statistics the listing
 * prints, `reset`, `add`, `rm`, `push` and `cleanup`. Each command reads
 * the store once, then loops over what it read, saving or removing one
 * worklog at a time.
 */
module CliWorklog {
  import opened Wrappers
  import opened Lex
  import opened Text
  import opened Tree
  import opened Model
  import opened Storage
  import opened JiraService
  import opened WorklogsService
  import opened WorklogBatches

  // ---------------------------------------------------------------------
  // Statistics
  // ---------------------------------------------------------------------

  /** The seconds spent on some worklogs. */
  function TimeSpent(ws: seq<LocalWorklog>): int
    decreases |ws|
  {
    if |ws| == 0 then 0 else TimeSpent(ws[..|ws| - 1]) + ws[|ws| - 1].timeSpentSeconds
  }

  lemma TimeSpentSnoc(ws: seq<LocalWorklog>, w: LocalWorklog)
    ensures TimeSpent(ws + [w]) == TimeSpent(ws) + w.timeSpentSeconds
  {
    assert (ws + [w])[..|ws|] == ws;
  }

  /** A status filter of a list with one more worklog gains that worklog exactly when its status is listed. */
  lemma {:induction false} WithStatusSnoc(ws: seq<LocalWorklog>, w: LocalWorklog, statuses: seq<LocalWorklogState>)
    ensures WithStatus(ws + [w], statuses) == WithStatus(ws, statuses) + (if w.status in statuses then [w] else [])
    decreases |ws|
  {
    if |ws| > 0 {
      assert (ws + [w])[1..] == ws[1..] + [w];
      WithStatusSnoc(ws[1..], w, statuses);
    } else {
      assert ([w])[1..] == [];
    }
  }

  /** One more worklog counts once more for its own status only. */
  lemma StatusCountStep(ws: seq<LocalWorklog>, i: nat, s: LocalWorklogState)
    requires i < |ws|
    ensures |WithStatus(ws[..i + 1], [s])| == |WithStatus(ws[..i], [s])| + (if ws[i].status == s then 1 else 0)
  {
    assert ws[..i + 1] == ws[..i] + [ws[i]];
    WithStatusSnoc(ws[..i], ws[i], [s]);
  }

  /** How often a status occurs, 0 for one the map does not hold. */
  function Tally(counts: map<LocalWorklogState, nat>, s: LocalWorklogState): nat {
    if s in counts then counts[s] else 0
  }

  /** Every worklog has exactly one of the three statuses. */
  lemma {:induction false} StatusCountsPartition(ws: seq<LocalWorklog>)
    ensures |WithStatus(ws, [Created])| + |WithStatus(ws, [Staged])| + |WithStatus(ws, [Pushed])| == |ws|
    decreases |ws|
  {
    if |ws| > 0 {
      StatusCountsPartition(ws[1..]);
      match ws[0].status {
        case Created =>
        case Staged =>
        case Pushed =>
      }
    }
  }

  /** One more worklog adds its seconds to its own status only. */
  lemma TimeSpentStep(ws: seq<LocalWorklog>, s: LocalWorklogState)
    requires |ws| > 0
    ensures var n := |ws| - 1;
            TimeSpent(WithStatus(ws, [s])) ==
            TimeSpent(WithStatus(ws[..n], [s])) + (if ws[n].status == s then ws[n].timeSpentSeconds else 0)
  {
    var n := |ws| - 1;
    var init, w := ws[..n], ws[n];
    assert init + [w] == ws;
    WithStatusSnoc(init, w, [s]);
    if w.status == s {
      TimeSpentSnoc(WithStatus(init, [s]), w);
    } else {
      assert WithStatus(init, [s]) + [] == WithStatus(init, [s]);
    }
  }

  /** The time spent is the time spent in each status, added up. */
  lemma {:induction false} TimeSpentByStatus(ws: seq<LocalWorklog>)
    ensures TimeSpent(ws) == TimeSpent(WithStatus(ws, [Created])) + TimeSpent(WithStatus(ws, [Staged]))
                             + TimeSpent(WithStatus(ws, [Pushed]))
    decreases |ws|
  {
    if |ws| > 0 {
      TimeSpentByStatus(ws[..|ws| - 1]);
      TimeSpentStep(ws, Created);
      TimeSpentStep(ws, Staged);
      TimeSpentStep(ws, Pushed);
      match ws[|ws| - 1].status {
        case Created =>
        case Staged =>
        case Pushed =>
      }
    }
  }

  /**
   * `compute_worklogs_stats`: one pass counting each status that occurs
   * and adding up the seconds. A status is a key of the map exactly when
   * some worklog has it, and the counts add up to the number of worklogs.
   */
  method ComputeWorklogsStats(ws: seq<LocalWorklog>) returns (statusCount: map<LocalWorklogState, nat>, totalTimeSpent: int)
    ensures forall s :: s in statusCount <==> |WithStatus(ws, [s])| > 0
    ensures forall s :: s in statusCount ==> statusCount[s] == |WithStatus(ws, [s])|
    ensures Tally(statusCount, Created) + Tally(statusCount, Staged) + Tally(statusCount, Pushed) == |ws|
    ensures totalTimeSpent == TimeSpent(ws)
  {
    statusCount, totalTimeSpent := map[], 0;
    for i := 0 to |ws|
      invariant forall s :: s in statusCount <==> |WithStatus(ws[..i], [s])| > 0
      invariant forall s :: s in statusCount ==> statusCount[s] == |WithStatus(ws[..i], [s])|
      invariant totalTimeSpent == TimeSpent(ws[..i])
    {
      var w := ws[i];
      ghost var before := statusCount;
      statusCount := statusCount[w.status := Tally(statusCount, w.status) + 1];
      forall s ensures (s in statusCount <==> |WithStatus(ws[..i + 1], [s])| > 0)
                       && (s in statusCount ==> statusCount[s] == |WithStatus(ws[..i + 1], [s])|) {
        StatusCountStep(ws, i, s);
      }
      assert ws[..i + 1] == ws[..i] + [w];
      TimeSpentSnoc(ws[..i], w);
      totalTimeSpent := totalTimeSpent + w.timeSpentSeconds;
    }
    assert ws[..|ws|] == ws;
    StatusCountsPartition(ws);
  }

  // ---------------------------------------------------------------------
  // reset
  // ---------------------------------------------------------------------

  /** A worklog not yet pushed is Created or Staged. */
  lemma {:induction false} UnpushedCount(ws: seq<LocalWorklog>)
    ensures |WithStatus(ws, [Staged, Created])| + |WithStatus(ws, [Pushed])| == |ws|
    decreases |ws|
  {
    if |ws| > 0 {
      UnpushedCount(ws[1..]);
      match ws[0].status {
        case Created =>
        case Staged =>
        case Pushed =>
      }
    }
  }

  /**
   * `worklog reset`: every Created or Staged worklog is removed and their
   * number reported, which is the number of worklogs not Pushed.
   */
  method ResetCommand(db: Db) returns (removed: nat)
    requires db.Valid()
    modifies db`localWorklogs
    ensures db.Valid()
    ensures db.localWorklogs == RemoveAll(old(db.localWorklogs), IdsOf(WithStatus(Values(old(db.localWorklogs)), [Staged, Created])))
    ensures removed == |old(db.localWorklogs)| - |WithStatus(Values(old(db.localWorklogs)), [Pushed])|
  {
    var toRemove := WithStatus(Values(db.localWorklogs), [Staged, Created]);
    UnpushedCount(Values(db.localWorklogs));
    removed := |toRemove|;
    RemoveEach(db, toRemove);
  }

  // ---------------------------------------------------------------------
  // add and rm
  // ---------------------------------------------------------------------

  /** The worklogs, in order, that satisfy `p`. */
  function Keep(ws: seq<LocalWorklog>, p: LocalWorklog -> bool): (r: seq<LocalWorklog>)
    ensures |r| <= |ws|
    ensures forall w :: w in r <==> w in ws && p(w)
    decreases |ws|
  {
    if |ws| == 0 then []
    else
      var rest := Keep(ws[1..], p);
      assert forall w :: w in ws <==> w == ws[0] || w in ws[1..] by {
        assert ws == [ws[0]] + ws[1..];
      }
      if p(ws[0]) then [ws[0]] + rest else rest
  }

  /** Keeping some worklogs keeps their order. */
  lemma {:induction false} KeepAscending(ws: seq<LocalWorklog>, p: LocalWorklog -> bool)
    requires IdsAscending(ws)
    ensures IdsAscending(Keep(ws, p))
    decreases |ws|
  {
    if |ws| > 0 {
      var tail := ws[1..];
      assert IdsAscending(tail) by {
        forall i, j | 0 <= i < j < |tail| ensures Less(tail[i].id, tail[j].id) {
          assert tail[i] == ws[i + 1] && tail[j] == ws[j + 1];
        }
      }
      KeepAscending(tail, p);
      var rest := Keep(tail, p);
      if p(ws[0]) {
        forall j | 0 <= j < |rest| ensures Less(ws[0].id, rest[j].id) {
          assert rest[j] in rest;
          var m :| 0 <= m < |tail| && tail[m] == rest[j];
          assert ws[m + 1] == rest[j];
        }
        HeadAscending(ws[0], rest);
      }
    }
  }

  /** A worklog id names a selection: "all" names every id, any other word the ids it starts. */
  predicate Picked(ids: seq<string>, id: string) {
    "all" in ids || exists p :: p in ids && StartsWith(id, p)
  }

  /** The worklogs a list of ids names. */
  function Selection(ws: seq<LocalWorklog>, ids: seq<string>): (r: seq<LocalWorklog>)
    ensures forall w :: w in r <==> w in ws && Picked(ids, w.id)
  {
    if "all" in ids then ws else Keep(ws, (w: LocalWorklog) => exists p :: p in ids && StartsWith(w.id, p))
  }

  lemma SelectionAscending(ws: seq<LocalWorklog>, ids: seq<string>)
    requires IdsAscending(ws)
    ensures IdsAscending(Selection(ws, ids))
  {
    if "all" !in ids {
      KeepAscending(ws, (w: LocalWorklog) => exists p :: p in ids && StartsWith(w.id, p));
    }
  }

  /** The store after moving the named worklogs of status `from` to status `to`. */
  function Restaged(locals: seq<(string, LocalWorklog)>, ids: seq<string>, from: LocalWorklogState, to: LocalWorklogState)
    : (r: seq<(string, LocalWorklog)>)
    requires LocalsKeyed(locals)
    ensures LocalsKeyed(r)
  {
    SaveAll(locals, WithState(Selection(WithStatus(Values(locals), [from]), ids), to))
  }

  /**
   * Moving named worklogs between statuses: a worklog of status `from`
   * whose id is named now has status `to`; every other record, named or
   * not, is unchanged.
   */
  lemma RestagedLookup(locals: seq<(string, LocalWorklog)>, ids: seq<string>, from: LocalWorklogState,
                       to: LocalWorklogState, k: string)
    requires LocalsKeyed(locals)
    ensures Get(Restaged(locals, ids, from, to), k) ==
            if Get(locals, k).Some? && Get(locals, k).value.status == from && Picked(ids, k)
            then Some(Get(locals, k).value.(status := to)) else Get(locals, k)
  {
    var filtered := WithStatus(Values(locals), [from]);
    var chosen := Selection(filtered, ids);
    StoreIdsAscending(locals);
    WithStatusAscending(Values(locals), [from]);
    SelectionAscending(filtered, ids);
    forall i | 0 <= i < |chosen| ensures chosen[i] in Values(locals) {
      assert chosen[i] in chosen;
    }
    RestatusLookup(locals, chosen, to, k);
    SelectedIdIff(locals, ids, from, k);
  }

  /** `worklog add`: the named Created worklogs become Staged; their ids are reported. */
  method AddCommand(db: Db, ids: seq<string>) returns (added: seq<string>)
    requires db.Valid()
    modifies db`localWorklogs
    ensures db.Valid()
    ensures db.localWorklogs == Restaged(old(db.localWorklogs), ids, Created, Staged)
    ensures forall k :: k in added <==>
                          (Get(old(db.localWorklogs), k).Some? && Get(old(db.localWorklogs), k).value.status == Created
                           && Picked(ids, k))
  {
    var chosen := Selection(WithStatus(Values(db.localWorklogs), [Created]), ids);
    added := IdsOf(chosen);
    forall k ensures k in added <==> Get(db.localWorklogs, k).Some?
                                     && Get(db.localWorklogs, k).value.status == Created && Picked(ids, k) {
      SelectedIdIff(db.localWorklogs, ids, Created, k);
    }
    SaveEach(db, WithState(chosen, Staged));
  }

  /** `worklog rm`: the named Staged worklogs go back to Created; their ids are reported. */
  method RmCommand(db: Db, ids: seq<string>) returns (removed: seq<string>)
    requires db.Valid()
    modifies db`localWorklogs
    ensures db.Valid()
    ensures db.localWorklogs == Restaged(old(db.localWorklogs), ids, Staged, Created)
    ensures forall k :: k in removed <==>
                          (Get(old(db.localWorklogs), k).Some? && Get(old(db.localWorklogs), k).value.status == Staged
                           && Picked(ids, k))
  {
    var chosen := Selection(WithStatus(Values(db.localWorklogs), [Staged]), ids);
    removed := IdsOf(chosen);
    forall k ensures k in removed <==> Get(db.localWorklogs, k).Some?
                                       && Get(db.localWorklogs, k).value.status == Staged && Picked(ids, k) {
      SelectedIdIff(db.localWorklogs, ids, Staged, k);
    }
    SaveEach(db, WithState(chosen, Created));
  }

  /** An id is selected exactly when it holds a worklog of the status and is named. */
  lemma SelectedIdIff(locals: seq<(string, LocalWorklog)>, ids: seq<string>, from: LocalWorklogState, k: string)
    requires LocalsKeyed(locals)
    ensures k in IdsOf(Selection(WithStatus(Values(locals), [from]), ids)) <==>
            Get(locals, k).Some? && Get(locals, k).value.status == from && Picked(ids, k)
  {
    var chosen := Selection(WithStatus(Values(locals), [from]), ids);
    if k in IdsOf(chosen) {
      var i :| 0 <= i < |chosen| && IdsOf(chosen)[i] == k;
      assert chosen[i] in chosen;
      StoredUnderId(locals, chosen[i]);
    }
    if Get(locals, k).Some? && Get(locals, k).value.status == from && Picked(ids, k) {
      var w := Get(locals, k).value;
      var j :| 0 <= j < |locals| && locals[j] == (k, w);
      assert Values(locals)[j] == w;
      assert w in chosen;
      var m :| 0 <= m < |chosen| && chosen[m] == w;
      assert IdsOf(chosen)[m] == k;
    }
  }

  // ---------------------------------------------------------------------
  // push
  // ---------------------------------------------------------------------

  /** A worklog Jira accepted: Pushed, with Jira's id when Jira returned a worklog. */
  function Accepted(w: LocalWorklog, reply: AddTimeReply): (r: LocalWorklog)
    ensures r.status == Pushed
    ensures r.worklogId == if reply.Logged? then Some(reply.worklog.id) else w.worklogId
    ensures r.(status := w.status, worklogId := w.worklogId) == w
  {
    w.(status := Pushed, worklogId := if reply.Logged? then Some(reply.worklog.id) else w.worklogId)
  }

  /** The store after the first `|staged|` replies: every accepted worklog is saved. */
  function PushedStore(locals: seq<(string, LocalWorklog)>, staged: seq<LocalWorklog>, replies: nat -> AddTimeReply)
    : (r: seq<(string, LocalWorklog)>)
    requires LocalsKeyed(locals)
    ensures LocalsKeyed(r)
    decreases |staged|
  {
    if |staged| == 0 then locals
    else
      var n := |staged| - 1;
      var prev := PushedStore(locals, staged[..n], replies);
      if replies(n).Failed? then prev
      else
        InsertKeepsLocalsKeyed(prev, Accepted(staged[n], replies(n)));
        Insert(prev, staged[n].id, Accepted(staged[n], replies(n)))
  }

  /** The ids of the accepted worklogs, in push order. */
  function AcceptedIds(staged: seq<LocalWorklog>, replies: nat -> AddTimeReply): (ids: seq<string>)
    ensures |ids| <= |staged|
    decreases |staged|
  {
    if |staged| == 0 then []
    else
      var n := |staged| - 1;
      AcceptedIds(staged[..n], replies) + (if replies(n).Failed? then [] else [staged[n].id])
  }

  /** An id is listed exactly when some worklog with that id was accepted. */
  lemma {:induction false} AcceptedIdsMembers(staged: seq<LocalWorklog>, replies: nat -> AddTimeReply, k: string)
    ensures k in AcceptedIds(staged, replies) <==>
            exists i :: 0 <= i < |staged| && staged[i].id == k && !replies(i).Failed?
    decreases |staged|
  {
    if |staged| > 0 {
      var n := |staged| - 1;
      AcceptedIdsMembers(staged[..n], replies, k);
      if exists i :: 0 <= i < n && staged[..n][i].id == k && !replies(i).Failed? {
        var i :| 0 <= i < n && staged[..n][i].id == k && !replies(i).Failed?;
        assert staged[i] == staged[..n][i];
      }
      if exists i :: 0 <= i < |staged| && staged[i].id == k && !replies(i).Failed? {
        var i :| 0 <= i < |staged| && staged[i].id == k && !replies(i).Failed?;
        if i < n {
          assert staged[..n][i] == staged[i];
        }
      }
    }
  }

  /** Pushed in ascending id order, the accepted ids still ascend. */
  lemma {:induction false} AcceptedIdsAscending(staged: seq<LocalWorklog>, replies: nat -> AddTimeReply)
    requires IdsAscending(staged)
    ensures var ids := AcceptedIds(staged, replies);
            forall a, b :: 0 <= a < b < |ids| ==> Less(ids[a], ids[b])
    decreases |staged|
  {
    if |staged| > 0 {
      var n := |staged| - 1;
      var init := staged[..n];
      assert IdsAscending(init) by {
        forall i, j | 0 <= i < j < n ensures Less(init[i].id, init[j].id) {
          assert init[i] == staged[i] && init[j] == staged[j];
        }
      }
      AcceptedIdsAscending(init, replies);
      var prev := AcceptedIds(init, replies);
      if !replies(n).Failed? {
        forall a | 0 <= a < |prev| ensures Less(prev[a], staged[n].id) {
          AcceptedIdsMembers(init, replies, prev[a]);
          var i :| 0 <= i < n && init[i].id == prev[a] && !replies(i).Failed?;
          assert init[i] == staged[i];
        }
      }
    }
  }

  lemma {:induction false} PushedStoreOther(locals: seq<(string, LocalWorklog)>, staged: seq<LocalWorklog>,
                                            replies: nat -> AddTimeReply, k: string)
    requires LocalsKeyed(locals)
    requires forall i :: 0 <= i < |staged| ==> staged[i].id != k
    ensures Get(PushedStore(locals, staged, replies), k) == Get(locals, k)
    decreases |staged|
  {
    if |staged| > 0 {
      var n := |staged| - 1;
      var prev := PushedStore(locals, staged[..n], replies);
      if !replies(n).Failed? {
        GetInsert(prev, staged[n].id, Accepted(staged[n], replies(n)), k);
      }
      assert forall i :: 0 <= i < n ==> staged[..n][i] == staged[i];
      PushedStoreOther(locals, staged[..n], replies, k);
    }
  }

  lemma {:induction false} PushedStoreAt(locals: seq<(string, LocalWorklog)>, staged: seq<LocalWorklog>,
                                         replies: nat -> AddTimeReply, i: nat)
    requires LocalsKeyed(locals) && IdsAscending(staged) && i < |staged|
    ensures Get(PushedStore(locals, staged, replies), staged[i].id) ==
            if replies(i).Failed? then Get(locals, staged[i].id) else Some(Accepted(staged[i], replies(i)))
    decreases |staged|
  {
    var n := |staged| - 1;
    if i < n {
      PushedStoreEarlier(locals, staged, replies, i);
      AscendingPrefix(staged, n);
      assert staged[..n][i] == staged[i];
      PushedStoreAt(locals, staged[..n], replies, i);
    } else {
      PushedStoreAtLast(locals, staged, replies);
    }
  }

  /** The last push does not touch an earlier worklog's record. */
  lemma PushedStoreEarlier(locals: seq<(string, LocalWorklog)>, staged: seq<LocalWorklog>, replies: nat -> AddTimeReply, i: nat)
    requires LocalsKeyed(locals) && IdsAscending(staged) && i < |staged| - 1
    ensures Get(PushedStore(locals, staged, replies), staged[i].id)
            == Get(PushedStore(locals, staged[..|staged| - 1], replies), staged[i].id)
  {
    var n := |staged| - 1;
    PushedStoreLast(locals, staged, replies);
    AscendingDistinct(staged, i, n);
    if !replies(n).Failed? {
      GetInsert(PushedStore(locals, staged[..n], replies), staged[n].id, Accepted(staged[n], replies(n)), staged[i].id);
    }
  }

  /** The last worklog's record is what its own reply made of it. */
  lemma PushedStoreAtLast(locals: seq<(string, LocalWorklog)>, staged: seq<LocalWorklog>, replies: nat -> AddTimeReply)
    requires LocalsKeyed(locals) && IdsAscending(staged) && |staged| > 0
    ensures var n := |staged| - 1;
            Get(PushedStore(locals, staged, replies), staged[n].id) ==
            if replies(n).Failed? then Get(locals, staged[n].id) else Some(Accepted(staged[n], replies(n)))
  {
    var n := |staged| - 1;
    var prev := PushedStore(locals, staged[..n], replies);
    PushedStoreLast(locals, staged, replies);
    if !replies(n).Failed? {
      GetInsert(prev, staged[n].id, Accepted(staged[n], replies(n)), staged[n].id);
    }
    forall j | 0 <= j < n ensures staged[..n][j].id != staged[n].id {
      AscendingDistinct(staged, j, n);
    }
    PushedStoreOther(locals, staged[..n], replies, staged[n].id);
  }

  /**
   * The push's effect on a Staged worklog: accepted, it is Pushed and
   * carries Jira's id when one came back; refused, it is still Staged
   * and unchanged.
   */
  lemma PushCommandOutcome(locals: seq<(string, LocalWorklog)>, replies: nat -> AddTimeReply, i: nat)
    requires LocalsKeyed(locals) && i < |WithStatus(Values(locals), [Staged])|
    ensures var w := WithStatus(Values(locals), [Staged])[i];
            && w.status == Staged
            && Get(PushedStore(locals, WithStatus(Values(locals), [Staged]), replies), w.id) ==
               Some(if replies(i).Failed? then w else Accepted(w, replies(i)))
  {
    var staged := WithStatus(Values(locals), [Staged]);
    assert staged[i] in staged;
    StoreIdsAscending(locals);
    WithStatusAscending(Values(locals), [Staged]);
    StoredUnderId(locals, staged[i]);
    PushedStoreAt(locals, staged, replies, i);
  }

  /** The push touches no record that was not Staged. */
  lemma PushCommandLeavesOthers(locals: seq<(string, LocalWorklog)>, replies: nat -> AddTimeReply, k: string)
    requires LocalsKeyed(locals)
    requires Get(locals, k).None? || Get(locals, k).value.status != Staged
    ensures Get(PushedStore(locals, WithStatus(Values(locals), [Staged]), replies), k) == Get(locals, k)
  {
    var staged := WithStatus(Values(locals), [Staged]);
    forall i | 0 <= i < |staged| ensures staged[i].id != k {
      assert staged[i] in staged;
      StoredUnderId(locals, staged[i]);
    }
    PushedStoreOther(locals, staged, replies, k);
  }

  /**
   * `worklog push`: each Staged worklog, in key order, is sent with
   * `add_time` (the `i`-th gets `replies(i)`); an accepted one is saved
   * and its id collected, a refused one is left alone. A history listing
   * the collected ids is then stored, even when the list is empty.
   */
  method PushCommand(db: Db, historyId: string, now: int, replies: nat -> AddTimeReply) returns (pushed: seq<string>)
    requires db.Valid()
    modifies db`localWorklogs, db`worklogs, db`histories
    ensures db.Valid()
    ensures var staged := WithStatus(Values(old(db.localWorklogs)), [Staged]);
            && pushed == AcceptedIds(staged, replies)
            && db.localWorklogs == PushedStore(old(db.localWorklogs), staged, replies)
            && db.worklogs == PushRemote(old(db.worklogs), replies, |staged|)
            && db.histories == Insert(old(db.histories), historyId, LocalWorklogHistory(historyId, now, pushed))
  {
    var staged := WithStatus(Values(db.localWorklogs), [Staged]);
    pushed := [];
    for i := 0 to |staged|
      invariant db.Valid()
      invariant db.localWorklogs == PushedStore(old(db.localWorklogs), staged[..i], replies)
      invariant db.worklogs == PushRemote(old(db.worklogs), replies, i)
      invariant db.histories == old(db.histories)
      invariant pushed == AcceptedIds(staged[..i], replies)
    {
      pushed := PushAt(db, staged[..i], staged[i], replies, old(db.localWorklogs), old(db.worklogs), pushed);
      PrefixSnoc(staged, i);
    }
    assert staged[..|staged|] == staged;
    var _ := Historize(db, historyId, now, pushed);
  }

  /** One iteration of that loop: worklog `w` pushed after the worklogs `done`. */
  method PushAt(db: Db, done: seq<LocalWorklog>, w: LocalWorklog, replies: nat -> AddTimeReply,
                ghost locals0: seq<(string, LocalWorklog)>, ghost remote0: seq<(string, JiraWorklog)>, pushedBefore: seq<string>)
    returns (pushedAfter: seq<string>)
    requires db.Valid() && LocalsKeyed(locals0) && WorklogsKeyed(remote0)
    requires db.localWorklogs == PushedStore(locals0, done, replies)
    requires db.worklogs == PushRemote(remote0, replies, |done|)
    requires pushedBefore == AcceptedIds(done, replies)
    modifies db`localWorklogs, db`worklogs
    ensures db.Valid()
    ensures db.localWorklogs == PushedStore(locals0, done + [w], replies)
    ensures db.worklogs == PushRemote(remote0, replies, |done| + 1)
    ensures pushedAfter == AcceptedIds(done + [w], replies)
  {
    PushedStoreSnoc(locals0, done, w, replies);
    AcceptedIdsSnoc(done, w, replies);
    var accepted := PushOne(db, w, replies(|done|));
    pushedAfter := if accepted then pushedBefore + [w.id] else pushedBefore;
  }

  lemma PushedStoreLast(locals: seq<(string, LocalWorklog)>, staged: seq<LocalWorklog>, replies: nat -> AddTimeReply)
    requires LocalsKeyed(locals) && |staged| > 0
    ensures var n := |staged| - 1;
            PushedStore(locals, staged, replies)
            == if replies(n).Failed? then PushedStore(locals, staged[..n], replies)
               else Insert(PushedStore(locals, staged[..n], replies), staged[n].id, Accepted(staged[n], replies(n)))
  {
  }

  lemma PushedStoreSnoc(locals: seq<(string, LocalWorklog)>, done: seq<LocalWorklog>, w: LocalWorklog, replies: nat -> AddTimeReply)
    requires LocalsKeyed(locals)
    ensures PushedStore(locals, done + [w], replies)
            == if replies(|done|).Failed? then PushedStore(locals, done, replies)
               else Insert(PushedStore(locals, done, replies), w.id, Accepted(w, replies(|done|)))
  {
    assert (done + [w])[..|done|] == done;
  }

  lemma AcceptedIdsSnoc(done: seq<LocalWorklog>, w: LocalWorklog, replies: nat -> AddTimeReply)
    ensures AcceptedIds(done + [w], replies) == AcceptedIds(done, replies) + (if replies(|done|).Failed? then [] else [w.id])
  {
    assert (done + [w])[..|done|] == done;
  }

  /** One iteration of the push: `add_time`, then on `Ok(_)` the accepted worklog is saved. */
  method PushOne(db: Db, w: LocalWorklog, reply: AddTimeReply) returns (accepted: bool)
    requires db.Valid()
    modifies db`localWorklogs, db`worklogs
    ensures db.Valid()
    ensures accepted == !reply.Failed?
    ensures db.worklogs == WithLoggedWorklog(old(db.worklogs), reply)
    ensures db.localWorklogs == if accepted then Insert(old(db.localWorklogs), w.id, Accepted(w, reply)) else old(db.localWorklogs)
  {
    var r := AddTime(db, w.issueId, reply);
    accepted := r.Ok?;
    if accepted {
      SaveLocalWorklog(db, w.(status := Pushed, worklogId := if r.value.Some? then Some(r.value.value.id) else w.worklogId));
    }
  }

  // ---------------------------------------------------------------------
  // cleanup
  // ---------------------------------------------------------------------

  /** The ids of the stored Jira worklogs. */
  function JiraIds(ws: seq<(string, JiraWorklog)>): (ids: set<string>)
    ensures forall id :: id in ids <==> exists w :: w in Values(ws) && w.id == id
  {
    set w | w in Values(ws) :: w.id
  }

  /** A local worklog already in Jira: its Jira id is one of the stored ones. */
  predicate IsDuplicate(w: LocalWorklog, jiraIds: set<string>) {
    w.worklogId.Some? && w.worklogId.value in jiraIds
  }

  function Duplicates(ws: seq<LocalWorklog>, jiraIds: set<string>): (r: seq<LocalWorklog>)
    ensures forall w :: w in r <==> w in ws && IsDuplicate(w, jiraIds)
  {
    Keep(ws, (w: LocalWorklog) => IsDuplicate(w, jiraIds))
  }

  /** Cleaning up removes exactly the duplicates. */
  lemma CleanupLookup(locals: seq<(string, LocalWorklog)>, jiraIds: set<string>, k: string)
    requires LocalsKeyed(locals)
    ensures Get(RemoveAll(locals, IdsOf(Duplicates(Values(locals), jiraIds))), k) ==
            if Get(locals, k).Some? && IsDuplicate(Get(locals, k).value, jiraIds) then None else Get(locals, k)
  {
    var dups := Duplicates(Values(locals), jiraIds);
    GetRemoveAll(locals, IdsOf(dups), k);
    if k in IdsOf(dups) {
      var i :| 0 <= i < |dups| && IdsOf(dups)[i] == k;
      assert dups[i] in dups;
      StoredUnderId(locals, dups[i]);
    }
    if Get(locals, k).Some? && IsDuplicate(Get(locals, k).value, jiraIds) {
      var w := Get(locals, k).value;
      var j :| 0 <= j < |locals| && locals[j] == (k, w);
      assert Values(locals)[j] == w;
      assert w in dups;
      var m :| 0 <= m < |dups| && dups[m] == w;
      assert IdsOf(dups)[m] == k;
    }
  }

  /**
   * `worklog cleanup`: the local worklogs whose Jira id is stored among
   * the Jira worklogs are reported with their total time; they are
   * removed unless this is a dry run.
   */
  method CleanupCommand(db: Db, dryRun: bool) returns (duplicates: seq<LocalWorklog>, totalSeconds: int)
    requires db.Valid()
    modifies db`localWorklogs
    ensures db.Valid()
    ensures duplicates == Duplicates(Values(old(db.localWorklogs)), JiraIds(db.worklogs))
    ensures totalSeconds == TimeSpent(duplicates)
    ensures db.localWorklogs == if dryRun || duplicates == [] then old(db.localWorklogs)
                                else RemoveAll(old(db.localWorklogs), IdsOf(duplicates))
  {
    duplicates := Duplicates(Values(db.localWorklogs), JiraIds(db.worklogs));
    totalSeconds := 0;
    if duplicates == [] {
      return;
    }
    for i := 0 to |duplicates|
      invariant db.localWorklogs == old(db.localWorklogs)
      invariant totalSeconds == TimeSpent(duplicates[..i])
    {
      assert duplicates[..i + 1] == duplicates[..i] + [duplicates[i]];
      TimeSpentSnoc(duplicates[..i], duplicates[i]);
      totalSeconds := totalSeconds + duplicates[i].timeSpentSeconds;
    }
    assert duplicates[..|duplicates|] == duplicates;
    if !dryRun {
      RemoveEach(db, duplicates);
    }
  }
}
