/**
 * The batch updates the TUI and the command line make on the local
 * worklog store: saving every worklog of a list (stage all, add, rm,
 * the wizard's staging) and removing every worklog of a list (reset).
 * Each is a loop of `save_local_worklog` or `remove_local_worklog`
 * calls, specified by a function of the store before the loop.
 */
module WorklogBatches {
  import opened Wrappers
  import opened Lex
  import opened Tree
  import opened Model
  import opened Storage
  import opened WorklogsService

  /** The ids of some worklogs, in order. */
  function IdsOf(ws: seq<LocalWorklog>): (ids: seq<string>)
    ensures |ids| == |ws| && forall i :: 0 <= i < |ws| ==> ids[i] == ws[i].id
  {
    seq(|ws|, i requires 0 <= i < |ws| => ws[i].id)
  }

  lemma IdsOfConcat(a: seq<LocalWorklog>, b: seq<LocalWorklog>)
    ensures IdsOf(a + b) == IdsOf(a) + IdsOf(b)
  {
  }

  /** The ids strictly ascend, as they do in a store read in key order. */
  predicate IdsAscending(ws: seq<LocalWorklog>) {
    forall i, j :: 0 <= i < j < |ws| ==> Less(ws[i].id, ws[j].id)
  }

  /** Ascending ids are distinct. */
  lemma AscendingDistinct(ws: seq<LocalWorklog>, i: nat, j: nat)
    requires IdsAscending(ws) && i < |ws| && j < |ws| && i != j
    ensures ws[i].id != ws[j].id
  {
    if i < j {
      LessIrreflexive(ws[i].id);
    } else {
      LessIrreflexive(ws[j].id);
    }
  }

  /** A prefix of ascending worklogs is ascending. */
  lemma AscendingPrefix(ws: seq<LocalWorklog>, n: nat)
    requires IdsAscending(ws) && n <= |ws|
    ensures IdsAscending(ws[..n])
  {
    forall i, j | 0 <= i < j < n ensures Less(ws[..n][i].id, ws[..n][j].id) {
      assert ws[..n][i] == ws[i] && ws[..n][j] == ws[j];
    }
  }

  /** `get_all_local_worklogs` lists the store in ascending id order. */
  lemma StoreIdsAscending(locals: seq<(string, LocalWorklog)>)
    requires LocalsKeyed(locals)
    ensures IdsAscending(Values(locals))
  {
  }

  /** A status filter keeps the order, so the ids still ascend. */
  lemma {:induction false} WithStatusAscending(ws: seq<LocalWorklog>, statuses: seq<LocalWorklogState>)
    requires IdsAscending(ws)
    ensures IdsAscending(WithStatus(ws, statuses))
    decreases |ws|
  {
    if |ws| > 0 {
      var tail := ws[1..];
      assert IdsAscending(tail) by {
        forall i, j | 0 <= i < j < |tail| ensures Less(tail[i].id, tail[j].id) {
          assert tail[i] == ws[i + 1] && tail[j] == ws[j + 1];
        }
      }
      WithStatusAscending(tail, statuses);
      var rest := WithStatus(tail, statuses);
      if ws[0].status in statuses {
        forall j | 0 <= j < |rest| ensures Less(ws[0].id, rest[j].id) {
          assert rest[j] in rest;
          var m :| 0 <= m < |tail| && tail[m] == rest[j];
          assert ws[m + 1] == rest[j];
        }
        HeadAscending(ws[0], rest);
      }
    }
  }

  lemma HeadAscending(w: LocalWorklog, rest: seq<LocalWorklog>)
    requires IdsAscending(rest)
    requires forall j :: 0 <= j < |rest| ==> Less(w.id, rest[j].id)
    ensures IdsAscending([w] + rest)
  {
    var s := [w] + rest;
    forall i, j | 0 <= i < j < |s| ensures Less(s[i].id, s[j].id) {
      assert s[j] == rest[j - 1];
      if i > 0 {
        assert s[i] == rest[i - 1];
      }
    }
  }

  /** A worklog read from the store is the one stored under its id. */
  lemma StoredUnderId(locals: seq<(string, LocalWorklog)>, w: LocalWorklog)
    requires LocalsKeyed(locals) && w in Values(locals)
    ensures Get(locals, w.id) == Some(w)
  {
    var vs := Values(locals);
    var i :| 0 <= i < |vs| && vs[i] == w;
    GetAt(locals, i);
  }

  /** A stored worklog with one of the statuses is among the ids a status filter of the store lists. */
  lemma StoredInFilter(locals: seq<(string, LocalWorklog)>, statuses: seq<LocalWorklogState>, k: string)
    requires LocalsKeyed(locals) && Get(locals, k).Some? && Get(locals, k).value.status in statuses
    ensures k in IdsOf(WithStatus(Values(locals), statuses))
  {
    var w := Get(locals, k).value;
    var j :| 0 <= j < |locals| && locals[j] == (k, w);
    assert Values(locals)[j] == w;
    var filtered := WithStatus(Values(locals), statuses);
    assert w in filtered;
    var m :| 0 <= m < |filtered| && filtered[m] == w;
    assert IdsOf(filtered)[m] == k;
  }

  /** Every id a status filter of the store lists holds a worklog with one of the statuses. */
  lemma FilteredIdStored(locals: seq<(string, LocalWorklog)>, statuses: seq<LocalWorklogState>, k: string)
    requires LocalsKeyed(locals) && k in IdsOf(WithStatus(Values(locals), statuses))
    ensures Get(locals, k).Some? && Get(locals, k).value.status in statuses
  {
    var filtered := WithStatus(Values(locals), statuses);
    var i :| 0 <= i < |filtered| && IdsOf(filtered)[i] == k;
    assert filtered[i] in filtered;
    StoredUnderId(locals, filtered[i]);
  }

  // ---------------------------------------------------------------------
  // Saving a list
  // ---------------------------------------------------------------------

  /** The worklogs with their status set to `s`. */
  function WithState(ws: seq<LocalWorklog>, s: LocalWorklogState): (r: seq<LocalWorklog>)
    ensures |r| == |ws| && forall i :: 0 <= i < |ws| ==> r[i] == ws[i].(status := s)
  {
    seq(|ws|, i requires 0 <= i < |ws| => ws[i].(status := s))
  }

  lemma WithStateAscending(ws: seq<LocalWorklog>, s: LocalWorklogState)
    requires IdsAscending(ws)
    ensures IdsAscending(WithState(ws, s))
  {
  }

  /** The store after saving each worklog in turn under its id. */
  function SaveAll(locals: seq<(string, LocalWorklog)>, ws: seq<LocalWorklog>): (r: seq<(string, LocalWorklog)>)
    requires LocalsKeyed(locals)
    ensures LocalsKeyed(r)
    decreases |ws|
  {
    if |ws| == 0 then locals
    else
      var n := |ws| - 1;
      var prev := SaveAll(locals, ws[..n]);
      InsertKeepsLocalsKeyed(prev, ws[n]);
      Insert(prev, ws[n].id, ws[n])
  }

  /** Each saved worklog is what its id holds afterwards (the ids being distinct). */
  lemma {:induction false} SaveAllAt(locals: seq<(string, LocalWorklog)>, ws: seq<LocalWorklog>, i: nat)
    requires LocalsKeyed(locals) && IdsAscending(ws) && i < |ws|
    ensures Get(SaveAll(locals, ws), ws[i].id) == Some(ws[i])
    decreases |ws|
  {
    var n := |ws| - 1;
    var prev := SaveAll(locals, ws[..n]);
    GetInsert(prev, ws[n].id, ws[n], ws[i].id);
    if i < n {
      AscendingDistinct(ws, i, n);
      assert IdsAscending(ws[..n]);
      assert ws[..n][i] == ws[i];
      SaveAllAt(locals, ws[..n], i);
    }
  }

  /** An id no saved worklog carries keeps what it held. */
  lemma {:induction false} SaveAllOther(locals: seq<(string, LocalWorklog)>, ws: seq<LocalWorklog>, k: string)
    requires LocalsKeyed(locals)
    requires forall i :: 0 <= i < |ws| ==> ws[i].id != k
    ensures Get(SaveAll(locals, ws), k) == Get(locals, k)
    decreases |ws|
  {
    if |ws| > 0 {
      var n := |ws| - 1;
      var prev := SaveAll(locals, ws[..n]);
      GetInsert(prev, ws[n].id, ws[n], k);
      assert forall i :: 0 <= i < n ==> ws[..n][i] == ws[i];
      SaveAllOther(locals, ws[..n], k);
    }
  }

  /** The loop `for w in ws { save_local_worklog(w) }`. */
  method SaveEach(db: Db, ws: seq<LocalWorklog>)
    requires db.Valid()
    modifies db`localWorklogs
    ensures db.Valid()
    ensures db.localWorklogs == SaveAll(old(db.localWorklogs), ws)
  {
    for i := 0 to |ws|
      invariant db.Valid()
      invariant db.localWorklogs == SaveAll(old(db.localWorklogs), ws[..i])
    {
      SaveStep(old(db.localWorklogs), ws, i);
      SaveLocalWorklog(db, ws[i]);
    }
    assert ws[..|ws|] == ws;
  }

  lemma SaveStep(locals: seq<(string, LocalWorklog)>, ws: seq<LocalWorklog>, i: nat)
    requires LocalsKeyed(locals) && i < |ws|
    ensures SaveAll(locals, ws[..i + 1]) == Insert(SaveAll(locals, ws[..i]), ws[i].id, ws[i])
  {
    assert ws[..i + 1][..i] == ws[..i];
    assert ws[..i + 1][i] == ws[i];
  }

  /**
   * Setting a new status on some worklogs read from the store: each of
   * them now has that status, every other id keeps its record.
   */
  lemma RestatusLookup(locals: seq<(string, LocalWorklog)>, ws: seq<LocalWorklog>, s: LocalWorklogState, k: string)
    requires LocalsKeyed(locals) && IdsAscending(ws)
    requires forall i :: 0 <= i < |ws| ==> ws[i] in Values(locals)
    ensures k in IdsOf(ws) ==> Get(locals, k).Some?
    ensures k in IdsOf(ws) ==> Get(SaveAll(locals, WithState(ws, s)), k) == Some(Get(locals, k).value.(status := s))
    ensures k !in IdsOf(ws) ==> Get(SaveAll(locals, WithState(ws, s)), k) == Get(locals, k)
  {
    var rs := WithState(ws, s);
    WithStateAscending(ws, s);
    if k in IdsOf(ws) {
      var i :| 0 <= i < |ws| && IdsOf(ws)[i] == k;
      StoredUnderId(locals, ws[i]);
      SaveAllAt(locals, rs, i);
    } else {
      SaveAllOther(locals, rs, k);
    }
  }

  // ---------------------------------------------------------------------
  // Removing a list
  // ---------------------------------------------------------------------

  /** The store after removing each id in turn. */
  function RemoveAll(locals: seq<(string, LocalWorklog)>, ids: seq<string>): (r: seq<(string, LocalWorklog)>)
    requires LocalsKeyed(locals)
    ensures LocalsKeyed(r)
    decreases |ids|
  {
    if |ids| == 0 then locals
    else
      var n := |ids| - 1;
      var prev := RemoveAll(locals, ids[..n]);
      RemoveKeepsLocalsKeyed(prev, ids[n]);
      Remove(prev, ids[n])
  }

  /** A removed id holds nothing afterwards; every other id keeps its record. */
  lemma {:induction false} GetRemoveAll(locals: seq<(string, LocalWorklog)>, ids: seq<string>, k: string)
    requires LocalsKeyed(locals)
    ensures Get(RemoveAll(locals, ids), k) == if k in ids then None else Get(locals, k)
    decreases |ids|
  {
    if |ids| > 0 {
      var n := |ids| - 1;
      GetRemove(RemoveAll(locals, ids[..n]), ids[n], k);
      GetRemoveAll(locals, ids[..n], k);
      assert ids == ids[..n] + [ids[n]];
    }
  }

  /** The loop `for w in ws { remove_local_worklog(w) }`. */
  method RemoveEach(db: Db, ws: seq<LocalWorklog>)
    requires db.Valid()
    modifies db`localWorklogs
    ensures db.Valid()
    ensures db.localWorklogs == RemoveAll(old(db.localWorklogs), IdsOf(ws))
  {
    var ids := IdsOf(ws);
    for i := 0 to |ws|
      invariant db.Valid()
      invariant db.localWorklogs == RemoveAll(old(db.localWorklogs), ids[..i])
    {
      RemoveStep(old(db.localWorklogs), ids, i);
      RemoveLocalWorklog(db, ws[i]);
    }
    assert ids[..|ws|] == ids;
  }

  lemma RemoveStep(locals: seq<(string, LocalWorklog)>, ids: seq<string>, i: nat)
    requires LocalsKeyed(locals) && i < |ids|
    ensures RemoveAll(locals, ids[..i + 1]) == Remove(RemoveAll(locals, ids[..i]), ids[i])
  {
    assert ids[..i + 1][..i] == ids[..i];
    assert ids[..i + 1][i] == ids[i];
  }

  /** On a snapshot of the store, reset keeps exactly the Pushed worklogs. */
  lemma ResetKeepsPushed(locals: seq<(string, LocalWorklog)>, k: string)
    requires LocalsKeyed(locals)
    ensures var after := RemoveAll(locals, IdsOf(WithStatus(Values(locals), [Staged, Created])));
            Get(after, k) == if Get(locals, k).Some? && Get(locals, k).value.status == Pushed then Get(locals, k) else None
  {
    var ids := IdsOf(WithStatus(Values(locals), [Staged, Created]));
    GetRemoveAll(locals, ids, k);
    if k in ids {
      FilteredIdStored(locals, [Staged, Created], k);
    }
    if Get(locals, k).Some? && Get(locals, k).value.status != Pushed {
      StoredInFilter(locals, [Staged, Created], k);
    }
  }
}
