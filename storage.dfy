/**
 * The embedded database: one sled tree per entity, each keyed by the
 * entity's `get_id()`.
 */
module Storage {
  import opened Text
  import opened Tree
  import opened Model

  predicate LocalsKeyed(r: seq<(string, LocalWorklog)>) {
    Ordered(r) && forall i :: 0 <= i < |r| ==> r[i].0 == r[i].1.id
  }

  predicate HistoriesKeyed(r: seq<(string, LocalWorklogHistory)>) {
    Ordered(r) && forall i :: 0 <= i < |r| ==> r[i].0 == r[i].1.id
  }

  predicate WorklogsKeyed(r: seq<(string, JiraWorklog)>) {
    Ordered(r) && forall i :: 0 <= i < |r| ==> r[i].0 == r[i].1.id
  }

  predicate MeetingsKeyed(r: seq<(string, Meeting)>) {
    Ordered(r) && forall i :: 0 <= i < |r| ==> r[i].0 == r[i].1.id
  }

  /** Issues are keyed by their Jira key. */
  predicate IssuesKeyed(r: seq<(string, Issue)>) {
    Ordered(r) && forall i :: 0 <= i < |r| ==> r[i].0 == r[i].1.key
  }

  predicate SprintsKeyed(r: seq<(string, Sprint)>) {
    Ordered(r) && forall i :: 0 <= i < |r| ==> r[i].0 == NatToString(r[i].1.id)
  }

  predicate BoardsKeyed(r: seq<(string, Board)>) {
    Ordered(r) && forall i :: 0 <= i < |r| ==> r[i].0 == NatToString(r[i].1.id)
  }

  class Db {
    var localWorklogs: seq<(string, LocalWorklog)>
    var histories: seq<(string, LocalWorklogHistory)>
    var worklogs: seq<(string, JiraWorklog)>
    var meetings: seq<(string, Meeting)>
    var issues: seq<(string, Issue)>
    var sprints: seq<(string, Sprint)>
    var boards: seq<(string, Board)>

    ghost predicate Valid()
      reads this
    {
      LocalsKeyed(localWorklogs) && HistoriesKeyed(histories) && WorklogsKeyed(worklogs)
      && MeetingsKeyed(meetings) && IssuesKeyed(issues) && SprintsKeyed(sprints) && BoardsKeyed(boards)
    }

    constructor ()
      ensures Valid()
      ensures localWorklogs == [] && histories == [] && worklogs == []
      ensures meetings == [] && issues == [] && sprints == [] && boards == []
    {
      localWorklogs, histories, worklogs := [], [], [];
      meetings, issues, sprints, boards := [], [], [], [];
    }
  }

  /** Saving a record under its own id keeps a tree keyed by id. */
  lemma InsertKeepsLocalsKeyed(r: seq<(string, LocalWorklog)>, w: LocalWorklog)
    requires LocalsKeyed(r)
    ensures LocalsKeyed(Insert(r, w.id, w))
  {
  }

  lemma RemoveKeepsLocalsKeyed(r: seq<(string, LocalWorklog)>, k: string)
    requires LocalsKeyed(r)
    ensures LocalsKeyed(Remove(r, k))
  {
    var r' := Remove(r, k);
    forall i | 0 <= i < |r'| ensures r'[i].0 == r'[i].1.id {
      assert r'[i] in r';
    }
  }

  lemma InsertKeepsHistoriesKeyed(r: seq<(string, LocalWorklogHistory)>, h: LocalWorklogHistory)
    requires HistoriesKeyed(r)
    ensures HistoriesKeyed(Insert(r, h.id, h))
  {
  }

  lemma RemoveKeepsHistoriesKeyed(r: seq<(string, LocalWorklogHistory)>, k: string)
    requires HistoriesKeyed(r)
    ensures HistoriesKeyed(Remove(r, k))
  {
    var r' := Remove(r, k);
    forall i | 0 <= i < |r'| ensures r'[i].0 == r'[i].1.id {
      assert r'[i] in r';
    }
  }

  lemma InsertKeepsWorklogsKeyed(r: seq<(string, JiraWorklog)>, w: JiraWorklog)
    requires WorklogsKeyed(r)
    ensures WorklogsKeyed(Insert(r, w.id, w))
  {
  }

  lemma RemoveKeepsWorklogsKeyed(r: seq<(string, JiraWorklog)>, k: string)
    requires WorklogsKeyed(r)
    ensures WorklogsKeyed(Remove(r, k))
  {
    var r' := Remove(r, k);
    forall i | 0 <= i < |r'| ensures r'[i].0 == r'[i].1.id {
      assert r'[i] in r';
    }
  }

  lemma InsertKeepsMeetingsKeyed(r: seq<(string, Meeting)>, m: Meeting)
    requires MeetingsKeyed(r)
    ensures MeetingsKeyed(Insert(r, m.id, m))
  {
  }
}
