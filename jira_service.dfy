/**
 * The Jira-facing services: issue-key detection, the local bookkeeping
 * around adding and deleting remote worklogs, and following sprints and
 * boards.
 *
 * A remote call is not performed here: its answer is a parameter, so each
 * contract holds whatever Jira replies.
 */
module JiraService {
  import opened Wrappers
  import opened Text
  import opened Tree
  import opened Model
  import opened Storage
  import opened IssueKeys

  // ---------------------------------------------------------------------
  // Adding time to an issue
  // ---------------------------------------------------------------------

  /** What Jira answered to an "add worklog" request. */
  datatype AddTimeReply = Logged(worklog: JiraWorklog) | NothingLogged | Failed(error: string)

  /** The error `add_time` reports; the key is printed with `{:?}`, hence the quotes. */
  function AddTimeError(issueKey: string): string {
    "an error occurred while adding time to issue: \"" + issueKey + "\""
  }

  /** The value `add_time` returns for a given reply. */
  function AddTimeOutcome(issueKey: string, reply: AddTimeReply): (r: Result<Option<JiraWorklog>, string>)
    ensures r.Ok? <==> !reply.Failed?
    ensures (r.Ok? && r.value.Some?) <==> reply.Logged?
    ensures reply.Logged? ==> r.value.value == reply.worklog
    ensures r.Err? ==> r.error == AddTimeError(issueKey)
  {
    match reply
    case Logged(w) => Ok(Some(w))
    case NothingLogged => Ok(None)
    case Failed(_) => Err(AddTimeError(issueKey))
  }

  /** The Jira-worklog tree after a reply: the returned worklog, if any, is saved under its id. */
  function WithLoggedWorklog(ws: seq<(string, JiraWorklog)>, reply: AddTimeReply): (r: seq<(string, JiraWorklog)>)
    requires WorklogsKeyed(ws)
    ensures WorklogsKeyed(r)
    ensures reply.Logged? ==> Get(r, reply.worklog.id) == Some(reply.worklog)
    ensures forall k :: !(reply.Logged? && k == reply.worklog.id) ==> Get(r, k) == Get(ws, k)
  {
    if reply.Logged? then
      InsertKeepsWorklogsKeyed(ws, reply.worklog);
      forall k ensures Get(Insert(ws, reply.worklog.id, reply.worklog), k)
                       == if k == reply.worklog.id then Some(reply.worklog) else Get(ws, k) {
        GetInsert(ws, reply.worklog.id, reply.worklog, k);
      }
      Insert(ws, reply.worklog.id, reply.worklog)
    else ws
  }

  /** The Jira-worklog store after the first `n` replies. */
  function PushRemote(ws: seq<(string, JiraWorklog)>, replies: nat -> AddTimeReply, n: nat): (r: seq<(string, JiraWorklog)>)
    requires WorklogsKeyed(ws)
    ensures WorklogsKeyed(r)
  {
    if n == 0 then ws else WithLoggedWorklog(PushRemote(ws, replies, n - 1), replies(n - 1))
  }

  /** `IssueService::add_time`: Jira's reply decides both the result and what is stored. */
  method AddTime(db: Db, issueKey: string, reply: AddTimeReply) returns (r: Result<Option<JiraWorklog>, string>)
    requires db.Valid()
    modifies db`worklogs
    ensures db.Valid()
    ensures db.worklogs == WithLoggedWorklog(old(db.worklogs), reply)
    ensures r == AddTimeOutcome(issueKey, reply)
  {
    match reply {
      case Logged(w) =>
        InsertKeepsWorklogsKeyed(db.worklogs, w);
        db.worklogs := Insert(db.worklogs, w.id, w);
        r := Ok(Some(w));
      case NothingLogged =>
        r := Ok(None);
      case Failed(_) =>
        r := Err(AddTimeError(issueKey));
    }
  }

  // ---------------------------------------------------------------------
  // Deleting a remote worklog
  // ---------------------------------------------------------------------

  /** What Jira answered to a delete request; an error carries its debug text. */
  datatype DeleteReply = Deleted | DeleteFailed(debug: string)

  /**
   * The local copy goes when Jira deleted it, and also when the error says
   * it is gone (404, "Not Found") or not ours (400, "autorisation").
   */
  predicate DropsLocalCopy(reply: DeleteReply) {
    match reply
    case Deleted => true
    case DeleteFailed(e) =>
      Contains(e, "404") || Contains(e, "Not Found") || Contains(e, "400") || Contains(e, "autorisation")
  }

  /** The Jira-worklog tree after `delete_worklog`. */
  function AfterDelete(ws: seq<(string, JiraWorklog)>, worklogId: string, reply: DeleteReply): (r: seq<(string, JiraWorklog)>)
    requires WorklogsKeyed(ws)
    ensures WorklogsKeyed(r)
    ensures DropsLocalCopy(reply) ==> Get(r, worklogId) == None
    ensures !DropsLocalCopy(reply) ==> r == ws
    ensures forall k :: k != worklogId ==> Get(r, k) == Get(ws, k)
  {
    if DropsLocalCopy(reply) then
      RemoveKeepsWorklogsKeyed(ws, worklogId);
      forall k ensures Get(Remove(ws, worklogId), k) == if k == worklogId then None else Get(ws, k) {
        GetRemove(ws, worklogId, k);
      }
      Remove(ws, worklogId)
    else ws
  }

  /** An error that names neither a missing worklog nor a permission problem keeps the copy. */
  lemma DeleteKeepsOnOtherErrors(ws: seq<(string, JiraWorklog)>, worklogId: string)
    requires WorklogsKeyed(ws)
    ensures AfterDelete(ws, worklogId, DeleteFailed("timeout")) == ws
    ensures Get(AfterDelete(ws, worklogId, DeleteFailed("Not Found")), worklogId) == None
  {
    assert OccursAt("Not Found", "Not Found", 0);
    var e := "timeout";
    assert !Contains(e, "404") && !Contains(e, "400") by {
      forall i: nat | i + 3 <= |e| ensures !OccursAt(e, "404", i) && !OccursAt(e, "400", i) {
        assert e[i] != '4';
      }
    }
    assert !Contains(e, "Not Found");
    assert !Contains(e, "autorisation");
  }

  /** `IssueService::delete_worklog`: the local copy follows `DropsLocalCopy`. */
  method DeleteWorklog(db: Db, issueKey: string, worklogId: string, reply: DeleteReply)
    requires db.Valid()
    modifies db`worklogs
    ensures db.Valid()
    ensures db.worklogs == AfterDelete(old(db.worklogs), worklogId, reply)
  {
    if DropsLocalCopy(reply) {
      RemoveKeepsWorklogsKeyed(db.worklogs, worklogId);
      db.worklogs := Remove(db.worklogs, worklogId);
    }
  }

  // ---------------------------------------------------------------------
  // Following sprints
  // ---------------------------------------------------------------------

  /** `follow_sprint` on the sprint tree. */
  function FollowSprint(sprints: seq<(string, Sprint)>, key: string): (r: Result<seq<(string, Sprint)>, string>)
    requires SprintsKeyed(sprints)
    ensures Get(sprints, key).None? ==> r == Err("Sprint not found")
    ensures Get(sprints, key).Some? && Get(sprints, key).value.followed ==> r == Err("Sprint already followed")
    ensures Get(sprints, key).Some? && !Get(sprints, key).value.followed ==> r.Ok?
    ensures r.Ok? ==> SprintsKeyed(r.value)
    ensures r.Ok? ==> Get(r.value, key) == Some(Get(sprints, key).value.(followed := true))
    ensures r.Ok? ==> forall k :: k != key ==> Get(r.value, k) == Get(sprints, k)
  {
    match Get(sprints, key)
    case None => Err("Sprint not found")
    case Some(s) =>
      if s.followed then Err("Sprint already followed")
      else Ok(SaveSprint(sprints, key, s.(followed := true)))
  }

  /** `unfollow_sprint` on the sprint tree. */
  function UnfollowSprint(sprints: seq<(string, Sprint)>, key: string): (r: Result<seq<(string, Sprint)>, string>)
    requires SprintsKeyed(sprints)
    ensures Get(sprints, key).None? ==> r == Err("Sprint not found")
    ensures Get(sprints, key).Some? && !Get(sprints, key).value.followed ==> r == Err("Sprint not followed")
    ensures Get(sprints, key).Some? && Get(sprints, key).value.followed ==> r.Ok?
    ensures r.Ok? ==> SprintsKeyed(r.value)
    ensures r.Ok? ==> Get(r.value, key) == Some(Get(sprints, key).value.(followed := false))
    ensures r.Ok? ==> forall k :: k != key ==> Get(r.value, k) == Get(sprints, k)
  {
    match Get(sprints, key)
    case None => Err("Sprint not found")
    case Some(s) =>
      if !s.followed then Err("Sprint not followed")
      else Ok(SaveSprint(sprints, key, s.(followed := false)))
  }

  /** Re-saving a stored sprint with only `followed` changed keeps the tree keyed. */
  function SaveSprint(sprints: seq<(string, Sprint)>, key: string, s: Sprint): (r: seq<(string, Sprint)>)
    requires SprintsKeyed(sprints)
    requires Get(sprints, key).Some? && Get(sprints, key).value.id == s.id
    ensures SprintsKeyed(r)
    ensures Get(r, key) == Some(s)
    ensures forall k :: k != key ==> Get(r, k) == Get(sprints, k)
  {
    var i :| 0 <= i < |sprints| && sprints[i] == (key, Get(sprints, key).value);
    assert key == NatToString(s.id);
    var r := Insert(sprints, key, s);
    forall j | 0 <= j < |r| ensures r[j].0 == NatToString(r[j].1.id) {
      if r[j] != (key, s) {
        var m :| 0 <= m < |sprints| && sprints[m] == r[j];
      }
    }
    forall k ensures Get(r, k) == if k == key then Some(s) else Get(sprints, k) {
      GetInsert(sprints, key, s, k);
    }
    r
  }

  /** Following then unfollowing a sprint restores the tree exactly. */
  lemma FollowUnfollowRoundTrip(sprints: seq<(string, Sprint)>, key: string)
    requires SprintsKeyed(sprints)
    requires FollowSprint(sprints, key).Ok?
    ensures UnfollowSprint(FollowSprint(sprints, key).value, key) == Ok(sprints)
  {
    var s := Get(sprints, key).value;
    var mid := FollowSprint(sprints, key).value;
    var back := UnfollowSprint(mid, key);
    assert back.Ok?;
    forall k ensures Get(back.value, k) == Get(sprints, k) {
    }
    Extensionality(back.value, sprints);
  }

  /** A second follow of the same sprint is refused. */
  lemma FollowTwiceFails(sprints: seq<(string, Sprint)>, key: string)
    requires SprintsKeyed(sprints)
    requires FollowSprint(sprints, key).Ok?
    ensures FollowSprint(FollowSprint(sprints, key).value, key) == Err("Sprint already followed")
  {
  }

  /** `SprintService::follow_sprint` on the database. */
  method FollowSprintIn(db: Db, key: string) returns (r: Result<(), string>)
    requires db.Valid()
    modifies db`sprints
    ensures db.Valid()
    ensures FollowSprint(old(db.sprints), key).Ok? ==> r.Ok? && db.sprints == FollowSprint(old(db.sprints), key).value
    ensures FollowSprint(old(db.sprints), key).Err? ==> r == Err(FollowSprint(old(db.sprints), key).error) && db.sprints == old(db.sprints)
  {
    var next := FollowSprint(db.sprints, key);
    if next.Ok? {
      db.sprints := next.value;
      r := Ok(());
    } else {
      r := Err(next.error);
    }
  }

  /** `SprintService::unfollow_sprint` on the database. */
  method UnfollowSprintIn(db: Db, key: string) returns (r: Result<(), string>)
    requires db.Valid()
    modifies db`sprints
    ensures db.Valid()
    ensures UnfollowSprint(old(db.sprints), key).Ok? ==> r.Ok? && db.sprints == UnfollowSprint(old(db.sprints), key).value
    ensures UnfollowSprint(old(db.sprints), key).Err? ==> r == Err(UnfollowSprint(old(db.sprints), key).error) && db.sprints == old(db.sprints)
  {
    var next := UnfollowSprint(db.sprints, key);
    if next.Ok? {
      db.sprints := next.value;
      r := Ok(());
    } else {
      r := Err(next.error);
    }
  }

  // ---------------------------------------------------------------------
  // Following boards
  // ---------------------------------------------------------------------

  function BoardNotFound(key: string): string {
    "Board '" + key + "' not found"
  }

  /** `follow_board` (`followed = true`) and `unfollow_board` (`followed = false`). */
  function SetBoardFollowed(boards: seq<(string, Board)>, key: string, followed: bool): (r: Result<seq<(string, Board)>, string>)
    requires BoardsKeyed(boards)
    ensures r.Err? <==> Get(boards, key).None?
    ensures r.Err? ==> r.error == BoardNotFound(key)
    ensures r.Ok? ==> BoardsKeyed(r.value)
    ensures r.Ok? ==> Get(r.value, key) == Some(Get(boards, key).value.(followed := followed))
    ensures r.Ok? ==> forall k :: k != key ==> Get(r.value, k) == Get(boards, k)
  {
    match Get(boards, key)
    case None => Err(BoardNotFound(key))
    case Some(b) =>
      var b' := b.(followed := followed);
      var i :| 0 <= i < |boards| && boards[i] == (key, b);
      var r := Insert(boards, key, b');
      forall j | 0 <= j < |r| ensures r[j].0 == NatToString(r[j].1.id) {
        if r[j] != (key, b') {
          var m :| 0 <= m < |boards| && boards[m] == r[j];
        }
      }
      forall k ensures Get(r, k) == if k == key then Some(b') else Get(boards, k) {
        GetInsert(boards, key, b', k);
      }
      Ok(r)
  }

  /** Following or unfollowing a board twice is the same as once. */
  lemma BoardFollowIdempotent(boards: seq<(string, Board)>, key: string, followed: bool)
    requires BoardsKeyed(boards)
    requires SetBoardFollowed(boards, key, followed).Ok?
    ensures SetBoardFollowed(SetBoardFollowed(boards, key, followed).value, key, followed)
         == SetBoardFollowed(boards, key, followed)
  {
    var once := SetBoardFollowed(boards, key, followed).value;
    var twice := SetBoardFollowed(once, key, followed);
    assert twice.Ok?;
    forall k ensures Get(twice.value, k) == Get(once, k) {
    }
    Extensionality(twice.value, once);
  }

  /** `JiraService::follow_board` / `unfollow_board` on the database. */
  method SetBoardFollowedIn(db: Db, key: string, followed: bool) returns (r: Result<(), string>)
    requires db.Valid()
    modifies db`boards
    ensures db.Valid()
    ensures SetBoardFollowed(old(db.boards), key, followed).Ok? ==> r.Ok? && db.boards == SetBoardFollowed(old(db.boards), key, followed).value
    ensures SetBoardFollowed(old(db.boards), key, followed).Err? ==> r == Err(BoardNotFound(key)) && db.boards == old(db.boards)
  {
    var next := SetBoardFollowed(db.boards, key, followed);
    if next.Ok? {
      db.boards := next.value;
      r := Ok(());
    } else {
      r := Err(next.error);
    }
  }

  // ---------------------------------------------------------------------
  // The examples of the identifier tests
  // ---------------------------------------------------------------------

  // The texts of the identifier tests, written as the pieces the scan
  // passes over: words without a hyphen, separators and keys.

  const Etech: string := "etech-123"
  const Plw: string := "plw-14"
  const BareKey: string := Etech
  const EmbeddedKey: string := "the card is" + (" " + (Etech + " use it wisely"))
  const ShortKey: string := "plw-1"
  const MissingHyphen: string := "etech123"
  const PlainText: string := "nothing the see here"
  const DetachedHyphen: string := "etech is under" + (" " + ("-" + " rated with 123"))
  const Sentence: string := "some text with" + (" " + (Etech + " card"))
  const SampleTail: string := " and etech" + " 345 not this one"
  const Sample: string := "blabla" + (" " + (Etech + ("," + (" " + (Plw + SampleTail)))))

  lemma EtechIsKey()
    ensures IsLetterKey(Etech, AnyCase)
  {
    var s := Etech;
    assert s[0] == 'e' && s[1] == 't' && s[2] == 'e' && s[3] == 'c' && s[4] == 'h';
    assert s[5] == '-' && s[6] == '1' && s[7] == '2' && s[8] == '3';
    ClassRunExact(s, 5, AnyCase);
  }

  lemma PlwIsKey()
    ensures IsLetterKey(Plw, AnyCase)
  {
    var s := Plw;
    assert s[0] == 'p' && s[1] == 'l' && s[2] == 'w' && s[3] == '-' && s[4] == '1' && s[5] == '4';
    ClassRunExact(s, 3, AnyCase);
  }

  lemma DetectsBareKey()
    ensures HasJiraIdentifier(BareKey)
    ensures JiraIdentifier(BareKey) == Some("ETECH-123")
  {
    EtechIsKey();
    KeyThen(Etech, "", AnyCase);
    assert Etech + "" == BareKey;
    EtechUpper();
  }

  lemma DetectsEmbeddedKey()
    ensures HasJiraIdentifier(EmbeddedKey)
  {
    EtechIsKey();
    WordsWithoutHyphen();
    SkipWord("the card is", ' ', Etech + " use it wisely", AnyCase);
    KeyThen(Etech, " use it wisely", AnyCase);
  }

  lemma DetectsShortKey()
    ensures HasJiraIdentifier(ShortKey)
  {
    var s := ShortKey;
    assert s[0] == 'p' && s[1] == 'l' && s[2] == 'w' && s[3] == '-' && s[4] == '1';
    ClassRunExact(s, 3, AnyCase);
    KeyThen(s, "", AnyCase);
    assert s + "" == s;
  }

  lemma RejectsMissingHyphen()
    ensures !HasJiraIdentifier(MissingHyphen)
  {
    TextsWithoutHyphen();
    NoHyphenNoKeys(MissingHyphen, AnyCase);
  }

  lemma RejectsPlainText()
    ensures !HasJiraIdentifier(PlainText)
  {
    TextsWithoutHyphen();
    NoHyphenNoKeys(PlainText, AnyCase);
  }

  // The hyphen-free pieces of the tests, one small lemma per group so that
  // the character-by-character check stays apart from the scan.

  lemma TextsWithoutHyphen()
    ensures NoHyphen(MissingHyphen) && NoHyphen(PlainText)
  {
  }

  lemma WordsWithoutHyphen()
    ensures NoHyphen("the card is") && NoHyphen("etech is under") && NoHyphen("some text with") && NoHyphen("blabla")
  {
  }

  lemma TailsWithoutHyphen()
    ensures NoHyphen(" rated with 123") && NoHyphen(" card") && NoHyphen(SampleTail)
  {
    assert NoHyphen(" and etech") && NoHyphen(" 345 not this one");
  }

  lemma RejectsDetachedHyphen()
    ensures !HasJiraIdentifier(DetachedHyphen)
  {
    var rest := " rated with 123";
    WordsWithoutHyphen();
    TailsWithoutHyphen();
    SkipWord("etech is under", ' ', "-" + rest, AnyCase);
    SkipFirst("-" + rest, AnyCase);
    assert ("-" + rest)[1..] == rest;
    NoHyphenNoKeys(rest, AnyCase);
  }

  lemma FirstIdentifierInSentence()
    ensures JiraIdentifier(Sentence) == Some("ETECH-123")
  {
    EtechIsKey();
    WordsWithoutHyphen();
    TailsWithoutHyphen();
    SkipWord("some text with", ' ', Etech + " card", AnyCase);
    KeyThen(Etech, " card", AnyCase);
    EtechUpper();
  }

  lemma EtechUpper()
    ensures ToUpper("etech-123") == "ETECH-123"
  {
  }

  lemma PlwUpper()
    ensures ToUpper("plw-14") == "PLW-14"
  {
  }

  lemma AllIdentifiersInSample()
    ensures JiraIdentifiers(Sample) == ["ETECH-123", "PLW-14"]
  {
    SampleKeys();
    EtechUpper();
    PlwUpper();
  }

  lemma SampleKeys()
    ensures LetterKeys(Sample, AnyCase) == [Etech, Plw]
  {
    SampleFirstKey();
    SampleSecondKey();
  }

  const AfterFirstKey: string := "," + (" " + (Plw + SampleTail))

  lemma SampleFirstKey()
    ensures LetterKeys(Sample, AnyCase) == [Etech] + LetterKeys(AfterFirstKey, AnyCase)
  {
    EtechIsKey();
    WordsWithoutHyphen();
    SkipWord("blabla", ' ', Etech + AfterFirstKey, AnyCase);
    KeyThen(Etech, AfterFirstKey, AnyCase);
  }

  lemma SampleSecondKey()
    ensures LetterKeys(AfterFirstKey, AnyCase) == [Plw]
  {
    var second := Plw + SampleTail;
    PlwIsKey();
    TailsWithoutHyphen();
    SkipFirst(AfterFirstKey, AnyCase);
    assert AfterFirstKey[1..] == " " + second;
    SkipFirst(" " + second, AnyCase);
    assert (" " + second)[1..] == second;
    KeyThen(Plw, SampleTail, AnyCase);
    NoHyphenNoKeys(SampleTail, AnyCase);
  }
}
