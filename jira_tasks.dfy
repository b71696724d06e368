/**
 * The sprint side of the Jira fetch task: a fetched sprint becomes a
 * stored `Sprint` with its working days counted (weekdays outside every
 * absence), the stored follow flag is carried over, sprints whose name
 * contains the configured pattern are followed automatically, and the
 * time spent on a sprint is shaded against seven hours per working day.
 */
module JiraTasks {
  import opened Wrappers
  import opened Text
  import opened Model

  // ---------------------------------------------------------------------
  // Working days
  // ---------------------------------------------------------------------

  /** An absence as the pair of dates it covers, both included. */
  function AbsenceDates(a: Absence): (int, int) {
    (DayOf(a.start), DayOf(a.end))
  }

  function AllAbsenceDates(absences: seq<Absence>): (r: seq<(int, int)>)
    ensures |r| == |absences| && forall i :: 0 <= i < |absences| ==> r[i] == AbsenceDates(absences[i])
  {
    seq(|absences|, i requires 0 <= i < |absences| => AbsenceDates(absences[i]))
  }

  /** Whether some absence covers day `d`. */
  predicate DayOff(d: int, abs: seq<(int, int)>) {
    exists i :: 0 <= i < |abs| && abs[i].0 <= d <= abs[i].1
  }

  /** A working day: not Saturday, not Sunday, and no absence covers it. */
  predicate IsWorkday(d: int, abs: seq<(int, int)>) {
    !IsWeekend(d) && !DayOff(d, abs)
  }

  /** The working days of the dates `start` to `end`, both included. */
  function Workdays(start: int, end: int, abs: seq<(int, int)>): (n: nat)
    ensures n <= if start > end then 0 else end - start + 1
    decreases end - start
  {
    if start > end then 0 else Workdays(start, end - 1, abs) + (if IsWorkday(end, abs) then 1 else 0)
  }

  /** `find` over the absences: the first one covering day `d`. */
  method FindDayOff(d: int, abs: seq<(int, int)>) returns (found: Option<nat>)
    ensures found.None? <==> !DayOff(d, abs)
    ensures found.Some? ==> found.value < |abs| && abs[found.value].0 <= d <= abs[found.value].1
  {
    for i := 0 to |abs|
      invariant forall j :: 0 <= j < i ==> !(abs[j].0 <= d <= abs[j].1)
    {
      if d <= abs[i].1 && d >= abs[i].0 {
        return Some(i);
      }
    }
    return None;
  }

  /** `count_workdays`: the date walks from `start` to `end`, counting each working day. */
  method CountWorkdays(start: int, end: int, absences: seq<Absence>) returns (workdays: nat)
    ensures workdays == Workdays(start, end, AllAbsenceDates(absences))
  {
    var abs := AllAbsenceDates(absences);
    workdays := 0;
    var current := start;
    while current <= end
      invariant start <= current && (current <= end + 1 || current == start)
      invariant workdays == Workdays(start, current - 1, abs)
      decreases end - current
    {
      var off := FindDayOff(current, abs);
      if Weekday(current) != 5 && Weekday(current) != 6 && off.None? {
        workdays := workdays + 1;
      }
      current := current + 1;
    }
  }

  /** Counting over two adjacent ranges is counting over their union. */
  lemma {:induction false} WorkdaysSplit(start: int, mid: int, end: int, abs: seq<(int, int)>)
    requires start - 1 <= mid <= end
    ensures Workdays(start, end, abs) == Workdays(start, mid, abs) + Workdays(mid + 1, end, abs)
    decreases end - mid
  {
    if mid < end {
      WorkdaysSplit(start, mid, end - 1, abs);
    }
  }

  /** A Monday-to-Sunday week without absences has five working days. */
  lemma WeekHasFiveWorkdays(monday: int)
    requires Weekday(monday) == 0
    ensures Workdays(monday, monday + 6, []) == 5
  {
    WeekDayWorks(monday, 0);
    WeekDayWorks(monday, 1);
    WeekDayWorks(monday, 2);
    WeekDayWorks(monday, 3);
    WeekDayWorks(monday, 4);
    WeekDayWorks(monday, 5);
    WeekDayWorks(monday, 6);
    assert Workdays(monday, monday - 1, []) == 0;
    assert Workdays(monday, monday, []) == 1;
    assert Workdays(monday, monday + 1, []) == 2;
    assert Workdays(monday, monday + 2, []) == 3;
    assert Workdays(monday, monday + 3, []) == 4;
    assert Workdays(monday, monday + 4, []) == 5;
    assert Workdays(monday, monday + 5, []) == 5;
  }

  /** Without absences, day `k` of a week is a working day exactly for Monday to Friday. */
  lemma WeekDayWorks(monday: int, k: int)
    requires Weekday(monday) == 0 && 0 <= k < 7
    ensures IsWorkday(monday + k, []) == (k < 5)
  {
    var q := (monday + 3) / 7;
    assert monday + 3 == 7 * q;
    assert monday + k + 3 == 7 * q + k;
    assert Weekday(monday + k) == k;
  }

  /** One more absence never adds a working day. */
  lemma {:induction false} MoreAbsencesFewerWorkdays(start: int, end: int, abs: seq<(int, int)>, a: (int, int))
    ensures Workdays(start, end, abs + [a]) <= Workdays(start, end, abs)
    decreases end - start
  {
    if start <= end {
      MoreAbsencesFewerWorkdays(start, end - 1, abs, a);
      if IsWorkday(end, abs + [a]) {
        forall i | 0 <= i < |abs| ensures !(abs[i].0 <= end <= abs[i].1) {
          assert (abs + [a])[i] == abs[i];
        }
      }
    }
  }

  /** Absences that agree on which days of the range are off give the same count. */
  lemma {:induction false} WorkdaysSameDaysOff(start: int, end: int, abs: seq<(int, int)>, abs': seq<(int, int)>)
    requires forall d :: start <= d <= end ==> (DayOff(d, abs) <==> DayOff(d, abs'))
    ensures Workdays(start, end, abs) == Workdays(start, end, abs')
    decreases end - start
  {
    if start <= end {
      WorkdaysSameDaysOff(start, end - 1, abs, abs');
    }
  }

  // ---------------------------------------------------------------------
  // into_sprint
  // ---------------------------------------------------------------------

  /** A sprint as the Jira agile API returns it. */
  datatype JiraSprint = JiraSprint(id: nat, state: string, name: string, startDate: Option<int>, endDate: Option<int>)

  /** The three sprint states Jira reports; any other text has no state. */
  function StateOf(s: string): (r: Option<SprintState>)
    ensures r.Some? <==> s == "active" || s == "closed" || s == "future"
  {
    match s
    case "active" => Some(Active)
    case "closed" => Some(Closed)
    case "future" => Some(Future)
    case _ => None
  }

  /** An absence counts for a sprint when their dates overlap; never for a sprint lacking a date. */
  predicate Overlaps(s: JiraSprint, a: Absence) {
    s.startDate.Some? && s.endDate.Some?
    && DayOf(a.start) <= DayOf(s.endDate.value) && DayOf(a.end) >= DayOf(s.startDate.value)
  }

  /** The absences that overlap the sprint, in order. */
  function SprintAbsences(s: JiraSprint, absences: seq<Absence>): (r: seq<Absence>)
    ensures forall a :: a in r <==> a in absences && Overlaps(s, a)
    decreases |absences|
  {
    if |absences| == 0 then []
    else
      var n := |absences| - 1;
      assert absences == absences[..n] + [absences[n]];
      SprintAbsences(s, absences[..n]) + (if Overlaps(s, absences[n]) then [absences[n]] else [])
  }

  /**
   * `into_sprint`: not followed, and its working days counted over its
   * dates with the overlapping absences, or none when a date is missing.
   * An unknown state makes the program panic.
   */
  function IntoSprint(s: JiraSprint, absences: seq<Absence>): (r: Sprint)
    requires StateOf(s.state).Some?
    ensures r.id == s.id && r.name == s.name && r.start == s.startDate && r.end == s.endDate
    ensures Some(r.state) == StateOf(s.state) && !r.followed
    ensures s.startDate.None? || s.endDate.None? ==> r.workdays == 0
  {
    var workdays :=
      if s.startDate.Some? && s.endDate.Some? then
        Workdays(DayOf(s.startDate.value), DayOf(s.endDate.value), AllAbsenceDates(SprintAbsences(s, absences)))
      else 0;
    Sprint(s.id, s.name, StateOf(s.state).value, s.startDate, s.endDate, false, workdays)
  }

  /**
   * Leaving out the absences that do not overlap changes nothing: the
   * count is the one over every absence.
   */
  lemma IntoSprintWorkdays(s: JiraSprint, absences: seq<Absence>)
    requires StateOf(s.state).Some? && s.startDate.Some? && s.endDate.Some?
    ensures IntoSprint(s, absences).workdays
            == Workdays(DayOf(s.startDate.value), DayOf(s.endDate.value), AllAbsenceDates(absences))
  {
    var start, end := DayOf(s.startDate.value), DayOf(s.endDate.value);
    var kept := SprintAbsences(s, absences);
    var abs, abs' := AllAbsenceDates(kept), AllAbsenceDates(absences);
    forall d | start <= d <= end ensures DayOff(d, abs) <==> DayOff(d, abs') {
      if DayOff(d, abs) {
        var i :| 0 <= i < |abs| && abs[i].0 <= d <= abs[i].1;
        assert kept[i] in kept;
        var j :| 0 <= j < |absences| && absences[j] == kept[i];
        assert abs'[j].0 <= d <= abs'[j].1;
      }
      if DayOff(d, abs') {
        var j :| 0 <= j < |abs'| && abs'[j].0 <= d <= abs'[j].1;
        assert absences[j] in absences && Overlaps(s, absences[j]);
        var i :| 0 <= i < |kept| && kept[i] == absences[j];
        assert abs[i].0 <= d <= abs[i].1;
      }
    }
    WorkdaysSameDaysOff(start, end, abs, abs');
  }

  // ---------------------------------------------------------------------
  // Time spent
  // ---------------------------------------------------------------------

  /** The colour `get_time_spent` gives the hours spent. */
  datatype Shade = Red | Yellow | Plain

  /** Seven hours a working day. */
  function ExpectedSeconds(workdays: nat): nat {
    workdays * 7 * SecondsPerHour
  }

  /**
   * `SprintInfo::get_time_spent`: red below 90 % of the expected time,
   * yellow below all of it, uncoloured from then on.
   */
  function TimeSpentShade(workdays: nat, timeSpentSeconds: nat): (r: Shade)
    ensures r == Red <==> timeSpentSeconds < ExpectedSeconds(workdays) * 9 / 10
    ensures r == Plain <==> timeSpentSeconds >= ExpectedSeconds(workdays)
  {
    var expected := ExpectedSeconds(workdays);
    var minimum := expected * 9 / 10;
    if timeSpentSeconds < minimum then Red
    else if timeSpentSeconds < expected then Yellow
    else Plain
  }

  function ShadeRank(s: Shade): nat {
    match s
    case Red => 0
    case Yellow => 1
    case Plain => 2
  }

  /** More time spent never gives a worse colour; fewer working days never do either. */
  lemma ShadeMonotone(workdays: nat, workdays': nat, t: nat, t': nat)
    requires workdays' <= workdays && t <= t'
    ensures ShadeRank(TimeSpentShade(workdays, t)) <= ShadeRank(TimeSpentShade(workdays', t'))
  {
    assert ExpectedSeconds(workdays') <= ExpectedSeconds(workdays) by {
      MultiplyMonotone(workdays', workdays, 7 * SecondsPerHour);
    }
  }

  lemma MultiplyMonotone(a: nat, b: nat, c: nat)
    requires a <= b
    ensures a * c <= b * c
  {
  }

  /** A sprint without working days needs no time: it is never coloured. */
  lemma NoWorkdaysIsPlain(t: nat)
    ensures TimeSpentShade(0, t) == Plain
  {
  }

  // ---------------------------------------------------------------------
  // Auto-follow
  // ---------------------------------------------------------------------

  /** Whether the configured pattern asks for this sprint to be followed. */
  predicate MatchesPattern(s: Sprint, pattern: Option<string>) {
    pattern.Some? && Contains(s.name, pattern.value) && (s.state == Active || s.state == Future)
  }

  /** The follow flag once the stored one is carried over. */
  function CarriedOver(s: Sprint, stored: map<nat, Sprint>): Sprint {
    if s.id in stored then s.(followed := stored[s.id].followed) else s
  }

  predicate AutoFollows(s: Sprint, stored: map<nat, Sprint>, pattern: Option<string>) {
    !CarriedOver(s, stored).followed && MatchesPattern(s, pattern)
  }

  /** The sprint as saved: the stored flag, then the auto-follow rule. */
  function Prepared(s: Sprint, stored: map<nat, Sprint>, pattern: Option<string>): Sprint {
    var c := CarriedOver(s, stored);
    if AutoFollows(s, stored, pattern) then c.(followed := true) else c
  }

  /**
   * The rule: a sprint is followed when it was stored followed, or when
   * it is active or future and its name contains the pattern; a follow
   * flag already stored is never cleared, and nothing but the flag changes.
   */
  lemma PreparedRule(s: Sprint, stored: map<nat, Sprint>, pattern: Option<string>)
    ensures Prepared(s, stored, pattern).followed
            == ((if s.id in stored then stored[s.id].followed else s.followed) || MatchesPattern(s, pattern))
    ensures Prepared(s, stored, pattern) == s.(followed := Prepared(s, stored, pattern).followed)
    ensures s.state == Closed && !CarriedOver(s, stored).followed ==> !Prepared(s, stored, pattern).followed
  {
  }

  function PreparedAll(ss: seq<Sprint>, stored: map<nat, Sprint>, pattern: Option<string>): (r: seq<Sprint>)
    ensures |r| == |ss| && forall i :: 0 <= i < |ss| ==> r[i] == Prepared(ss[i], stored, pattern)
  {
    seq(|ss|, i requires 0 <= i < |ss| => Prepared(ss[i], stored, pattern))
  }

  /** How many of the sprints are followed by the pattern rule. */
  function AutoFollowCount(ss: seq<Sprint>, stored: map<nat, Sprint>, pattern: Option<string>): (n: nat)
    ensures n <= |ss|
    ensures pattern.None? ==> n == 0
    decreases |ss|
  {
    if |ss| == 0 then 0
    else
      var k := |ss| - 1;
      AutoFollowCount(ss[..k], stored, pattern) + (if AutoFollows(ss[k], stored, pattern) then 1 else 0)
  }

  predicate KnownStates(js: seq<JiraSprint>) {
    forall i :: 0 <= i < |js| ==> StateOf(js[i].state).Some?
  }

  function Converted(js: seq<JiraSprint>, absences: seq<Absence>): (r: seq<Sprint>)
    requires KnownStates(js)
    ensures |r| == |js| && forall i :: 0 <= i < |js| ==> r[i] == IntoSprint(js[i], absences)
  {
    seq(|js|, i requires 0 <= i < |js| && KnownStates(js) => IntoSprint(js[i], absences))
  }

  /** The `map` over one board's sprints, bumping the auto-follow counter. */
  method PrepareBoardSprints(js: seq<JiraSprint>, absences: seq<Absence>, stored: map<nat, Sprint>, pattern: Option<string>)
    returns (sprints: seq<Sprint>, autoFollowed: nat)
    requires KnownStates(js)
    ensures sprints == PreparedAll(Converted(js, absences), stored, pattern)
    ensures autoFollowed == AutoFollowCount(Converted(js, absences), stored, pattern)
  {
    var all := Converted(js, absences);
    sprints, autoFollowed := [], 0;
    for i := 0 to |js|
      invariant sprints == PreparedAll(all[..i], stored, pattern)
      invariant autoFollowed == AutoFollowCount(all[..i], stored, pattern)
    {
      PreparedSnoc(all, i, stored, pattern);
      var spr := IntoSprint(js[i], absences);
      assert spr == all[i];
      if spr.id in stored {
        spr := spr.(followed := stored[spr.id].followed);
      }
      if !spr.followed && pattern.Some? && Contains(spr.name, pattern.value) && (spr.state == Active || spr.state == Future) {
        spr := spr.(followed := true);
        autoFollowed := autoFollowed + 1;
      }
      sprints := sprints + [spr];
    }
    assert all[..|js|] == all;
  }

  lemma PreparedSnoc(ss: seq<Sprint>, i: nat, stored: map<nat, Sprint>, pattern: Option<string>)
    requires i < |ss|
    ensures PreparedAll(ss[..i + 1], stored, pattern) == PreparedAll(ss[..i], stored, pattern) + [Prepared(ss[i], stored, pattern)]
    ensures AutoFollowCount(ss[..i + 1], stored, pattern)
            == AutoFollowCount(ss[..i], stored, pattern) + (if AutoFollows(ss[i], stored, pattern) then 1 else 0)
  {
    assert ss[..i + 1][..i] == ss[..i];
  }

  /** `save_all_sprints`: each sprint stored under its id, the later one winning. */
  function SaveSprints(stored: map<nat, Sprint>, ss: seq<Sprint>): (r: map<nat, Sprint>)
    ensures forall id :: id in r <==> id in stored || exists i :: 0 <= i < |ss| && ss[i].id == id
    decreases |ss|
  {
    if |ss| == 0 then stored
    else
      var k := |ss| - 1;
      SaveSprints(stored, ss[..k])[ss[k].id := ss[k]]
  }

  /**
   * `fetch_board_sprints(board.id)`. Its `Err` comes only from the constant
   * progress-bar template; a failed sprint request is `Ok([])`
   * (`FetchBoardSprints`).
   */
  type BoardFetch = nat -> Result<seq<JiraSprint>, string>

  /** The reply of `get_all_sprint(board_id)`: the board's sprints or the client's error. */
  type SprintReply = Result<seq<JiraSprint>, string>

  /**
   * `fetch_board_sprints` on the reply of the sprint request: a failed
   * request is printed and yields no sprints, it is never an error.
   */
  function FetchBoardSprints(reply: SprintReply): (r: Result<seq<JiraSprint>, string>)
    ensures r.Ok?
    ensures reply.Ok? ==> r.value == reply.value
    ensures reply.Err? ==> r.value == []
  {
    if reply.Ok? then reply else Ok([])
  }

  /** The fetch the board loop sees when every board's sprints come from `replies`. */
  function FetchFromReplies(replies: nat -> SprintReply): (fetch: BoardFetch)
    ensures forall id :: fetch(id) == FetchBoardSprints(replies(id))
  {
    (id: nat) => FetchBoardSprints(replies(id))
  }

  ghost predicate FetchKnown(fetch: BoardFetch) {
    forall id :: fetch(id).Ok? ==> KnownStates(fetch(id).value)
  }

  /** The sprints saved so far, the two counters, and the fetch error that stopped the sync, if any. */
  datatype FetchState = FetchState(saved: map<nat, Sprint>, sprintCount: nat, autoFollowed: nat, error: Option<string>)

  /** One board: only scrum boards have sprints; a fetch error stops everything after it. */
  function BoardStep(st: FetchState, b: Board, fetch: BoardFetch, absences: seq<Absence>, pattern: Option<string>): FetchState
    requires FetchKnown(fetch)
  {
    if st.error.Some? || b.boardType != Scrum then st
    else
      var got := fetch(b.id);
      if got.Err? then st.(error := Some(got.error))
      else
        var all := Converted(got.value, absences);
        var ss := PreparedAll(all, st.saved, pattern);
        FetchState(SaveSprints(st.saved, ss), st.sprintCount + |ss|,
                   st.autoFollowed + AutoFollowCount(all, st.saved, pattern), None)
  }

  function AfterBoards(boards: seq<Board>, fetch: BoardFetch, absences: seq<Absence>,
                       stored: map<nat, Sprint>, pattern: Option<string>): FetchState
    requires FetchKnown(fetch)
    decreases |boards|
  {
    if |boards| == 0 then FetchState(stored, 0, 0, None)
    else
      var k := |boards| - 1;
      BoardStep(AfterBoards(boards[..k], fetch, absences, stored, pattern), boards[k], fetch, absences, pattern)
  }

  lemma AfterBoardsSnoc(boards: seq<Board>, i: nat, fetch: BoardFetch, absences: seq<Absence>,
                        stored: map<nat, Sprint>, pattern: Option<string>)
    requires FetchKnown(fetch) && i < |boards|
    ensures AfterBoards(boards[..i + 1], fetch, absences, stored, pattern)
            == BoardStep(AfterBoards(boards[..i], fetch, absences, stored, pattern), boards[i], fetch, absences, pattern)
  {
    assert boards[..i + 1][..i] == boards[..i];
  }

  /** Once a fetch returns an error, later boards change nothing. */
  lemma {:induction false} ErrorSticks(boards: seq<Board>, i: nat, fetch: BoardFetch, absences: seq<Absence>,
                                       stored: map<nat, Sprint>, pattern: Option<string>)
    requires FetchKnown(fetch) && i <= |boards|
    requires AfterBoards(boards[..i], fetch, absences, stored, pattern).error.Some?
    ensures AfterBoards(boards, fetch, absences, stored, pattern) == AfterBoards(boards[..i], fetch, absences, stored, pattern)
    decreases |boards| - i
  {
    if i < |boards| {
      var k := |boards| - 1;
      assert boards[..k][..i] == boards[..i];
      ErrorSticks(boards[..k], i, fetch, absences, stored, pattern);
    } else {
      assert boards[..i] == boards;
    }
  }

  /**
   * Across the boards, a stored sprint is never dropped, the pattern rule
   * follows no more sprints than were fetched, and without a pattern it
   * follows none.
   */
  lemma {:induction false} AfterBoardsShape(boards: seq<Board>, fetch: BoardFetch, absences: seq<Absence>,
                                            stored: map<nat, Sprint>, pattern: Option<string>)
    requires FetchKnown(fetch)
    ensures var st := AfterBoards(boards, fetch, absences, stored, pattern);
            && (forall id :: id in stored ==> id in st.saved)
            && st.autoFollowed <= st.sprintCount
            && (pattern.None? ==> st.autoFollowed == 0)
    decreases |boards|
  {
    if |boards| > 0 {
      AfterBoardsShape(boards[..|boards| - 1], fetch, absences, stored, pattern);
    }
  }

  /**
   * The board loop of the sprint fetch: each scrum board's sprints are
   * prepared against the sprints stored so far and saved. A fetch error
   * stops the sync with that error, the boards before it already saved;
   * a failed sprint request is no error but an empty board
   * (`FailedRequestSkipsBoard`, `RepliesNeverStop`).
   * The counts are the sprints saved and those the pattern followed.
   */
  method FetchSprints(boards: seq<Board>, fetch: BoardFetch, absences: seq<Absence>,
                      stored: map<nat, Sprint>, pattern: Option<string>)
    returns (r: Result<(nat, nat), string>, saved: map<nat, Sprint>)
    requires FetchKnown(fetch)
    ensures var st := AfterBoards(boards, fetch, absences, stored, pattern);
            && saved == st.saved
            && (st.error.Some? ==> r == Err(st.error.value))
            && (st.error.None? ==> r == Ok((st.sprintCount, st.autoFollowed)))
  {
    saved := stored;
    var sprintCount: nat, autoCount: nat := 0, 0;
    for i := 0 to |boards|
      invariant AfterBoards(boards[..i], fetch, absences, stored, pattern) == FetchState(saved, sprintCount, autoCount, None)
    {
      AfterBoardsSnoc(boards, i, fetch, absences, stored, pattern);
      var err;
      err, saved, sprintCount, autoCount := FetchBoard(boards[i], fetch, absences, pattern, saved, sprintCount, autoCount);
      if err.Some? {
        ErrorSticks(boards, i + 1, fetch, absences, stored, pattern);
        return Err(err.value), saved;
      }
    }
    assert boards[..|boards|] == boards;
    r := Ok((sprintCount, autoCount));
  }

  /** One board of that loop: a Scrum board's sprints are fetched, prepared and saved. */
  method FetchBoard(board: Board, fetch: BoardFetch, absences: seq<Absence>, pattern: Option<string>,
                    saved: map<nat, Sprint>, sprintCount: nat, autoCount: nat)
    returns (err: Option<string>, savedAfter: map<nat, Sprint>, sprintCountAfter: nat, autoCountAfter: nat)
    requires FetchKnown(fetch)
    ensures BoardStep(FetchState(saved, sprintCount, autoCount, None), board, fetch, absences, pattern)
            == FetchState(savedAfter, sprintCountAfter, autoCountAfter, err)
  {
    err, savedAfter, sprintCountAfter, autoCountAfter := None, saved, sprintCount, autoCount;
    if board.boardType == Scrum {
      var got := fetch(board.id);
      if got.Err? {
        return Some(got.error), saved, sprintCount, autoCount;
      }
      var sprints, n := PrepareBoardSprints(got.value, absences, saved, pattern);
      ScrumStep(FetchState(saved, sprintCount, autoCount, None), board, fetch, absences, pattern, got.value);
      savedAfter := SaveSprints(saved, sprints);
      sprintCountAfter := sprintCount + |sprints|;
      autoCountAfter := autoCount + n;
    }
  }

  lemma ScrumStep(st: FetchState, board: Board, fetch: BoardFetch, absences: seq<Absence>, pattern: Option<string>,
                  js: seq<JiraSprint>)
    requires FetchKnown(fetch) && st.error.None? && board.boardType == Scrum && fetch(board.id) == Ok(js)
    ensures var all := Converted(js, absences);
            var ss := PreparedAll(all, st.saved, pattern);
            BoardStep(st, board, fetch, absences, pattern)
            == FetchState(SaveSprints(st.saved, ss), st.sprintCount + |ss|, st.autoFollowed + AutoFollowCount(all, st.saved, pattern), None)
  { }
  /**
   * A Scrum board whose sprint request fails saves nothing and counts
   * nothing, and the sync goes on with the next board.
   */
  lemma FailedRequestSkipsBoard(st: FetchState, board: Board, fetch: BoardFetch, absences: seq<Absence>,
                                pattern: Option<string>, reply: SprintReply)
    requires FetchKnown(fetch) && st.error.None? && reply.Err? && fetch(board.id) == FetchBoardSprints(reply)
    ensures BoardStep(st, board, fetch, absences, pattern) == st
  {
    if board.boardType == Scrum {
      ScrumStep(st, board, fetch, absences, pattern, []);
      assert SaveSprints(st.saved, []) == st.saved;
    }
  }

  /**
   * When each board's sprints come from its request's reply, no board
   * stops the loop: whatever the replies, the sync ends without an error.
   */
  lemma {:induction false} RepliesNeverStop(boards: seq<Board>, replies: nat -> SprintReply, absences: seq<Absence>,
                                            stored: map<nat, Sprint>, pattern: Option<string>)
    requires forall id :: replies(id).Ok? ==> KnownStates(replies(id).value)
    ensures FetchKnown(FetchFromReplies(replies))
    ensures AfterBoards(boards, FetchFromReplies(replies), absences, stored, pattern).error.None?
    decreases |boards|
  {
    var fetch := FetchFromReplies(replies);
    assert FetchKnown(fetch) by {
      forall id | fetch(id).Ok?
        ensures KnownStates(fetch(id).value)
      {
        assert fetch(id) == FetchBoardSprints(replies(id));
      }
    }
    if |boards| > 0 {
      RepliesNeverStop(boards[..|boards| - 1], replies, absences, stored, pattern);
    }
  }
}
