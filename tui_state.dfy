/**
 * The `Tui` object and the parts of its main module that only touch its
 * own fields: the data-refresh and fetch guards, the bridges from the
 * background channels to the event bus, the push-progress parser, the
 * key-sequence buffer, the revert-confirmation input and the Chronie
 * message gate.
 *
 * A background thread is not run here. What a channel yields when it is
 * polled is a parameter of the method that polls it (`None` when nothing
 * has arrived), so each contract holds whatever the thread sends and
 * whenever it sends it.
 */
module TuiState {
  import opened Wrappers
  import opened Text
  import opened Numbers
  import opened Model
  import opened Achievements
  import opened TuiTypes
  import Logger
  import Navigation

  /** The keys the TUI reacts to. */
  datatype KeyCode =
    | Up | Down | Left | Right | Home | End | PageUp | PageDown
    | Enter | Esc | Backspace | Delete | Char(c: char) | OtherKey

  datatype KeyEvent = KeyEvent(code: KeyCode, ctrl: bool)

  /** `RevertConfirmationState`: the history to revert and the hours typed so far. */
  datatype RevertConfirmation = RevertConfirmation(historyId: string, userInput: string, reverting: bool)

  const KeyBufferCapacity: nat := 20

  class Tui {
    var data: TuiData
    var fetchStatus: FetchStatus
    var wizard: Option<WizardState>
    var worklogConfirmation: Option<WorklogCreationConfirmation>
    var gapFill: Option<GapFillState>
    var issueSelection: Option<IssueSelectionState>
    var revertConfirmation: Option<RevertConfirmation>
    var showAboutPopup: bool
    var keyBuffer: seq<string>
    /** Whether each channel receiver is held (`Some`). */
    var fetchReceiving: bool
    var revertReceiving: bool
    var pushReceiving: bool
    var progressReceiving: bool
    /** A data refresh in flight, with the UI state it captured. */
    var refreshPending: Option<TabUiState>
    /** `status_clear_time.is_some()`. */
    var statusTimerArmed: bool
    const bus: EventBus
    /** The store behind `AchievementService`. */
    const achievements: AchievementData

    ghost predicate Valid()
      reads this, achievements
    {
      |keyBuffer| <= KeyBufferCapacity && achievements.Valid()
    }

    /** `Tui::new`: the first snapshot, nothing in flight, and the two subscribers registered. */
    constructor (initial: TuiData, store: AchievementData)
      requires store.Valid()
      ensures Valid()
      ensures data == initial && fetchStatus == Idle && wizard == None
      ensures worklogConfirmation == None && gapFill == None && issueSelection == None
      ensures revertConfirmation == None && !showAboutPopup && keyBuffer == []
      ensures !fetchReceiving && !revertReceiving && !pushReceiving && !progressReceiving
      ensures refreshPending == None && !statusTimerArmed
      ensures fresh(bus) && bus.subscribers == Subscribers && bus.pending == [] && bus.history == []
      ensures achievements == store
    {
      var b := new EventBus();
      b.Subscribe(WizardEventHandler);
      b.Subscribe(AchievementTracker);
      data, fetchStatus, wizard := initial, Idle, None;
      worklogConfirmation, gapFill, issueSelection := None, None, None;
      revertConfirmation, showAboutPopup, keyBuffer := None, false, [];
      fetchReceiving, revertReceiving, pushReceiving, progressReceiving := false, false, false, false;
      refreshPending, statusTimerArmed := None, false;
      bus := b;
      achievements := store;
    }

    // -------------------------------------------------------------------
    // Refresh and fetch guards
    // -------------------------------------------------------------------

    /** `refresh_data`: start one refresh at a time; it carries the UI state of this moment. */
    method RefreshData()
      modifies this`refreshPending
      ensures old(refreshPending).Some? ==> refreshPending == old(refreshPending)
      ensures old(refreshPending).None? ==> refreshPending == Some(data.ui)
    {
      if refreshPending.Some? {
        return;
      }
      refreshPending := Some(data.ui);
    }

    /**
     * `handle_data_refresh`: once the refresh thread has sent what it
     * collected, that becomes the snapshot (with the UI state captured when
     * the refresh began) and `DataRefreshed` is published.
     */
    method HandleDataRefresh(received: Option<TuiData>)
      modifies this`data, this`refreshPending, bus
      ensures (old(refreshPending).Some? && received.Some?) ==>
                && data == received.value.(ui := old(refreshPending).value)
                && refreshPending == None
                && bus.pending == old(bus.pending) + [DataRefreshed(data)]
                && bus.history == old(bus.history) + [DataRefreshed(data)]
      ensures !(old(refreshPending).Some? && received.Some?) ==>
                data == old(data) && refreshPending == old(refreshPending)
                && bus.pending == old(bus.pending) && bus.history == old(bus.history)
      ensures bus.subscribers == old(bus.subscribers)
    {
      if refreshPending.Some? && received.Some? {
        data := received.value.(ui := refreshPending.value);
        refreshPending := None;
        bus.Publish(DataRefreshed(data));
      }
    }

    /** `handle_update`: no new fetch starts while the status says one is running. */
    method HandleUpdate()
      modifies this`fetchReceiving
      ensures old(fetchStatus).Fetching? ==> fetchReceiving == old(fetchReceiving)
      ensures !old(fetchStatus).Fetching? ==> fetchReceiving
    {
      if fetchStatus.Fetching? {
        return;
      }
      fetchReceiving := true;
    }

    /**
     * `handle_fetch_status`: a status from the fetch thread becomes the
     * current one; completion starts a refresh and publishes
     * `FetchComplete` with the snapshot held at that moment, an error
     * publishes `FetchError`.
     */
    method HandleFetchStatus(received: Option<FetchStatus>)
      modifies this`fetchStatus, this`fetchReceiving, this`statusTimerArmed, this`refreshPending, bus
      ensures !(old(fetchReceiving) && received.Some?) ==>
                fetchStatus == old(fetchStatus) && fetchReceiving == old(fetchReceiving)
                && statusTimerArmed == old(statusTimerArmed) && refreshPending == old(refreshPending)
                && bus.pending == old(bus.pending) && bus.history == old(bus.history)
      ensures old(fetchReceiving) && received.Some? ==> fetchStatus == received.value
      ensures old(fetchReceiving) && received == Some(FetchDone) ==>
                && !fetchReceiving && statusTimerArmed
                && refreshPending == (if old(refreshPending).Some? then old(refreshPending) else Some(data.ui))
                && bus.pending == old(bus.pending) + [FetchComplete(data)]
                && bus.history == old(bus.history) + [FetchComplete(data)]
      ensures old(fetchReceiving) && received.Some? && received.value.FetchFailed? ==>
                && !fetchReceiving && statusTimerArmed && refreshPending == old(refreshPending)
                && bus.pending == old(bus.pending) + [FetchError(received.value.error)]
                && bus.history == old(bus.history) + [FetchError(received.value.error)]
      ensures old(fetchReceiving) && received.Some? && (received.value.Idle? || received.value.Fetching?) ==>
                && fetchReceiving && statusTimerArmed == old(statusTimerArmed) && refreshPending == old(refreshPending)
                && bus.pending == old(bus.pending) && bus.history == old(bus.history)
      ensures bus.subscribers == old(bus.subscribers)
    {
      if fetchReceiving && received.Some? {
        var status := received.value;
        fetchStatus := status;
        match status {
          case FetchDone =>
            RefreshData();
            fetchReceiving := false;
            statusTimerArmed := true;
            bus.Publish(FetchComplete(data));
          case FetchFailed(err) =>
            fetchReceiving := false;
            statusTimerArmed := true;
            bus.Publish(FetchError(err));
          case Idle =>
          case Fetching(_) =>
        }
      }
    }

    /** `handle_revert_completion`: success refreshes and publishes `RevertComplete`, failure `RevertError`. */
    method HandleRevertCompletion(received: Option<Result<(), string>>)
      modifies this`revertReceiving, this`revertConfirmation, this`refreshPending, bus
      ensures !(old(revertReceiving) && received.Some?) ==>
                revertReceiving == old(revertReceiving) && revertConfirmation == old(revertConfirmation)
                && refreshPending == old(refreshPending)
                && bus.pending == old(bus.pending) && bus.history == old(bus.history)
      ensures old(revertReceiving) && received.Some? ==> !revertReceiving && revertConfirmation == None
      ensures old(revertReceiving) && received.Some? && received.value.Ok? ==>
                && refreshPending == (if old(refreshPending).Some? then old(refreshPending) else Some(data.ui))
                && bus.pending == old(bus.pending) + [RevertComplete]
                && bus.history == old(bus.history) + [RevertComplete]
      ensures old(revertReceiving) && received.Some? && received.value.Err? ==>
                && refreshPending == old(refreshPending)
                && bus.pending == old(bus.pending) + [RevertError(received.value.error)]
                && bus.history == old(bus.history) + [RevertError(received.value.error)]
      ensures bus.subscribers == old(bus.subscribers)
    {
      if revertReceiving && received.Some? {
        revertReceiving := false;
        revertConfirmation := None;
        match received.value {
          case Ok(_) =>
            RefreshData();
            bus.Publish(RevertComplete);
          case Err(e) =>
            bus.Publish(RevertError(e));
        }
      }
    }

    /**
     * `handle_push_operations`: a completion (the history id) ends the
     * push, marks the status complete, refreshes and publishes
     * `PushComplete`; then every progress line received is parsed, and
     * those carrying `[current/total]` are published as `PushProgress`.
     */
    method HandlePushOperations(completion: Option<string>, progress: seq<string>)
      requires AllBracketsInOrder(progress)
      modifies this`pushReceiving, this`progressReceiving, this`fetchStatus, this`refreshPending,
               this`statusTimerArmed, bus
      ensures old(pushReceiving) && completion.Some? ==>
                && !pushReceiving && !progressReceiving && fetchStatus == FetchDone && statusTimerArmed
                && refreshPending == (if old(refreshPending).Some? then old(refreshPending) else Some(data.ui))
      ensures !(old(pushReceiving) && completion.Some?) ==>
                pushReceiving == old(pushReceiving) && progressReceiving == old(progressReceiving)
                && fetchStatus == old(fetchStatus) && statusTimerArmed == old(statusTimerArmed)
                && refreshPending == old(refreshPending)
      ensures bus.pending == old(bus.pending) + PushEvents(old(pushReceiving), old(progressReceiving), completion, progress)
      ensures bus.history == old(bus.history) + PushEvents(old(pushReceiving), old(progressReceiving), completion, progress)
      ensures bus.subscribers == old(bus.subscribers)
    {
      ghost var events := PushEvents(pushReceiving, progressReceiving, completion, progress);
      if pushReceiving && completion.Some? {
        CompletePush(completion.value);
        assert events == [PushComplete(completion.value)];
      }
      if progressReceiving {
        PublishProgress(bus, progress);
        assert events == ProgressEvents(progress);
      }
    }

    /** The completion half of `handle_push_operations`. */
    method CompletePush(historyId: string)
      modifies this`pushReceiving, this`progressReceiving, this`fetchStatus, this`refreshPending,
               this`statusTimerArmed, bus
      ensures !pushReceiving && !progressReceiving && fetchStatus == FetchDone && statusTimerArmed
      ensures refreshPending == (if old(refreshPending).Some? then old(refreshPending) else Some(data.ui))
      ensures bus.pending == old(bus.pending) + [PushComplete(historyId)]
      ensures bus.history == old(bus.history) + [PushComplete(historyId)]
      ensures bus.subscribers == old(bus.subscribers)
    {
      pushReceiving := false;
      progressReceiving := false;
      fetchStatus := FetchDone;
      RefreshData();
      statusTimerArmed := true;
      bus.Publish(PushComplete(historyId));
    }

    /** `check_and_clear_status_timer`: after 3 s (5 s for an error) the status goes back to Idle. */
    method CheckAndClearStatusTimer(elapsedMillis: nat)
      modifies this`fetchStatus, this`statusTimerArmed, bus
      ensures StatusExpired(old(statusTimerArmed), old(fetchStatus), elapsedMillis) ==>
                fetchStatus == Idle && !statusTimerArmed
                && bus.pending == old(bus.pending) + [StatusMessageTimeout]
                && bus.history == old(bus.history) + [StatusMessageTimeout]
      ensures !StatusExpired(old(statusTimerArmed), old(fetchStatus), elapsedMillis) ==>
                fetchStatus == old(fetchStatus) && statusTimerArmed == old(statusTimerArmed)
                && bus.pending == old(bus.pending) && bus.history == old(bus.history)
      ensures bus.subscribers == old(bus.subscribers)
    {
      if StatusExpired(statusTimerArmed, fetchStatus, elapsedMillis) {
        fetchStatus := Idle;
        statusTimerArmed := false;
        bus.Publish(StatusMessageTimeout);
      }
    }

    // -------------------------------------------------------------------
    // Key-sequence buffer and the revert-confirmation input
    // -------------------------------------------------------------------

    /** The buffer half of `track_key_str`: append, and drop the oldest once past 20. */
    method PushKey(key: string)
      requires Valid()
      modifies this`keyBuffer
      ensures Valid()
      ensures keyBuffer == Logger.KeepLast(old(keyBuffer) + [key], KeyBufferCapacity)
      ensures keyBuffer[|keyBuffer| - 1] == key
      ensures |old(keyBuffer)| < KeyBufferCapacity ==> keyBuffer == old(keyBuffer) + [key]
      ensures |old(keyBuffer)| == KeyBufferCapacity ==> keyBuffer == old(keyBuffer)[1..] + [key]
    {
      keyBuffer := keyBuffer + [key];
      if |keyBuffer| > KeyBufferCapacity {
        keyBuffer := keyBuffer[1..];
      }
    }

    /**
     * The clamp at the top of `handle_worklogs_key`: with `visible` rows
     * on screen, a worklog selection past the last row is pulled back to it.
     */
    method ClampWorklogSelection(visible: nat)
      modifies this`data
      ensures data == old(data).(ui := old(data).ui.(selectedWorklogIndex := Clamped(old(data).ui.selectedWorklogIndex, visible)))
    {
      var maxIndex := LastIndex(visible);
      if data.ui.selectedWorklogIndex > maxIndex {
        data := data.(ui := data.ui.(selectedWorklogIndex := maxIndex));
      }
    }

    /** The buffer is cleared once a sequence fires. */
    method ClearKeyBuffer()
      requires Valid()
      modifies this`keyBuffer
      ensures Valid() && keyBuffer == []
    {
      keyBuffer := [];
    }

    /**
     * `track_key_str` and `check_key_sequences`: the key is buffered; the
     * first secret sequence the buffer now ends with is published and the
     * buffer cleared. `sequences` are the branding's definitions in the
     * order the hash map yields them, empty without branding or secrets.
     */
    method TrackKeyStr(key: string, sequences: seq<(string, seq<string>)>)
      requires Valid()
      modifies this`keyBuffer, bus
      ensures Valid()
      ensures bus.subscribers == old(bus.subscribers)
      ensures var buffered := Logger.KeepLast(old(keyBuffer) + [key], KeyBufferCapacity);
              match FirstMatch(buffered, sequences)
              case Some(i) =>
                && keyBuffer == []
                && bus.pending == old(bus.pending) + [SecretSequenceTriggered(sequences[i].0)]
                && bus.history == old(bus.history) + [SecretSequenceTriggered(sequences[i].0)]
              case None =>
                && keyBuffer == buffered
                && bus.pending == old(bus.pending) && bus.history == old(bus.history)
    {
      PushKey(key);
      ghost var buffered := keyBuffer;
      var k := 0;
      while k < |sequences|
        invariant k <= |sequences| && keyBuffer == buffered && Valid()
        invariant forall j :: 0 <= j < k ==> !MatchesSequence(buffered, sequences[j].1)
        invariant bus.pending == old(bus.pending) && bus.history == old(bus.history)
        invariant bus.subscribers == old(bus.subscribers)
        decreases |sequences| - k
      {
        if MatchesSequence(keyBuffer, sequences[k].1) {
          bus.Publish(SecretSequenceTriggered(sequences[k].0));
          ClearKeyBuffer();
          assert FirstMatch(buffered, sequences) == Some(k);
          return;
        }
        k := k + 1;
      }
    }

    /**
   * The part of `handle_history_key` that edits the typed hours: digits
   * and '.' only, Backspace deletes, Esc cancels the confirmation.
   */
    method HandleRevertInputKey(key: KeyCode)
      modifies this`revertConfirmation
      ensures revertConfirmation == RevertInputAfter(old(revertConfirmation), key)
    {
      if revertConfirmation.Some? && !revertConfirmation.value.reverting {
        var state := revertConfirmation.value;
        match key {
          case Char(c) =>
            if IsAsciiDigit(c) || c == '.' {
              revertConfirmation := Some(state.(userInput := state.userInput + [c]));
            }
          case Backspace =>
            if |state.userInput| > 0 {
              revertConfirmation := Some(state.(userInput := state.userInput[..|state.userInput| - 1]));
            }
          case Esc =>
            revertConfirmation := None;
          case _ =>
        }
      }
    }
  }

  /** `len().saturating_sub(1)`: the last row of a list, 0 for an empty one. */
  function LastIndex(count: nat): (m: nat)
    ensures count > 0 ==> m == count - 1
    ensures count == 0 ==> m == 0
  {
    if count > 0 then count - 1 else 0
  }

  /** A selection after the clamp: kept when within the rows, else the last row. */
  function Clamped(index: nat, count: nat): (r: nat)
    ensures r <= LastIndex(count) && r <= index
    ensures r == index <==> index <= LastIndex(count)
  {
    if index > LastIndex(count) then LastIndex(count) else index
  }

  /** Once clamped, the selection stays on a row whatever navigation keys follow. */
  lemma {:induction false} ClampedStaysInRange(index: nat, count: nat, keys: seq<Navigation.Key>)
    ensures Navigation.NavigateAll(keys, Clamped(index, count), LastIndex(count)) <= LastIndex(count)
  {
  }

  /** The 3-second timeout, 5 seconds while the status shows an error. */
  predicate StatusExpired(armed: bool, status: FetchStatus, elapsedMillis: nat) {
    armed && elapsedMillis > (if status.FetchFailed? then 5000 else 3000)
  }

  // ---------------------------------------------------------------------
  // Push progress lines
  // ---------------------------------------------------------------------

  /** The parser slices between the first '[' and the first ']', which panics when ']' comes first. */
  predicate BracketsInOrder(msg: string) {
    ('[' in msg && ']' in msg) ==> IndexOf(msg, '[') < IndexOf(msg, ']')
  }

  /** The `[current/total]` counter of a progress line: the text between the first '[' and the first ']'. */
  function ParseProgress(msg: string): (r: Option<(nat, nat)>)
    requires BracketsInOrder(msg)
    ensures r.Some? ==> '[' in msg && ']' in msg
    ensures r.Some? ==> r.value.0 <= U64Max && r.value.1 <= U64Max
  {
    if '[' in msg && ']' in msg then ParseCounter(msg[IndexOf(msg, '[') + 1..IndexOf(msg, ']')])
    else None
  }

  /** `current/total`: split at the first '/', both halves trimmed and parsed as `usize`. */
  function ParseCounter(inner: string): (r: Option<(nat, nat)>)
    ensures r.Some? ==> '/' in inner
    ensures r.Some? ==> r.value.0 <= U64Max && r.value.1 <= U64Max
  {
    if '/' in inner then
      var slash := IndexOf(inner, '/');
      var current := ParseUnsigned(Trim(inner[..slash]));
      var total := ParseUnsigned(Trim(inner[slash + 1..]));
      if current.Some? && total.Some? then Some((current.value, total.value)) else None
    else None
  }

  /** The counter the push thread writes into each line. */
  function ProgressTag(current: nat, total: nat): string {
    "[" + NatToString(current) + "/" + NatToString(total) + "]"
  }

  /** A line the push thread writes parses back to its own counter, whatever follows it. */
  lemma ProgressTagParses(prefix: string, current: nat, total: nat, rest: string)
    requires '[' !in prefix && ']' !in prefix
    requires current <= U64Max && total <= U64Max
    ensures BracketsInOrder(prefix + ProgressTag(current, total) + rest)
    ensures ParseProgress(prefix + ProgressTag(current, total) + rest) == Some((current, total))
  {
    var msg := prefix + ProgressTag(current, total) + rest;
    var inner := NatToString(current) + "/" + NatToString(total);
    OpenAt(prefix, current, total, rest);
    CloseAt(prefix, current, total, rest);
    assert msg == (prefix + "[") + inner + ("]" + rest);
    Middle(prefix + "[", inner, "]" + rest);
    Unfold(msg);
    assert msg[IndexOf(msg, '[') + 1..IndexOf(msg, ']')] == inner;
    InnerParses(current, total);
  }

  /** Parsing a line whose brackets are in order is parsing the text between them. */
  lemma Unfold(msg: string)
    requires '[' in msg && ']' in msg && BracketsInOrder(msg)
    ensures ParseProgress(msg) == ParseCounter(msg[IndexOf(msg, '[') + 1..IndexOf(msg, ']')])
  {
  }

  lemma Middle(p: string, x: string, q: string)
    ensures |p| + |x| <= |p + x + q| && (p + x + q)[|p|..|p| + |x|] == x
  {
  }

  lemma OpenAt(prefix: string, current: nat, total: nat, rest: string)
    requires '[' !in prefix
    ensures '[' in prefix + ProgressTag(current, total) + rest
    ensures IndexOf(prefix + ProgressTag(current, total) + rest, '[') == |prefix|
  {
    var tail := ProgressTag(current, total) + rest;
    assert prefix + ProgressTag(current, total) + rest == prefix + tail;
    IndexOfAfterPrefix(prefix, tail, '[');
  }

  lemma CloseAt(prefix: string, current: nat, total: nat, rest: string)
    requires ']' !in prefix
    ensures ']' in prefix + ProgressTag(current, total) + rest
    ensures IndexOf(prefix + ProgressTag(current, total) + rest, ']')
            == |prefix| + 1 + |NatToString(current)| + 1 + |NatToString(total)|
  {
    var a := NatToString(current);
    var b := NatToString(total);
    var head := prefix + "[" + a + "/" + b;
    NotInDigits(a, ']');
    NotInDigits(b, ']');
    assert head == prefix + "[" + a + ("/" + b);
    assert ']' !in head;
    assert prefix + ProgressTag(current, total) + rest == head + ("]" + rest);
    IndexOfAfterPrefix(head, "]" + rest, ']');
  }

  lemma NotInDigits(a: string, c: char)
    requires forall k :: 0 <= k < |a| ==> IsAsciiDigit(a[k])
    requires !IsAsciiDigit(c)
    ensures c !in a
  {
  }

  /** The text between the brackets splits at its only '/' into two numbers. */
  lemma InnerParses(current: nat, total: nat)
    requires current <= U64Max && total <= U64Max
    ensures ParseCounter(NatToString(current) + "/" + NatToString(total)) == Some((current, total))
  {
    var a := NatToString(current);
    var b := NatToString(total);
    var inner := a + "/" + b;
    NotInDigits(a, '/');
    assert inner == a + ("/" + b);
    IndexOfAfterPrefix(a, "/" + b, '/');
    assert inner[..|a|] == a && inner[|a| + 1..] == b;
    TrimNoSpace(a);
    TrimNoSpace(b);
    ParseUnsignedRoundTrip(current);
    ParseUnsignedRoundTrip(total);
    CounterAt(inner, |a|, a, b);
  }

  /** Once the '/' is located, the counter is the two trimmed halves parsed. */
  lemma CounterAt(inner: string, slash: nat, left: string, right: string)
    requires '/' in inner && IndexOf(inner, '/') == slash
    requires inner[..slash] == left && inner[slash + 1..] == right
    ensures ParseCounter(inner) == (
      var c := ParseUnsigned(Trim(left));
      var t := ParseUnsigned(Trim(right));
      if c.Some? && t.Some? then Some((c.value, t.value)) else None)
  {
    assert Trim(inner[..IndexOf(inner, '/')]) == Trim(left);
    assert Trim(inner[IndexOf(inner, '/') + 1..]) == Trim(right);
  }

  /** A line with no '[' never yields a progress event. */
  lemma NoBracketNoProgress(msg: string)
    requires '[' !in msg
    ensures BracketsInOrder(msg) && ParseProgress(msg) == None
  {
  }

  /** The `PushProgress` event one line produces, if its counter parses. */
  function LineEvents(msg: string): (es: seq<AppEvent>)
    requires BracketsInOrder(msg)
    ensures |es| <= 1
    ensures ParseProgress(msg).None? <==> es == []
    ensures ParseProgress(msg).Some? ==> es == [PushProgress(ParseProgress(msg).value.0, ParseProgress(msg).value.1, msg)]
  {
    var parsed := ParseProgress(msg);
    if parsed.Some? then [PushProgress(parsed.value.0, parsed.value.1, msg)] else []
  }

  predicate AllBracketsInOrder(msgs: seq<string>) {
    forall k :: 0 <= k < |msgs| ==> BracketsInOrder(msgs[k])
  }

  /** The `PushProgress` events a batch of lines produces, in order. */
  function ProgressEvents(msgs: seq<string>): (es: seq<AppEvent>)
    requires AllBracketsInOrder(msgs)
    ensures |es| <= |msgs|
    ensures forall k :: 0 <= k < |es| ==> es[k].PushProgress?
  {
    if |msgs| == 0 then []
    else
      var n := |msgs| - 1;
      ProgressEvents(msgs[..n]) + LineEvents(msgs[n])
  }

  /** The progress loop of `handle_push_operations`. */
  method PublishProgress(bus: EventBus, progress: seq<string>)
    requires AllBracketsInOrder(progress)
    modifies bus
    ensures bus.pending == old(bus.pending) + ProgressEvents(progress)
    ensures bus.history == old(bus.history) + ProgressEvents(progress)
    ensures bus.subscribers == old(bus.subscribers)
  {
    for k := 0 to |progress|
      invariant bus.pending == old(bus.pending) + ProgressEvents(progress[..k])
      invariant bus.history == old(bus.history) + ProgressEvents(progress[..k])
      invariant bus.subscribers == old(bus.subscribers)
    {
      ProgressEventsStep(progress, k);
      PublishLine(bus, progress[k]);
      AppendAssoc(old(bus.pending), ProgressEvents(progress[..k]), LineEvents(progress[k]));
      AppendAssoc(old(bus.history), ProgressEvents(progress[..k]), LineEvents(progress[k]));
    }
    assert progress[..|progress|] == progress;
  }

  /** One line of the loop: publish `PushProgress` when its counter parses. */
  method PublishLine(bus: EventBus, msg: string)
    requires BracketsInOrder(msg)
    modifies bus
    ensures bus.pending == old(bus.pending) + LineEvents(msg)
    ensures bus.history == old(bus.history) + LineEvents(msg)
    ensures bus.subscribers == old(bus.subscribers)
  {
    var parsed := ParseProgress(msg);
    if parsed.Some? {
      bus.Publish(PushProgress(parsed.value.0, parsed.value.1, msg));
    }
  }

  lemma AppendAssoc(a: seq<AppEvent>, b: seq<AppEvent>, c: seq<AppEvent>)
    ensures a + (b + c) == (a + b) + c
  {
  }

  lemma ProgressEventsStep(msgs: seq<string>, k: nat)
    requires k < |msgs| && AllBracketsInOrder(msgs)
    ensures AllBracketsInOrder(msgs[..k]) && AllBracketsInOrder(msgs[..k + 1]) && BracketsInOrder(msgs[k])
    ensures ProgressEvents(msgs[..k + 1]) == ProgressEvents(msgs[..k]) + LineEvents(msgs[k])
  {
    assert msgs[..k + 1][..k] == msgs[..k];
  }

  /** The events one `handle_push_operations` call publishes: the completion first, then the progress. */
  function PushEvents(pushReceiving: bool, progressReceiving: bool, completion: Option<string>, progress: seq<string>): seq<AppEvent>
    requires AllBracketsInOrder(progress)
  {
    var done := pushReceiving && completion.Some?;
    (if done then [PushComplete(completion.value)] else [])
    + (if progressReceiving && !done then ProgressEvents(progress) else [])
  }

  /** Progress lines that arrive together with the completion are dropped with the receiver. */
  lemma ProgressLostWithCompletion(historyId: string, progress: seq<string>)
    requires AllBracketsInOrder(progress)
    ensures PushEvents(true, true, Some(historyId), progress) == [PushComplete(historyId)]
  {
  }

  // ---------------------------------------------------------------------
  // Key sequences
  // ---------------------------------------------------------------------

  /**
   * `track_key_sequence`: the name a key is buffered under; arrows by
   * direction, characters in lower case, other keys not at all.
   */
  function KeyName(code: KeyCode): (r: Option<string>)
    ensures r.Some? ==> |r.value| > 0
    ensures code.Char? ==> r == Some([LowerChar(code.c)])
  {
    match code
    case Up => Some("up")
    case Down => Some("down")
    case Left => Some("left")
    case Right => Some("right")
    case Char(c) => Some([LowerChar(c)])
    case _ => None
  }

  /** `matches_sequence`: the last `|sequence|` keys are the sequence. */
  function MatchesSequence(buffer: seq<string>, sequence: seq<string>): (r: bool)
  {
    |sequence| <= |buffer| && buffer[|buffer| - |sequence|..] == sequence
  }

  /** The buffer matches exactly when it ends with the sequence; a shorter buffer never does. */
  lemma MatchesSequenceIff(buffer: seq<string>, sequence: seq<string>)
    ensures MatchesSequence(buffer, sequence) <==> exists p :: buffer == p + sequence
    ensures |buffer| < |sequence| ==> !MatchesSequence(buffer, sequence)
  {
    if MatchesSequence(buffer, sequence) {
      var p := buffer[..|buffer| - |sequence|];
      assert buffer == p + sequence;
    }
    if exists p :: buffer == p + sequence {
      var p :| buffer == p + sequence;
      assert buffer[|buffer| - |sequence|..] == sequence;
    }
  }

  /** The first (name, keys) definition the buffer matches, if any. */
  function FirstMatch(buffer: seq<string>, sequences: seq<(string, seq<string>)>): (r: Option<nat>)
    ensures r.Some? ==> r.value < |sequences| && MatchesSequence(buffer, sequences[r.value].1)
    ensures r.Some? ==> forall k :: 0 <= k < r.value ==> !MatchesSequence(buffer, sequences[k].1)
    ensures r.None? ==> forall k :: 0 <= k < |sequences| ==> !MatchesSequence(buffer, sequences[k].1)
    decreases |sequences|
  {
    if |sequences| == 0 then None
    else if MatchesSequence(buffer, sequences[0].1) then Some(0)
    else
      var r := FirstMatch(buffer, sequences[1..]);
      assert forall k :: 0 < k < |sequences| ==> sequences[k] == sequences[1..][k - 1];
      if r.Some? then Some(r.value + 1) else None
  }

  /** The revert confirmation after one key. */
  function RevertInputAfter(state: Option<RevertConfirmation>, key: KeyCode): Option<RevertConfirmation> {
    if state.None? || state.value.reverting then state
    else
      var s := state.value;
      match key
      case Char(c) => if IsAsciiDigit(c) || c == '.' then Some(s.(userInput := s.userInput + [c])) else state
      case Backspace => if |s.userInput| > 0 then Some(s.(userInput := s.userInput[..|s.userInput| - 1])) else state
      case Esc => None
      case _ => state
  }

  predicate HoursText(s: string) {
    forall k :: 0 <= k < |s| ==> IsAsciiDigit(s[k]) || s[k] == '.'
  }

  /** Typing keeps the input made of digits and dots, Esc closes an idle confirmation, and a running revert ignores every key. */
  lemma RevertInputStaysNumeric(state: Option<RevertConfirmation>, key: KeyCode)
    requires state.Some? ==> HoursText(state.value.userInput)
    ensures var r := RevertInputAfter(state, key);
            && (r.Some? ==> HoursText(r.value.userInput))
            && (state.Some? && state.value.reverting ==> r == state)
            && (state.Some? && !state.value.reverting && key.Char? ==>
                  r.value.userInput == if IsAsciiDigit(key.c) || key.c == '.' then state.value.userInput + [key.c]
                                       else state.value.userInput)
            && (state.Some? && !state.value.reverting && key.Esc? ==> r.None?)
  {
  }

  // ---------------------------------------------------------------------
  // Chronie messages
  // ---------------------------------------------------------------------

  /** The achievement that unlocks Chronie's messages of a category. */
  function RequiredAchievement(category: string): (a: Achievement)
    ensures a == ChroniesFriend || a == ChroniesApprentice
  {
    if category == "secret" || category == "friend" then ChroniesFriend else ChroniesApprentice
  }

  /** `get_chronie_message`: the branding text, only once the required achievement is unlocked. */
  function ChronieMessage(category: string, unlocked: set<Achievement>, text: Option<string>): (m: Option<string>)
    ensures m.Some? <==> RequiredAchievement(category) in unlocked && text.Some?
    ensures m.Some? ==> m == text
  {
    if RequiredAchievement(category) in unlocked then text else None
  }

  /** Only the two friend categories need the secret achievement; everything else needs the apprentice one. */
  lemma CategoryTiers(category: string)
    ensures RequiredAchievement(category) == ChroniesFriend <==> category == "secret" || category == "friend"
  {
  }
}
