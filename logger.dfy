/**
 * `CollectingLogger`: the in-memory log shown by the TUI. Each message is
 * appended and the buffer is cut back to its last 100 entries, so the
 * oldest message goes first.
 */
module Logger {
  const Capacity: nat := 100

  /** The last `n` elements of `xs` (all of them when there are fewer). */
  function KeepLast<T>(xs: seq<T>, n: nat): (r: seq<T>)
    ensures |r| == if |xs| <= n then |xs| else n
    ensures r == xs[|xs| - |r|..]
  {
    if |xs| <= n then xs else xs[|xs| - n..]
  }

  /** The logger state after logging every message of `ms` in turn. */
  function LogAll(buffer: seq<string>, ms: seq<string>): (r: seq<string>)
    decreases |ms|
  {
    if |ms| == 0 then buffer else LogAll(KeepLast(buffer + [ms[0]], Capacity), ms[1..])
  }

  /** Whatever was logged, the buffer holds its last 100 messages in order. */
  lemma {:induction false} LogAllKeepsLast(buffer: seq<string>, ms: seq<string>)
    requires |buffer| <= Capacity
    ensures LogAll(buffer, ms) == KeepLast(buffer + ms, Capacity)
    decreases |ms|
  {
    if |ms| == 0 {
      assert buffer + ms == buffer;
    } else {
      var b1 := KeepLast(buffer + [ms[0]], Capacity);
      LogAllKeepsLast(b1, ms[1..]);
      LogAllStep(buffer, ms);
    }
  }

  lemma {:induction false} LogAllStep(buffer: seq<string>, ms: seq<string>)
    requires |ms| > 0
    ensures KeepLast(KeepLast(buffer + [ms[0]], Capacity) + ms[1..], Capacity) == KeepLast(buffer + ms, Capacity)
    decreases |ms|
  {
    var b1 := KeepLast(buffer + [ms[0]], Capacity);
    var full := buffer + ms;
    assert full == (buffer + [ms[0]]) + ms[1..];
    KeepLastConcat(buffer + [ms[0]], ms[1..], Capacity);
  }

  /** Cutting a prefix back to its last `n` does not change the last `n` of a longer sequence. */
  lemma KeepLastConcat<T>(xs: seq<T>, ys: seq<T>, n: nat)
    ensures KeepLast(KeepLast(xs, n) + ys, n) == KeepLast(xs + ys, n)
  {
    var k := KeepLast(xs, n);
    var a := KeepLast(k + ys, n);
    var b := KeepLast(xs + ys, n);
    assert |a| == |b|;
    forall i | 0 <= i < |a| ensures a[i] == b[i] {
      var ia := |k + ys| - |a| + i;
      var ib := |xs + ys| - |b| + i;
      if ia >= |k| {
        assert a[i] == ys[ia - |k|];
        assert b[i] == ys[ib - |xs|];
      } else {
        assert a[i] == k[ia];
        assert b[i] == xs[|xs| - |k| + ia];
      }
    }
  }

  class CollectingLogger {
    var messages: seq<string>

    ghost predicate Valid()
      reads this
    {
      |messages| <= Capacity
    }

    constructor ()
      ensures Valid() && messages == []
    {
      messages := [];
    }

    /** `log`: append, then drop the oldest message once there are more than 100. */
    method Log(message: string)
      requires Valid()
      modifies this
      ensures Valid()
      ensures messages == KeepLast(old(messages) + [message], Capacity)
      ensures messages[|messages| - 1] == message
      ensures |old(messages)| < Capacity ==> messages == old(messages) + [message]
      ensures |old(messages)| == Capacity ==> messages == old(messages)[1..] + [message]
    {
      messages := messages + [message];
      if |messages| > Capacity {
        messages := messages[1..];
      }
    }

    /** `get_messages`: a copy of the buffer, oldest first. */
    function GetMessages(): (r: seq<string>)
      reads this
      ensures Valid() ==> |r| <= Capacity
    {
      messages
    }

    method Clear()
      modifies this
      ensures messages == [] && Valid()
    {
      messages := [];
    }
  }
}
