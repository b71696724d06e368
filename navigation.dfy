/**
 * `handle_list_navigation`: the cursor keys shared by the list tabs.
 * Up/`k` and Down/`j` move the selection by one within [0, max], Home and
 * End jump to the ends, and every other key is left to the caller.
 */
module Navigation {
  datatype Key = Up | Down | Home | End | Char(c: char) | Other

  predicate IsNavigationKey(key: Key) {
    key == Up || key == Down || key == Home || key == End || key == Char('k') || key == Char('j')
  }

  /** The `(handled, new index)` pair the handler produces. */
  function Navigate(key: Key, index: nat, maxIndex: nat): (r: (bool, nat))
    ensures r.0 <==> IsNavigationKey(key)
    ensures !r.0 ==> r.1 == index
    ensures index <= maxIndex ==> r.1 <= maxIndex
    ensures (key == Up || key == Char('k')) ==> r.1 == if index > 0 then index - 1 else index
    ensures (key == Down || key == Char('j')) ==> r.1 == if index < maxIndex then index + 1 else index
    ensures key == Home ==> r.1 == 0
    ensures key == End ==> r.1 == maxIndex
  {
    match key
    case Up => (true, if index > 0 then index - 1 else index)
    case Down => (true, if index < maxIndex then index + 1 else index)
    case Home => (true, 0)
    case End => (true, maxIndex)
    case Char(c) =>
      if c == 'k' then (true, if index > 0 then index - 1 else index)
      else if c == 'j' then (true, if index < maxIndex then index + 1 else index)
      else (false, index)
    case Other => (false, index)
  }

  /** The handler updates the caller's index in place; here the new index is returned. */
  method HandleListNavigation(key: Key, index: nat, maxIndex: nat) returns (handled: bool, newIndex: nat)
    ensures (handled, newIndex) == Navigate(key, index, maxIndex)
  {
    handled := true;
    newIndex := index;
    if key == Up || key == Char('k') {
      if newIndex > 0 {
        newIndex := newIndex - 1;
      }
    } else if key == Down || key == Char('j') {
      if newIndex < maxIndex {
        newIndex := newIndex + 1;
      }
    } else if key == Home {
      newIndex := 0;
    } else if key == End {
      newIndex := maxIndex;
    } else {
      handled := false;
    }
  }

  /** A selection stays in range however many keys are pressed. */
  function NavigateAll(keys: seq<Key>, index: nat, maxIndex: nat): (j: nat)
    ensures index <= maxIndex ==> j <= maxIndex
    decreases |keys|
  {
    if |keys| == 0 then index else NavigateAll(keys[1..], Navigate(keys[0], index, maxIndex).1, maxIndex)
  }

  /** Up then Down returns to the start unless the selection sat on a bound. */
  lemma UpDownCancel(index: nat, maxIndex: nat)
    requires 0 < index <= maxIndex
    ensures Navigate(Down, Navigate(Up, index, maxIndex).1, maxIndex).1 == index
  {
  }

  /** The cases fixed by the handler's own tests, for a list whose last index is 10. */
  lemma NavigationExamples()
    ensures Navigate(Up, 5, 10) == (true, 4)
    ensures Navigate(Down, 5, 10) == (true, 6)
    ensures Navigate(Home, 5, 10) == (true, 0)
    ensures Navigate(End, 5, 10) == (true, 10)
    ensures Navigate(Up, 0, 10) == (true, 0)
    ensures Navigate(Down, 10, 10) == (true, 10)
    ensures Navigate(Char('a'), 5, 10) == (false, 5)
  {
  }
}
