/**
 * The TUI's tab bar: which tabs exist and how Tab/Shift-Tab cycle
 * through them.
 */
module Tabs {
  datatype Tab = Sprints | Meetings | Worklogs | GitHub | History | Achievements | Settings

  /** `available_tabs`: six tabs always, and Achievements last once one is unlocked. */
  function AvailableTabs(hasAchievements: bool): (tabs: seq<Tab>)
    ensures |tabs| == if hasAchievements then 7 else 6
    ensures tabs[..6] == [Sprints, Meetings, Worklogs, GitHub, History, Settings]
    ensures hasAchievements ==> tabs[6] == Achievements
    ensures Achievements in tabs <==> hasAchievements
    ensures Distinct(tabs)
  {
    var base := [Sprints, Meetings, Worklogs, GitHub, History, Settings];
    if hasAchievements then base + [Achievements] else base
  }

  /** `iter().position(..).unwrap_or(0)`: the first index holding `t`, or 0. */
  function PositionOr0(tabs: seq<Tab>, t: Tab): (i: nat)
    ensures |tabs| > 0 ==> i < |tabs|
    ensures t in tabs ==> tabs[i] == t && forall j :: 0 <= j < i ==> tabs[j] != t
    ensures t !in tabs ==> i == 0
  {
    if |tabs| == 0 then 0
    else if tabs[0] == t then 0
    else if t in tabs[1..] then 1 + PositionOr0(tabs[1..], t)
    else 0
  }

  predicate Distinct(tabs: seq<Tab>) {
    forall a, b :: 0 <= a < b < |tabs| ==> tabs[a] != tabs[b]
  }

  /** The tab after `t` in the bar, wrapping to the first. */
  function NextIn(tabs: seq<Tab>, t: Tab): (r: Tab)
    requires |tabs| > 0
    ensures r in tabs
  {
    tabs[(PositionOr0(tabs, t) + 1) % |tabs|]
  }

  /** The tab before `t` in the bar, wrapping to the last. */
  function PreviousIn(tabs: seq<Tab>, t: Tab): (r: Tab)
    requires |tabs| > 0
    ensures r in tabs
  {
    var i := PositionOr0(tabs, t);
    tabs[if i == 0 then |tabs| - 1 else i - 1]
  }

  /** `Tab::next`. */
  function Next(t: Tab, hasAchievements: bool): (r: Tab)
    ensures r in AvailableTabs(hasAchievements)
  {
    NextIn(AvailableTabs(hasAchievements), t)
  }

  /** `Tab::previous`. */
  function Previous(t: Tab, hasAchievements: bool): (r: Tab)
    ensures r in AvailableTabs(hasAchievements)
  {
    PreviousIn(AvailableTabs(hasAchievements), t)
  }

  /** In a list of distinct tabs the position of the tab at `i` is `i`. */
  lemma PositionOfIndex(tabs: seq<Tab>, i: nat)
    requires i < |tabs| && Distinct(tabs)
    ensures PositionOr0(tabs, tabs[i]) == i
  {
    var p := PositionOr0(tabs, tabs[i]);
    assert tabs[p] == tabs[i];
  }

  /** Next moves one place forward, wrapping from the last tab to the first. */
  lemma NextIsCyclic(tabs: seq<Tab>, i: nat)
    requires i < |tabs| && Distinct(tabs)
    ensures NextIn(tabs, tabs[i]) == tabs[(i + 1) % |tabs|]
  {
    PositionOfIndex(tabs, i);
  }

  /** Previous moves one place back, wrapping from the first tab to the last. */
  lemma PreviousIsCyclic(tabs: seq<Tab>, i: nat)
    requires i < |tabs| && Distinct(tabs)
    ensures PreviousIn(tabs, tabs[i]) == tabs[if i == 0 then |tabs| - 1 else i - 1]
  {
    PositionOfIndex(tabs, i);
  }

  /** Previous undoes Next on a bar of distinct tabs. */
  lemma PreviousAfterNextIn(tabs: seq<Tab>, t: Tab)
    requires t in tabs && Distinct(tabs)
    ensures PreviousIn(tabs, NextIn(tabs, t)) == t
  {
    var n := |tabs|;
    var i := PositionOr0(tabs, t);
    assert tabs[i] == t;
    var k := if i + 1 == n then 0 else i + 1;
    assert (i + 1) % n == k;
    NextIsCyclic(tabs, i);
    assert NextIn(tabs, t) == tabs[k];
    PreviousIsCyclic(tabs, k);
  }

  /** Next undoes Previous on a bar of distinct tabs. */
  lemma NextAfterPreviousIn(tabs: seq<Tab>, t: Tab)
    requires t in tabs && Distinct(tabs)
    ensures NextIn(tabs, PreviousIn(tabs, t)) == t
  {
    var n := |tabs|;
    var i := PositionOr0(tabs, t);
    assert tabs[i] == t;
    var k := if i == 0 then n - 1 else i - 1;
    assert (k + 1) % n == i;
    PreviousIsCyclic(tabs, i);
    assert PreviousIn(tabs, t) == tabs[k];
    NextIsCyclic(tabs, k);
  }

  /** previous(next(t)) = t and next(previous(t)) = t for every available tab. */
  lemma PreviousNextInverse(t: Tab, hasAchievements: bool)
    requires t in AvailableTabs(hasAchievements)
    ensures Previous(Next(t, hasAchievements), hasAchievements) == t
    ensures Next(Previous(t, hasAchievements), hasAchievements) == t
  {
    var tabs := AvailableTabs(hasAchievements);
    assert Distinct(tabs);
    PreviousAfterNextIn(tabs, t);
    NextAfterPreviousIn(tabs, t);
  }

  /** A tab that is not shown (Achievements while none is unlocked) counts as the first one. */
  lemma HiddenTabCountsAsFirst()
    ensures Next(Achievements, false) == Meetings
    ensures Previous(Achievements, false) == Settings
  {
    assert Achievements !in AvailableTabs(false);
  }
}
