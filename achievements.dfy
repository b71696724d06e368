/**
 * Achievements: the eight badges, their storage identifiers, and the
 * record of which ones were unlocked and when (`AchievementData`).
 */
module Achievements {
  import opened Wrappers

  datatype Achievement =
    | ChroniesApprentice
    | AboutClicker
    | ChroniesFriend
    | TheUndoer
    | TimelineFixer
    | GitSquashMaster
    | AutoLinkMaster
    | DeclinedButLogged

  /** `Achievement::all`: every achievement once, in declaration order. */
  function All(): (r: seq<Achievement>)
    ensures |r| == 8
    ensures forall i, j :: 0 <= i < j < |r| ==> r[i] != r[j]
  {
    [ChroniesApprentice, AboutClicker, ChroniesFriend, TheUndoer,
     TimelineFixer, GitSquashMaster, AutoLinkMaster, DeclinedButLogged]
  }

  /** Every achievement is listed. */
  lemma AllComplete(a: Achievement)
    ensures a in All()
  {
    match a
    case ChroniesApprentice =>
    case AboutClicker =>
    case ChroniesFriend =>
    case TheUndoer =>
    case TimelineFixer =>
    case GitSquashMaster =>
    case AutoLinkMaster =>
    case DeclinedButLogged =>
  }

  /** `id_string`: the key an unlock record is stored under. */
  function IdString(a: Achievement): (s: string)
    ensures |s| > 0
  {
    match a
    case ChroniesApprentice => "chronies_apprentice"
    case AboutClicker => "about_clicker"
    case ChroniesFriend => "chronies_friend"
    case TheUndoer => "the_undoer"
    case TimelineFixer => "timeline_fixer"
    case GitSquashMaster => "git_squash_master"
    case AutoLinkMaster => "auto_link_master"
    case DeclinedButLogged => "declined_but_logged"
  }

  /** No two achievements share a storage key. */
  lemma IdStringInjective(a: Achievement, b: Achievement)
    ensures IdString(a) == IdString(b) <==> a == b
  {
    if a != b {
      assert IdString(a) != IdString(b) by {
        match a
        case ChroniesApprentice =>
        case AboutClicker =>
        case ChroniesFriend =>
        case TheUndoer =>
        case TimelineFixer =>
        case GitSquashMaster =>
        case AutoLinkMaster =>
        case DeclinedButLogged =>
      }
    }
  }

  datatype AchievementUnlock = AchievementUnlock(achievement: Achievement, unlockedAt: int)

  /** The records name each achievement at most once. */
  predicate DistinctUnlocks(us: seq<AchievementUnlock>) {
    forall i, j :: 0 <= i < j < |us| ==> us[i].achievement != us[j].achievement
  }

  /** The achievements the records name. */
  function Named(us: seq<AchievementUnlock>): (s: set<Achievement>)
    ensures forall a :: a in s <==> exists i :: 0 <= i < |us| && us[i].achievement == a
  {
    if |us| == 0 then {}
    else
      var n := |us| - 1;
      assert forall i :: 0 <= i < n ==> us[..n][i] == us[i];
      Named(us[..n]) + {us[n].achievement}
  }

  lemma {:induction false} NamedCard(us: seq<AchievementUnlock>)
    requires DistinctUnlocks(us)
    ensures |Named(us)| == |us|
    decreases |us|
  {
    if |us| > 0 {
      var n := |us| - 1;
      assert DistinctUnlocks(us[..n]);
      NamedCard(us[..n]);
      assert us[n].achievement !in Named(us[..n]);
    }
  }

  /** Records with distinct achievements never outnumber the achievements. */
  lemma UnlockCountBound(us: seq<AchievementUnlock>)
    requires DistinctUnlocks(us)
    ensures |us| <= |All()|
  {
    NamedCard(us);
    var every: set<Achievement> := {ChroniesApprentice, AboutClicker, ChroniesFriend, TheUndoer,
                                    TimelineFixer, GitSquashMaster, AutoLinkMaster, DeclinedButLogged};
    forall a | a in Named(us) ensures a in every {
      match a
      case ChroniesApprentice =>
      case AboutClicker =>
      case ChroniesFriend =>
      case TheUndoer =>
      case TimelineFixer =>
      case GitSquashMaster =>
      case AutoLinkMaster =>
      case DeclinedButLogged =>
    }
    SubsetCard(Named(us), every);
  }

  lemma SubsetCard<T>(a: set<T>, b: set<T>)
    requires a <= b
    ensures |a| <= |b|
  {
    assert b == a + (b - a);
  }

  /** `AchievementData`: the unlock records, oldest first. */
  class AchievementData {
    var unlocks: seq<AchievementUnlock>

    ghost predicate Valid()
      reads this
    {
      DistinctUnlocks(unlocks)
    }

    constructor ()
      ensures Valid() && unlocks == []
    {
      unlocks := [];
    }

    predicate IsUnlocked(a: Achievement)
      reads this
    {
      exists i :: 0 <= i < |unlocks| && unlocks[i].achievement == a
    }

    /** When the first record for `a` was made, if there is one. */
    function UnlockTime(a: Achievement): (t: Option<int>)
      reads this
      ensures t.Some? <==> IsUnlocked(a)
      ensures t.Some? ==> exists i :: 0 <= i < |unlocks| && unlocks[i] == AchievementUnlock(a, t.value) && (forall j :: 0 <= j < i ==> unlocks[j].achievement != a)
    {
      FirstTime(unlocks, a)
    }

    /** A newly unlocked achievement gets one record at the end; an unlocked one changes nothing. */
    method Unlock(a: Achievement, now: int) returns (added: bool)
      requires Valid()
      modifies this
      ensures Valid()
      ensures added <==> !old(IsUnlocked(a))
      ensures added ==> unlocks == old(unlocks) + [AchievementUnlock(a, now)]
      ensures !added ==> unlocks == old(unlocks)
      ensures IsUnlocked(a)
    {
      if IsUnlocked(a) {
        return false;
      }
      unlocks := unlocks + [AchievementUnlock(a, now)];
      assert unlocks[|unlocks| - 1].achievement == a;
      added := true;
    }

    function UnlockCount(): nat
      reads this
    {
      |unlocks|
    }

    function TotalCount(): nat {
      |All()|
    }

    /** While only `Unlock` adds records, the count stays within the total. */
    lemma CountWithinTotal()
      requires Valid()
      ensures UnlockCount() <= TotalCount()
    {
      UnlockCountBound(unlocks);
    }
  }

  function FirstTime(us: seq<AchievementUnlock>, a: Achievement): (t: Option<int>)
    ensures t.Some? <==> exists i :: 0 <= i < |us| && us[i].achievement == a
    ensures t.Some? ==> exists i :: 0 <= i < |us| && us[i] == AchievementUnlock(a, t.value) && (forall j :: 0 <= j < i ==> us[j].achievement != a)
  {
    if |us| == 0 then None
    else if us[0].achievement == a then Some(us[0].unlockedAt)
    else
      var t := FirstTime(us[1..], a);
      assert forall i :: 0 < i < |us| ==> us[1..][i - 1] == us[i];
      if t.Some? then
        var k :| 0 <= k < |us[1..]| && us[1..][k] == AchievementUnlock(a, t.value) && (forall j :: 0 <= j < k ==> us[1..][j].achievement != a);
        assert us[k + 1] == AchievementUnlock(a, t.value);
        assert forall j :: 0 <= j < k + 1 ==> us[j].achievement != a by {
          forall j | 0 <= j < k + 1 ensures us[j].achievement != a {
            if j > 0 { assert us[j] == us[1..][j - 1]; }
          }
        }
        t
      else t
  }
}
