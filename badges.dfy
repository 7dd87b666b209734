/** Badge state as the client sees it, the rule that decides whether a badge
    counts as unlocked, and the pure parts of newly-earned detection. These
    are shared by the global badge watcher and by the badges page, which
    define the same rule separately. Badge progress is an exact real. */
module Badges {
  import opened Common

  datatype BadgeMetric = TotalPoints | ClassEnrollCount | RoutineCompleteCount

  datatype UserBadgeStatus = UserBadgeStatus(
    badgeId: int,
    code: string,
    name: string,
    description: Option<string>,
    icon: Option<string>,
    metric: BadgeMetric,
    threshold: int,
    currentValue: int,
    progress: real,
    earned: bool,
    earnedAt: Option<string>)

  /** A badge is unlocked when the backend marks it earned, when its progress
      reaches 1, or when its current value reaches its threshold. */
  predicate IsUnlocked(b: UserBadgeStatus) {
    b.earned || b.progress >= 1.0 || b.currentValue >= b.threshold
  }

  /** The ids of the unlocked badges of a batch
      (`new Set(badges.filter(isUnlocked).map(b => b.badgeId))`). */
  function UnlockedIds(badges: seq<UserBadgeStatus>): set<int> {
    set i | 0 <= i < |badges| && IsUnlocked(badges[i]) :: badges[i].badgeId
  }

  /** Whether a badge is unlocked now and was not unlocked before. */
  predicate IsNewlyEarned(b: UserBadgeStatus, prev: set<int>) {
    IsUnlocked(b) && b.badgeId !in prev
  }

  /** The index of the first newly earned badge at or after `from`, or -1. */
  function FirstNewIndex(badges: seq<UserBadgeStatus>, prev: set<int>, from: nat): (k: int)
    requires from <= |badges|
    ensures k == -1 || from <= k < |badges|
    ensures k >= 0 ==> IsNewlyEarned(badges[k], prev)
    ensures k >= 0 ==> forall j :: from <= j < k ==> !IsNewlyEarned(badges[j], prev)
    ensures k == -1 ==> forall j :: from <= j < |badges| ==> !IsNewlyEarned(badges[j], prev)
    decreases |badges| - from
  {
    if from == |badges| then -1
    else if IsNewlyEarned(badges[from], prev) then from
    else FirstNewIndex(badges, prev, from + 1)
  }

  /** `badges.find(b => isUnlocked(b) && !prev.has(b.badgeId))`. */
  function FirstNewlyEarned(badges: seq<UserBadgeStatus>, prev: set<int>): Option<UserBadgeStatus> {
    var k := FirstNewIndex(badges, prev, 0);
    if k >= 0 then Some(badges[k]) else None
  }

  /** The detection reports a badge exactly when some badge of the batch is
      unlocked and was not unlocked before; the one it reports is the first of
      them in list order. */
  lemma NewlyEarnedIsFirstNew(badges: seq<UserBadgeStatus>, prev: set<int>)
    ensures FirstNewlyEarned(badges, prev).Some? <==> UnlockedIds(badges) - prev != {}
    ensures FirstNewlyEarned(badges, prev).Some? ==> exists k ::
      && 0 <= k < |badges| && FirstNewlyEarned(badges, prev) == Some(badges[k])
      && IsNewlyEarned(badges[k], prev)
      && forall j :: 0 <= j < k ==> !IsNewlyEarned(badges[j], prev)
  {
    var k := FirstNewIndex(badges, prev, 0);
    if k >= 0 {
      assert badges[k].badgeId in UnlockedIds(badges) - prev;
    }
  }

  /** Observing the same batch again reports nothing. */
  lemma SameBatchReportsNothing(badges: seq<UserBadgeStatus>)
    ensures FirstNewlyEarned(badges, UnlockedIds(badges)) == None
  {
    NewlyEarnedIsFirstNew(badges, UnlockedIds(badges));
  }

  /** The badges shown as unlocked, in list order. */
  function Earned(badges: seq<UserBadgeStatus>): seq<UserBadgeStatus> {
    Filter(badges, IsUnlocked)
  }

  /** The badges shown as locked, in list order. */
  function Locked(badges: seq<UserBadgeStatus>): seq<UserBadgeStatus> {
    Filter(badges, (b: UserBadgeStatus) => !IsUnlocked(b))
  }

  /** The earned and locked lists partition the batch: each holds exactly the
      badges on its side of the rule, keeping list order, and together they
      hold every badge once, so the "x/y desbloqueados" counter never shows
      more unlocked badges than there are. */
  lemma {:induction false} EarnedLockedPartition(badges: seq<UserBadgeStatus>, more: seq<UserBadgeStatus>)
    ensures |Earned(badges)| + |Locked(badges)| == |badges|
    ensures multiset(Earned(badges)) + multiset(Locked(badges)) == multiset(badges)
    ensures forall i :: 0 <= i < |Earned(badges)| ==> IsUnlocked(Earned(badges)[i])
    ensures forall i :: 0 <= i < |Locked(badges)| ==> !IsUnlocked(Locked(badges)[i])
    ensures Earned(badges + more) == Earned(badges) + Earned(more)
    ensures Locked(badges + more) == Locked(badges) + Locked(more)
  {
    FilterSplit(badges, IsUnlocked, (b: UserBadgeStatus) => !IsUnlocked(b));
    FilterAppend(badges, more, IsUnlocked);
    FilterAppend(badges, more, (b: UserBadgeStatus) => !IsUnlocked(b));
  }

  /** The unlocked ids are exactly the ids of the earned list. */
  lemma UnlockedIdsAreEarnedIds(badges: seq<UserBadgeStatus>)
    ensures UnlockedIds(badges) == set b | b in Earned(badges) :: b.badgeId
  {
    var e := Earned(badges);
    forall id | id in UnlockedIds(badges) ensures exists b :: b in e && b.badgeId == id {
      var i :| 0 <= i < |badges| && IsUnlocked(badges[i]) && badges[i].badgeId == id;
      assert badges[i] in e;
    }
  }

  /** The percentage shown on a badge card, `Math.round(progress * 100)`. */
  function BadgePercent(progress: real): (pct: int)
    ensures 0.0 <= progress <= 1.0 ==> 0 <= pct <= 100
    ensures progress >= 1.0 ==> pct >= 100
  {
    RoundReal(progress * 100.0)
  }
}
