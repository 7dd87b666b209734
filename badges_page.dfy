/** The badges page: the unlocked/locked split of the fetched batch with its
    counter, and the page's own new-badge detection, which follows the same
    steps as the global watcher but does not look at the user id. */
module BadgesPage {
  import opened Common
  import opened Badges

  /** The "x/y desbloqueados" counter. */
  function UnlockedCounter(badges: seq<UserBadgeStatus>): (c: (nat, nat))
    ensures c.0 <= c.1 == |badges|
  {
    EarnedLockedPartition(badges, []);
    (|Earned(badges)|, |badges|)
  }

  class BadgesPageState {
    var prevEarnedIds: set<int>
    var initialized: bool
    var modalOpen: bool
    var newBadge: Option<UserBadgeStatus>

    constructor ()
      ensures prevEarnedIds == {} && !initialized && !modalOpen && newBadge == None
    {
      prevEarnedIds := {};
      initialized := false;
      modalOpen := false;
      newBadge := None;
    }

    /** The effect run whenever the fetched batch changes. */
    method Observe(badges: seq<UserBadgeStatus>)
      modifies this
      ensures |badges| == 0 ==>
        && prevEarnedIds == old(prevEarnedIds) && initialized == old(initialized)
        && modalOpen == old(modalOpen) && newBadge == old(newBadge)
      ensures |badges| > 0 && !old(initialized) ==>
        && initialized && prevEarnedIds == UnlockedIds(badges)
        && modalOpen == old(modalOpen) && newBadge == old(newBadge)
      ensures |badges| > 0 && old(initialized) ==>
        && initialized && prevEarnedIds == UnlockedIds(badges)
        && var found := FirstNewlyEarned(badges, old(prevEarnedIds));
           if found.Some? then modalOpen && newBadge == found
           else modalOpen == old(modalOpen) && newBadge == old(newBadge)
    {
      if |badges| == 0 {
        return;
      }
      var currentEarnedIds := UnlockedIds(badges);
      if !initialized {
        initialized := true;
        prevEarnedIds := currentEarnedIds;
        return;
      }
      var prev := prevEarnedIds;
      var newlyEarned := FirstNewlyEarned(badges, prev);
      prevEarnedIds := currentEarnedIds;
      if newlyEarned.Some? {
        newBadge := newlyEarned;
        modalOpen := true;
      }
    }

    /** The modal's close callback: closing forgets the badge shown. */
    method Close(open: bool)
      modifies this
      ensures modalOpen == open
      ensures newBadge == if open then old(newBadge) else None
      ensures prevEarnedIds == old(prevEarnedIds) && initialized == old(initialized)
    {
      modalOpen := open;
      if !open {
        newBadge := None;
      }
    }
  }

  /** A page visit that sees the same batch twice (a refetch with no change)
      never opens the modal. */
  method RefetchUnchanged(badges: seq<UserBadgeStatus>) returns (shown: bool)
    ensures !shown
  {
    var page := new BadgesPageState();
    page.Observe(badges);
    page.Observe(badges);
    SameBatchReportsNothing(badges);
    shown := page.modalOpen;
  }
}
