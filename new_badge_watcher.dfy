/** The global new-badge notification. The watcher keeps the ids of the badges
    it last saw unlocked and whether it has seen a batch yet. The first
    non-empty batch only records its unlocked ids; each later batch reports
    the first badge, in list order, that is unlocked and was not unlocked
    before, opens the modal for it if there is one, and then replaces the
    recorded ids by the batch's. The React effect and the modal's close
    callback are the two methods. A missing user id is the empty string. */
module BadgeWatcher {
  import opened Common
  import opened Badges

  class NewBadgeWatcher {
    var prevEarnedIds: set<int>
    var initialized: bool
    var modalOpen: bool
    var newBadge: Option<UserBadgeStatus>

    constructor ()
      ensures prevEarnedIds == {} && !initialized && !modalOpen && newBadge == None
    {
      prevEarnedIds := {};
      initialized := false;
      modalOpen := false;
      newBadge := None;
    }

    /** The component renders the modal only for a user with a badge to show. */
    predicate Renders(userId: string)
      reads this
    {
      userId != "" && newBadge.Some?
    }

    /** The effect run whenever the user or the fetched batch changes. */
    method Observe(userId: string, badges: seq<UserBadgeStatus>)
      modifies this
      ensures userId == "" || |badges| == 0 ==>
        && prevEarnedIds == old(prevEarnedIds) && initialized == old(initialized)
        && modalOpen == old(modalOpen) && newBadge == old(newBadge)
      ensures userId != "" && |badges| > 0 && !old(initialized) ==>
        && initialized && prevEarnedIds == UnlockedIds(badges)
        && modalOpen == old(modalOpen) && newBadge == old(newBadge)
      ensures userId != "" && |badges| > 0 && old(initialized) ==>
        && initialized && prevEarnedIds == UnlockedIds(badges)
        && var found := FirstNewlyEarned(badges, old(prevEarnedIds));
           if found.Some? then modalOpen && newBadge == found
           else modalOpen == old(modalOpen) && newBadge == old(newBadge)
    {
      if userId == "" || |badges| == 0 {
        return;
      }
      var currentEarnedIds := UnlockedIds(badges);
      if !initialized {
        initialized := true;
        prevEarnedIds := currentEarnedIds;
        return;
      }
      var prev := prevEarnedIds;
      var newlyEarned := FirstNewlyEarned(badges, prev);
      prevEarnedIds := currentEarnedIds;
      if newlyEarned.Some? {
        newBadge := newlyEarned;
        modalOpen := true;
      }
    }

    /** The modal's close callback: closing forgets the badge shown. */
    method Close(open: bool)
      modifies this
      ensures modalOpen == open
      ensures newBadge == if open then old(newBadge) else None
      ensures prevEarnedIds == old(prevEarnedIds) && initialized == old(initialized)
    {
      modalOpen := open;
      if !open {
        newBadge := None;
      }
    }
  }

  /** Two batches seen by a fresh watcher: the first never opens the modal,
      and the second reports the first badge that became unlocked between
      them, when the user is signed in and both batches are non-empty. */
  method TwoBatches(userId: string, first: seq<UserBadgeStatus>, second: seq<UserBadgeStatus>)
    returns (afterFirst: bool, reported: Option<UserBadgeStatus>)
    ensures !afterFirst
    ensures reported == if userId != "" && |first| > 0 && |second| > 0
                        then FirstNewlyEarned(second, UnlockedIds(first)) else None
  {
    var w := new NewBadgeWatcher();
    w.Observe(userId, first);
    afterFirst := w.modalOpen;
    w.Observe(userId, second);
    reported := w.newBadge;
  }
}
