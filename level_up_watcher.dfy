/** The level-up notification: whenever the signed-in user's current tier is
    above the first one and above the last level the backend says was
    acknowledged, the watcher remembers that tier and opens a modal; closing
    the modal acknowledges exactly that level and forgets it. The React effect
    and the modal's close callback are the two methods of the class; the
    acknowledgement request is returned to the caller. A missing user id is
    the empty string. */
module LevelUp {
  import opened Common
  import opened Levels

  /** What the backend reports about level-up notifications. */
  datatype LevelStatus = LevelStatus(lastAcknowledgedLevel: int)

  /** The condition under which the effect opens the modal. */
  predicate LevelUpDue(currentLevel: int, lastAcknowledged: int) {
    currentLevel > 1 && currentLevel > lastAcknowledged
  }

  class LevelUpWatcher {
    var open: bool
    var levelConfig: Option<LevelConfig>

    constructor ()
      ensures !open && levelConfig == None
    {
      open := false;
      levelConfig := None;
    }

    /** The component renders the modal only for a user with a remembered tier. */
    predicate Renders(userId: string)
      reads this
    {
      userId != "" && levelConfig.Some?
    }

    /** The effect run when the user, the point total or the status changes. */
    method Observe(userId: string, totalPoints: int, levelStatus: Option<LevelStatus>)
      modifies this
      ensures userId == "" || levelStatus.None? ==>
        open == old(open) && levelConfig == old(levelConfig)
      ensures userId != "" && levelStatus.Some? ==>
        var level := GetLevelForPoints(totalPoints).level;
        if LevelUpDue(level.level, levelStatus.value.lastAcknowledgedLevel)
        then open && levelConfig == Some(level)
        else open == old(open) && levelConfig == old(levelConfig)
    {
      var level := GetLevelForPoints(totalPoints).level;
      if userId == "" || levelStatus.None? {
        return;
      }
      var currentLevel := level.level;
      var lastAcknowledged := levelStatus.value.lastAcknowledgedLevel;
      if currentLevel > 1 && currentLevel > lastAcknowledged {
        levelConfig := Some(level);
        open := true;
      }
    }

    /** The modal's close callback, reachable only while the modal is rendered.
        Closing with `false` acknowledges the remembered level, which is
        returned, and forgets it. */
    method Close(o: bool) returns (acknowledged: Option<int>)
      requires levelConfig.Some?
      modifies this
      ensures open == o
      ensures !o ==> acknowledged == Some(old(levelConfig).value.level) && levelConfig == None
      ensures o ==> acknowledged == None && levelConfig == old(levelConfig)
    {
      open := o;
      acknowledged := None;
      if !o {
        acknowledged := Some(levelConfig.value.level);
        levelConfig := None;
      }
    }
  }

  /** A level-up is never announced for a total below the second tier's
      threshold, whatever level was acknowledged before. */
  lemma LevelUpNeedsSecondTier(totalPoints: int, lastAcknowledged: int)
    requires LevelUpDue(GetLevelForPoints(totalPoints).level.level, lastAcknowledged)
    ensures totalPoints >= LEVELS[1].minPoints
  {
    LevelsAscending();
    TierIsHighestReached(totalPoints);
    var i := TierIndex(totalPoints);
    assert i >= 1;
    assert LEVELS[1].minPoints <= LEVELS[i].minPoints;
  }

  /** One full cycle on a fresh watcher: the effect runs, the modal (if it
      opened) is closed, the backend records the acknowledgement and the
      effect runs again with the same total. The modal opens exactly when the
      level is due, the acknowledged level is the tier the total reaches, and
      after the acknowledgement the same tier does not open the modal again. */
  method AcknowledgeCycle(userId: string, totalPoints: int, lastAcknowledged: int)
    returns (shown: bool, acknowledged: Option<int>, reopened: bool)
    requires userId != ""
    ensures var level := GetLevelForPoints(totalPoints).level.level;
      && shown == LevelUpDue(level, lastAcknowledged)
      && (shown ==> acknowledged == Some(level))
      && (!shown ==> acknowledged == None)
      && !reopened
  {
    var w := new LevelUpWatcher();
    w.Observe(userId, totalPoints, Some(LevelStatus(lastAcknowledged)));
    shown := w.open;
    acknowledged := None;
    var status := lastAcknowledged;
    if w.levelConfig.Some? {
      acknowledged := w.Close(false);
      status := acknowledged.value;
    }
    w.Observe(userId, totalPoints, Some(LevelStatus(status)));
    reopened := w.open;
  }
}
