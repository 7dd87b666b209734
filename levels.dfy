/** The leveling engine: a static table of tiers, the mapping from a point
    total to the tier it has reached with the progress towards the next one,
    and the point multiplier a tier grants for an activity. Multipliers are
    kept in hundredths (130 stands for 1.3) and Math.round is exact
    round-half-up, so no floating-point detail enters the model. */
module Levels {
  import opened Common

  /** A tier of the table. Its display decoration (colour classes and the
      list of perks) is not part of the model. */
  datatype LevelConfig = LevelConfig(level: int, minPoints: int, name: string, icon: string)

  /** The tier table, in the order the application declares it. */
  const LEVELS: seq<LevelConfig> := [
    LevelConfig(1, 0, "Calentando motores", "🔥"),
    LevelConfig(2, 20, "Entrenando en serio", "💪"),
    LevelConfig(3, 60, "Modo atleta", "🏆"),
    LevelConfig(4, 120, "Leyenda del Gym", "⚡"),
    LevelConfig(5, 100000, "Élite GymCloud", "👑")
  ]

  /** A tier table that is non-empty, starts at 0 points and is strictly
      ascending in both level and threshold. */
  predicate Ascending(table: seq<LevelConfig>) {
    && |table| > 0
    && table[0].minPoints == 0
    && forall i, j :: 0 <= i < j < |table| ==>
         table[i].level < table[j].level && table[i].minPoints < table[j].minPoints
  }

  lemma LevelsAscending()
    ensures Ascending(LEVELS)
    ensures LEVELS[0].level == 1 && |LEVELS| == 5
  {
  }

  // ---------------------------------------------------------------------------
  // getLevelForPoints

  /** `[...table.slice(0, n)].reverse().find(l => points >= l.minPoints)`,
      as an index: the last of the first n tiers that the total reaches. */
  function LastReached(table: seq<LevelConfig>, points: int, n: nat): (r: Option<nat>)
    requires n <= |table|
    ensures r.Some? ==> r.value < n && table[r.value].minPoints <= points
    ensures r.Some? ==> forall j :: r.value < j < n ==> points < table[j].minPoints
    ensures r.None? ==> forall j :: 0 <= j < n ==> points < table[j].minPoints
  {
    if n == 0 then None
    else if points >= table[n - 1].minPoints then Some(n - 1)
    else LastReached(table, points, n - 1)
  }

  /** `table.findIndex(l => l.level === level)` from position `from` on:
      the first index holding that level, or -1. */
  function IndexOfLevel(table: seq<LevelConfig>, level: int, from: nat): (r: int)
    requires from <= |table|
    ensures r == -1 || from <= r < |table|
    ensures r >= 0 ==> table[r].level == level
    ensures r >= 0 ==> forall j :: from <= j < r ==> table[j].level != level
    ensures r == -1 ==> forall j :: from <= j < |table| ==> table[j].level != level
    decreases |table| - from
  {
    if from == |table| then -1
    else if table[from].level == level then from
    else IndexOfLevel(table, level, from + 1)
  }

  /** The index of the tier a point total has reached; totals below every
      threshold fall back to the first tier (`?? LEVELS[0]`). */
  function TierIndex(points: int): (i: nat)
    ensures i < |LEVELS|
  {
    match LastReached(LEVELS, points, |LEVELS|)
    case Some(k) => k
    case None => 0
  }

  datatype LevelProgress = LevelProgress(
    level: LevelConfig,
    progressToNext: int,
    nextLevelPoints: Option<int>)

  function GetLevelForPoints(points: int): (r: LevelProgress)
    ensures r.level == LEVELS[TierIndex(points)]
  {
    var current := LEVELS[TierIndex(points)];
    var idx := IndexOfLevel(LEVELS, current.level, 0);
    var nextLevelPoints :=
      if 0 <= idx + 1 < |LEVELS| then Some(LEVELS[idx + 1].minPoints) else None;
    var progressToNext :=
      match nextLevelPoints
      case None => 100
      case Some(nextMin) =>
        // the table is ascending, so the next threshold lies above this one
        (LevelsAscending();
         IndexOfOwnLevel(LEVELS, TierIndex(points));
         Min(100, RoundRatio(100 * (points - current.minPoints), nextMin - current.minPoints)));
    LevelProgress(current, progressToNext, nextLevelPoints)
  }

  function Min(a: int, b: int): int {
    if a <= b then a else b
  }

  /** In an ascending table every level is found at its own index. */
  lemma {:induction false} IndexOfOwnLevel(table: seq<LevelConfig>, i: nat)
    requires Ascending(table) && i < |table|
    ensures IndexOfLevel(table, table[i].level, 0) == i
  {
    var r := IndexOfLevel(table, table[i].level, 0);
    assert 0 <= r <= i;   // i itself holds the level, so it is found no later
  }

  /** The chosen tier is reached by the total, and no tier with a higher level
      is; when the total is negative it falls back to the first tier. */
  lemma TierIsHighestReached(points: int)
    ensures var r := GetLevelForPoints(points);
      && r.level in LEVELS
      && (points >= 0 ==> r.level.minPoints <= points)
      && (points < 0 ==> r.level == LEVELS[0])
      && forall j :: 0 <= j < |LEVELS| && LEVELS[j].minPoints <= points ==>
           LEVELS[j].level <= r.level.level
  {
    LevelsAscending();
    var i := TierIndex(points);
    var found := LastReached(LEVELS, points, |LEVELS|);
    if points < 0 {
      assert found.None?;
    } else {
      assert found.Some? by { assert LEVELS[0].minPoints <= points; }
    }
    forall j | 0 <= j < |LEVELS| && LEVELS[j].minPoints <= points
      ensures LEVELS[j].level <= LEVELS[i].level
    {
      assert found.Some? && j <= found.value;
    }
  }

  /** The next threshold is that of the tier right after the chosen one, or
      null for the top tier; the top tier always shows 100% progress. */
  lemma NextLevelPointsFollowsTier(points: int)
    ensures var r := GetLevelForPoints(points);
      var i := TierIndex(points);
      && (i + 1 < |LEVELS| ==> r.nextLevelPoints == Some(LEVELS[i + 1].minPoints))
      && (i + 1 == |LEVELS| ==> r.nextLevelPoints.None? && r.progressToNext == 100)
  {
    LevelsAscending();
    IndexOfOwnLevel(LEVELS, TierIndex(points));
  }

  /** Below the top tier the progress is the rounded percentage of the way from
      the tier's threshold to the next one, capped at 100. It is never above
      100, and never below 0 for a non-negative total. */
  lemma ProgressIsRoundedPercentage(points: int)
    ensures var r := GetLevelForPoints(points);
      var i := TierIndex(points);
      && r.progressToNext <= 100
      && (points >= 0 ==> r.progressToNext >= 0)
      && (i + 1 < |LEVELS| ==>
            r.progressToNext == Min(100, RoundRatio(100 * (points - LEVELS[i].minPoints),
                                                    LEVELS[i + 1].minPoints - LEVELS[i].minPoints)))
  {
    LevelsAscending();
    var i := TierIndex(points);
    IndexOfOwnLevel(LEVELS, i);
    if points >= 0 {
      assert LastReached(LEVELS, points, |LEVELS|).Some? by {
        assert LEVELS[0].minPoints <= points;
      }
    }
    if i + 1 < |LEVELS| {
      PercentageBounds(points - LEVELS[i].minPoints, LEVELS[i + 1].minPoints - LEVELS[i].minPoints);
    }
  }

  /** For a non-negative total below the top tier, the total lies below the
      next threshold, so the rounded percentage is at most 100 already and
      the cap at 100 never changes it. */
  lemma UncappedProgressAtMost100(points: int)
    requires points >= 0
    ensures var i := TierIndex(points);
      i + 1 < |LEVELS| ==>
        RoundRatio(100 * (points - LEVELS[i].minPoints),
                   LEVELS[i + 1].minPoints - LEVELS[i].minPoints) <= 100
  {
    LevelsAscending();
    var i := TierIndex(points);
    if i + 1 < |LEVELS| {
      assert LastReached(LEVELS, points, |LEVELS|).Some? by {
        assert LEVELS[0].minPoints <= points;
      }
      assert points < LEVELS[i + 1].minPoints;
      PercentageBounds(points - LEVELS[i].minPoints, LEVELS[i + 1].minPoints - LEVELS[i].minPoints);
    }
  }

  /** A larger total never reaches a lower level. */
  lemma LevelIsMonotone(p1: int, p2: int)
    requires p1 <= p2
    ensures GetLevelForPoints(p1).level.level <= GetLevelForPoints(p2).level.level
  {
    LevelsAscending();
    var i1, i2 := TierIndex(p1), TierIndex(p2);
    var f1 := LastReached(LEVELS, p1, |LEVELS|);
    if f1.Some? {
      assert LEVELS[i1].minPoints <= p2;
      assert LastReached(LEVELS, p2, |LEVELS|).Some?;
      assert i1 <= i2;
    }
    assert i1 <= i2;
  }

  /** The total is shown in tier i with the rounded percentage towards tier
      i + 1 whenever it lies between their thresholds. */
  lemma {:induction false} ProgressWithinTier(points: int, i: nat)
    requires i + 1 < |LEVELS|
    requires LEVELS[i].minPoints <= points < LEVELS[i + 1].minPoints
    ensures GetLevelForPoints(points) == LevelProgress(LEVELS[i],
      Min(100, RoundRatio(100 * (points - LEVELS[i].minPoints), LEVELS[i + 1].minPoints - LEVELS[i].minPoints)),
      Some(LEVELS[i + 1].minPoints))
  {
    LevelsAscending();
    var found := LastReached(LEVELS, points, |LEVELS|);
    assert found.Some? && found.value >= i;
    assert found.value == i;
    IndexOfOwnLevel(LEVELS, i);
  }

  /** The worked scenarios of the first two tiers. */
  lemma ConcreteLevelsLow()
    ensures GetLevelForPoints(0) == LevelProgress(LEVELS[0], 0, Some(20))
    ensures GetLevelForPoints(19) == LevelProgress(LEVELS[0], 95, Some(20))
    ensures GetLevelForPoints(20) == LevelProgress(LEVELS[1], 0, Some(60))
  {
    ProgressWithinTier(0, 0);
    ProgressWithinTier(19, 0);
    ProgressWithinTier(20, 1);
  }

  /** The worked scenarios of the upper tiers, the top one included. */
  lemma ConcreteLevelsHigh()
    ensures GetLevelForPoints(90) == LevelProgress(LEVELS[2], 50, Some(120))
    ensures GetLevelForPoints(150) == LevelProgress(LEVELS[3], 0, Some(100000))
    ensures GetLevelForPoints(100000) == LevelProgress(LEVELS[4], 100, None)
  {
    ProgressWithinTier(90, 2);
    ProgressWithinTier(150, 3);
    LevelsAscending();
    assert TierIndex(100000) == 4;
    IndexOfOwnLevel(LEVELS, 4);
  }

  /** A negative total is shown in the first tier with a negative progress:
      the percentage is capped above at 100 but is not clamped below at 0. */
  lemma NegativeTotalHasNegativeProgress()
    ensures GetLevelForPoints(-10) == LevelProgress(LEVELS[0], -50, Some(20))
  {
    LevelsAscending();
    IndexOfOwnLevel(LEVELS, 0);
  }

  // ---------------------------------------------------------------------------
  // getPointsMultiplier

  /** The kind of activity points are awarded for; an absent
      `isBoostedClass` flag is false. */
  datatype PointsContext =
    | ClassActivity(isBoostedClass: bool)
    | RoutineActivity
    | GenericActivity

  /** The multiplier a tier grants for an activity, in hundredths: the base
      1.0 plus at most one bonus chosen by the tier's level. */
  function PointsMultiplier(level: LevelConfig, ctx: PointsContext): (m: int)
    ensures m == 100 || m == 105 || m == 110 || m == 120 || m == 130
  {
    var multiplier := 100;
    if level.level == 5 then multiplier + 30
    else if level.level == 4 then multiplier + 20
    else if level.level == 3 then
      (if ctx.RoutineActivity? then multiplier + 10 else multiplier)
    else if level.level == 2 then
      (if ctx.ClassActivity? && ctx.isBoostedClass then multiplier + 5 else multiplier)
    else multiplier
  }

  /** The rule table of the multiplier, each bonus with the exact condition
      under which it applies. */
  lemma MultiplierRules(level: LevelConfig, ctx: PointsContext)
    ensures level.level == 5 ==> PointsMultiplier(level, ctx) == 130
    ensures level.level == 4 ==> PointsMultiplier(level, ctx) == 120
    ensures PointsMultiplier(level, ctx) == 110 <==> level.level == 3 && ctx == RoutineActivity
    ensures PointsMultiplier(level, ctx) == 105 <==> level.level == 2 && ctx == ClassActivity(true)
    ensures PointsMultiplier(level, ctx) == 100 <==>
      !(level.level in {4, 5}) && !(level.level == 3 && ctx == RoutineActivity)
      && !(level.level == 2 && ctx == ClassActivity(true))
  {
  }

  /** The multiplier of the tiers for the table's tiers. */
  lemma ConcreteMultipliers()
    ensures PointsMultiplier(LEVELS[3], GenericActivity) == 120
    ensures PointsMultiplier(LEVELS[1], ClassActivity(true)) == 105
    ensures PointsMultiplier(LEVELS[1], ClassActivity(false)) == 100
    ensures PointsMultiplier(LEVELS[2], RoutineActivity) == 110
    ensures PointsMultiplier(LEVELS[4], ClassActivity(false)) == 130
  {
  }

  /** The multiplier is not monotone in the point total: a boosted class
      earns more at 20 points (tier 2) than at 60 points (tier 3), which has no
      class bonus. */
  lemma MultiplierNotMonotoneInPoints()
    ensures PointsMultiplier(GetLevelForPoints(20).level, ClassActivity(true)) == 105
    ensures PointsMultiplier(GetLevelForPoints(60).level, ClassActivity(true)) == 100
  {
    ProgressWithinTier(20, 1);
    ProgressWithinTier(60, 2);
  }
}
