# Gym client rules, modelled in Dafny

The model is the client side of a gym management web application. Members
earn points and levels, unlock badges, enrol in classes and complete
routines. Administrators manage routines, users and sedes (gym branches).
Scoring, enrolment limits and persistence all live in a backend that the
client only calls, so they are not modelled. What is modelled is the set of
rules the browser applies to data it has already fetched:

- the level table and the points multiplier;
- the level-up and new-badge notification state machines;
- breadcrumb generation from the path;
- grouping of a workout session's sets by exercise;
- the sede auto-selection rule;
- view validation and the three key figures of the admin dashboard;
- the optimistic routine assign and unassign with rollback, and sorting routines by name;
- the available/full split of classes;
- the clean-up of a completed routine's performances;
- the workout-session form's acceptance rules.

There is one Dafny module per source file. Two shared modules hold the
helpers:

- `Common` holds `Option`, `Filter`, `Join`/`Split` and exact rounding.
- `Numbers` holds `Parse`, a model of JavaScript's `Number` on plain decimal
  strings, where None stands for NaN, and `IntToString`.

React state is modelled as fields. State that an effect or handler rewrites
becomes a class, and each effect or handler becomes a method. Pure
computations become functions, and the source's loops become methods with
loop invariants.

Each module states properties in one of two ways:

- lemmas relating the operations, such as a partition, a round trip or
  idempotence;
- scenario methods that drive the classes through a sequence of calls the
  application makes, such as two badge batches, a failed mutation, or an
  admin loading the sede list.

Three conventions apply throughout the model:

- The empty string stands for a missing user id. This matches JavaScript
  truthiness.
- Ids, points and counts are unbounded integers.
- A badge's `progress` is a real number.

`getLevelForPoints` follows the code, not the design description. That
description clamps the progress percentage to `[0, 100]` and treats a
negative total as 0. The code only caps the percentage at 100, so a
negative total yields a negative percentage
(`Levels.NegativeTotalHasNegativeProgress`).

## Model

| member | source | states |
|---|---|---|
| Levels.LevelsAscending | src/lib/levels.ts:12-71 | The tier table starts at 0 points and level 1, and both levels and thresholds strictly increase. |
| Levels.TierIndex | src/lib/levels.ts:74-75 | The chosen tier index is always within the table. |
| Levels.GetLevelForPoints | src/lib/levels.ts:73-99 | The returned level is the table entry at the chosen tier index. |
| Levels.TierIsHighestReached | src/lib/levels.ts:74-75 | The tier is a table entry. Its threshold is reached when points ≥ 0, a negative total falls back to the first tier, and no higher entry's threshold is reached. |
| Levels.NextLevelPointsFollowsTier | src/lib/levels.ts:77-84 | `nextLevelPoints` is the next entry's threshold, or absent with progress 100 in the top tier. |
| Levels.ProgressIsRoundedPercentage | src/lib/levels.ts:82-92 | Progress is at most 100 and at least 0 for non-negative totals. Below the top tier it is the minimum of 100 and the half-up rounded percentage of the way through the tier. |
| Levels.UncappedProgressAtMost100 | src/lib/levels.ts:85-92 | For non-negative totals the rounded ratio itself is already within [0, 100]. |
| Levels.LevelIsMonotone | src/lib/levels.ts:74-75 | More points never give a lower level. |
| Levels.ProgressWithinTier | src/lib/levels.ts:73-99 | Inside tier i the result is tier i, the capped rounded percentage, and tier i+1's threshold. |
| Levels.ConcreteLevelsLow | src/lib/levels.ts:73-99 | Exact results for totals of 0, 19 and 20. |
| Levels.ConcreteLevelsHigh | src/lib/levels.ts:73-99 | Exact results for totals of 90, 150 and 100000, the last in the top tier with progress 100. |
| Levels.NegativeTotalHasNegativeProgress | src/lib/levels.ts:82-92 | A total of -10 gives the first tier with progress -50: there is no clamp at 0. |
| Levels.PointsMultiplier | src/lib/levels.ts:107-125 | The multiplier, in hundredths, is one of 100, 105, 110, 120 and 130. |
| Levels.MultiplierRules | src/lib/levels.ts:107-125 | Level 5 gives 130 and level 4 gives 120. The result is 110 iff level 3 with a routine, 105 iff level 2 with a boosted class, and 100 iff none of the four cases applies. |
| Levels.ConcreteMultipliers | src/lib/levels.ts:107-125 | The multiplier for five level and activity pairs. |
| Levels.MultiplierNotMonotoneInPoints | src/lib/levels.ts:107-125 | A boosted class earns 105 at 20 points but 100 at 60 points. |
| LevelUp.LevelUpDue | src/components/gamification/LevelUpWatcher.tsx:41 | The opening condition: the level is above 1 and above the acknowledged level. |
| LevelUp.LevelUpWatcher.constructor | src/components/gamification/LevelUpWatcher.tsx:16-17 | The watcher starts closed with no level. |
| LevelUp.LevelUpWatcher.Observe | src/components/gamification/LevelUpWatcher.tsx:19-45 | Without a user or a level status nothing changes. Otherwise, when the level is due the modal opens on the tier of the total; when it is not, nothing changes. |
| LevelUp.LevelUpWatcher.Close | src/components/gamification/LevelUpWatcher.tsx:53-58 | `open` becomes the argument. Closing acknowledges exactly the shown level and clears it; keeping it open acknowledges nothing. |
| LevelUp.LevelUpNeedsSecondTier | src/components/gamification/LevelUpWatcher.tsx:19-41 | A due level-up implies the total reaches the second tier's threshold. |
| LevelUp.AcknowledgeCycle | src/components/gamification/LevelUpWatcher.tsx:35-58 | The modal is shown iff the level is due, and the acknowledged level is that tier. Observing again after the acknowledgement does not reopen it. |
| Badges.FirstNewIndex | src/components/badges/NewBadgeWatcher.tsx:46-48 | The index found is the first from the start index holding an unlocked badge outside the previous set, or -1 when there is none. |
| Badges.NewlyEarnedIsFirstNew | src/components/badges/NewBadgeWatcher.tsx:46-48 | A badge is reported iff some unlocked id is not in the previous set. It is the first such badge in list order. |
| Badges.SameBatchReportsNothing | src/components/badges/NewBadgeWatcher.tsx:34-50 | Comparing a batch with its own unlocked ids reports nothing. |
| Badges.EarnedLockedPartition | src/app/user/badges/page.tsx:36-40 | `earned` and `locked` split the badges by `isUnlocked`. Their lengths and multisets add up to the whole, and each keeps list order. |
| Badges.UnlockedIdsAreEarnedIds | src/app/user/badges/page.tsx:49-51 | The recorded id set is the set of ids of the earned list. |
| Badges.BadgePercent | src/app/user/badges/page.tsx:145 | `round(progress·100)` is within [0, 100] for progress in [0, 1], and at least 100 from progress 1 on. |
| BadgeWatcher.NewBadgeWatcher.constructor | src/components/badges/NewBadgeWatcher.tsx:22-29 | The watcher starts uninitialised with an empty seen set and a closed modal. |
| BadgeWatcher.NewBadgeWatcher.Observe | src/components/badges/NewBadgeWatcher.tsx:31-56 | No user or no badges changes nothing. The first batch only records the unlocked ids. Later batches replace the seen set with the current unlocked ids and open the modal on the first new badge, if there is one. |
| BadgeWatcher.NewBadgeWatcher.Close | src/components/badges/NewBadgeWatcher.tsx:64-69 | `modalOpen` becomes the argument. Closing clears the badge; the seen set is untouched. |
| BadgeWatcher.TwoBatches | src/components/badges/NewBadgeWatcher.tsx:31-56 | After the first batch nothing is shown. After the second, the reported badge is the first one newly unlocked relative to the first batch. |
| BadgesPage.UnlockedCounter | src/app/user/badges/page.tsx:97-99 | The "x/y desbloqueados" counter has x ≤ y and y equal to the number of badges. |
| BadgesPage.BadgesPageState.constructor | src/app/user/badges/page.tsx:32-44 | The page state starts uninitialised with a closed modal. |
| BadgesPage.BadgesPageState.Observe | src/app/user/badges/page.tsx:46-74 | The same detection as the watcher, without the user check. |
| BadgesPage.BadgesPageState.Close | src/app/user/badges/page.tsx:82-87 | `modalOpen` becomes the argument, and closing clears the badge. |
| BadgesPage.RefetchUnchanged | src/app/user/badges/page.tsx:46-74 | Seeing the same batch twice never opens the modal. |
| Breadcrumbs.TrimStart | src/components/page-breadcrumb.tsx:127 | The result is a suffix of the input. It is empty iff the input is all white space, and otherwise it does not start with white space. |
| Breadcrumbs.TrimEnd | src/components/page-breadcrumb.tsx:127 | The result is a prefix of the input. It is empty iff the input is all white space, and otherwise it does not end with white space. |
| Breadcrumbs.Trim | src/components/page-breadcrumb.tsx:127 | The result is empty iff the input is all white space, and otherwise it has no white space at either end. |
| Breadcrumbs.ClickableSegmentsAreLabelled | src/components/page-breadcrumb.tsx:21-43 | Every clickable segment has a non-empty Spanish label. |
| Breadcrumbs.PathSegments | src/components/page-breadcrumb.tsx:84-87 | Every segment is non-empty and contains no "/". |
| Breadcrumbs.SegmentsOfPath | src/components/page-breadcrumb.tsx:84-87 | Splitting "/" + the segments joined by "/", with or without a trailing "/", gives the segments back. |
| Breadcrumbs.TrailingSlashIsIrrelevant | src/components/page-breadcrumb.tsx:84-87 | Dropping a trailing "/" before splitting changes nothing once empty pieces are filtered out. |
| Breadcrumbs.GetAdminUserIdFromPath | src/components/page-breadcrumb.tsx:45-54 | The id is non-empty iff the path has at least three segments starting with "admin" and "user", and the id is then the third segment. |
| Breadcrumbs.AdminUserIdAgreesWithSegmentRule | src/components/page-breadcrumb.tsx:45-58 | A user id is found in the path iff segment index 2 is an admin user id segment. |
| Breadcrumbs.LabelRules | src/components/page-breadcrumb.tsx:60-80 | The admin user id segment shows the user's name, or "Usuario" when it is empty. A segment with a table entry shows that label. Any other segment shows its capitalised words without brackets. |
| Breadcrumbs.SingleWordLabel | src/components/page-breadcrumb.tsx:75-79 | A segment without "-" or brackets is labelled with its first letter capitalised. |
| Breadcrumbs.ConcreteTableLabels | src/components/page-breadcrumb.tsx:23-73 | "Classes" shows "Clases". The admin user segment shows "Usuario", or the name once it is known. |
| Breadcrumbs.ConcreteWordsLabel | src/components/page-breadcrumb.tsx:75-79 | "stats" shows "Stats". |
| Breadcrumbs.BreadcrumbsOf | src/components/page-breadcrumb.tsx:90-109 | There is one breadcrumb per segment, in segment order. |
| Breadcrumbs.UrlChain | src/components/page-breadcrumb.tsx:92 | Each breadcrumb's URL is the previous one extended by "/" and its segment. |
| Breadcrumbs.BreadcrumbUrls | src/components/page-breadcrumb.tsx:92-105 | The first URL is "/" + the first segment, URLs chain, the last URL is the whole path, and `isLast` holds exactly for the final breadcrumb. |
| Breadcrumbs.PathRoundTrip | src/components/page-breadcrumb.tsx:82-109 | For a path built from proper segments, the last breadcrumb's URL is that path and there is one breadcrumb per segment. |
| Breadcrumbs.ClickableBreadcrumbs | src/components/page-breadcrumb.tsx:98-100 | A breadcrumb is clickable iff its lowercased segment is in the clickable list and the segment has no "[". A clickable breadcrumb other than the admin user id shows its table label. |
| Breadcrumbs.VisibleAreNonHidden | src/components/page-breadcrumb.tsx:139-141 | The visible breadcrumbs are exactly those whose lowercased segment is not "admin" or "user", in order. |
| Breadcrumbs.LastVisibleIsNotALink | src/components/page-breadcrumb.tsx:148-154 | The last visible breadcrumb is never rendered as a link. |
| Breadcrumbs.AdminUserName | src/components/page-breadcrumb.tsx:122-133 | With no user loaded, the name is empty. |
| Breadcrumbs.LoadedUserHasName | src/components/page-breadcrumb.tsx:122-133 | With a user loaded and an id in the path, the name is non-empty. It is the trimmed full name unless that is blank, then the email, then the id. |
| Breadcrumbs.BlankFullName | src/components/page-breadcrumb.tsx:127 | The joined full name is blank iff both the first and the last name are blank. |
| Breadcrumbs.ConcreteAdminUserCrumbs | src/components/page-breadcrumb.tsx:82-109 | The four crumbs of /admin/user/u1/routines for the user "Ana Paz": "Administracion" and "Usuario", neither clickable; the user's name; and "Rutinas", last and clickable. Each links to its path prefix. |
| Breadcrumbs.ConcreteAdminUserVisible | src/components/page-breadcrumb.tsx:139-141 | Of those crumbs only the user id crumb and the routines crumb are visible. |
| Breadcrumbs.ConcreteAdminUserPage | src/components/page-breadcrumb.tsx:82-141 | The whole visible trail of /admin/user/u1/routines: the user's name, then "Rutinas". |
| HistorySessionCard.StatusLabelsDistinct | src/components/progress/history-session-card.tsx:13-17 | The three status labels are distinct. |
| HistorySessionCard.FirstIndex | src/components/progress/history-session-card.tsx:47-51 | The index found is the first performance with the id, or the length when there is none. |
| HistorySessionCard.GroupPerformancesByExercise | src/components/progress/history-session-card.tsx:38-57 | Keys are the ids in first-occurrence order. There is one group per key, holding all sets with that id in input order, and the exercise of the first such set. |
| HistorySessionCard.GroupStep | src/components/progress/history-session-card.tsx:46-54 | One loop step, either creating a group or pushing onto an existing one, preserves the grouping of the prefix. |
| HistorySessionCard.AddPerformance | src/components/progress/history-session-card.tsx:47-53 | One loop body: a new id gets a key and a group with that performance's exercise; the performance is pushed onto its own group, and every other group is unchanged. |
| HistorySessionCard.SetsOfSnoc | src/components/progress/history-session-card.tsx:53 | A new performance is appended to its own group only. |
| HistorySessionCard.NoneWithId | src/components/progress/history-session-card.tsx:46-54 | An id that no performance has gets no sets. |
| HistorySessionCard.ExerciseGroups | src/components/progress/history-session-card.tsx:61-63 | Missing performances give no groups; otherwise the performances are grouped. |
| HistorySessionCard.FirstIndexSnoc | src/components/progress/history-session-card.tsx:47-51 | Appending keeps existing first occurrences and creates the new one. |
| HistorySessionCard.FirstIndexSnocOne | src/components/progress/history-session-card.tsx:47-51 | The same, for a single id. |
| HistorySessionCard.KeysAreOccurringIds | src/components/progress/history-session-card.tsx:46-52 | An id is a key iff some performance has it. |
| HistorySessionCard.KeysAreFirstOccurrences | src/components/progress/history-session-card.tsx:47-52 | Keys are distinct and ordered by first occurrence. |
| HistorySessionCard.RecordInItsGroup | src/components/progress/history-session-card.tsx:46-54 | Every performance lands in the group of its exercise id. |
| HistorySessionCard.SumSetsSnoc | src/components/progress/history-session-card.tsx:53 | Appending a performance adds one set to the total across distinct keys that include its id. |
| HistorySessionCard.SumSetsAppendKey | src/components/progress/history-session-card.tsx:46-56 | Adding a key adds that group's size to the total. |
| HistorySessionCard.TotalSetCount | src/components/progress/history-session-card.tsx:46-56 | The groups together hold exactly as many sets as there are performances. |
| SedesSwitcher.FindSede | src/components/sedes-switcher.tsx:51-54 | A sede is found iff the parsed id is a number held by some sede, and it is the first such sede. |
| SedesSwitcher.AutoSelectionRules | src/components/sedes-switcher.tsx:48-82 | A missing or empty list changes nothing. A user moves to their own sede when it is found. An admin keeps a listed selection; a stale selection is replaced by their sede, or else by the first sede. |
| SedesSwitcher.AdminSelectionIsListed | src/components/sedes-switcher.tsx:64-75 | After the rule runs for an admin with a non-empty list, the selection is listed. |
| SedesSwitcher.UserIsLockedToOwnSede | src/components/sedes-switcher.tsx:51-62 | A user whose sede is listed always ends up on it. |
| SedesSwitcher.AutoSelectionIsStable | src/components/sedes-switcher.tsx:48-82 | Running the rule again on its own result changes nothing. |
| SedesSwitcher.SedesSwitcher.constructor | src/components/sedes-switcher.tsx:48-82 | The switcher starts on the given selection. |
| SedesSwitcher.SedesSwitcher.AutoSelect | src/components/sedes-switcher.tsx:48-82 | The effect sets the selection to the rule's result for the previous selection. |
| SedesSwitcher.SedesSwitcher.HandleSedeSelect | src/components/sedes-switcher.tsx:104-106 | A manual choice selects exactly that sede. |
| SedesSwitcher.AdminLoadsSedes | src/components/sedes-switcher.tsx:48-82 | For an admin, the effect ends on a listed sede, and the re-run it triggers keeps it. |
| Dashboard.GetValidView | src/app/admin/dashboard/page.tsx:18-28 | The result is one of the four views. It is the named view when the parameter names one, and "members" otherwise. |
| Dashboard.ValidViewRoundTrip | src/app/admin/dashboard/page.tsx:20-28 | A view's own name validates to itself, and validation is idempotent. |
| Dashboard.ViewNamesDistinct | src/app/admin/dashboard/page.tsx:18-20 | The four view names are distinct. |
| Dashboard.DashboardState.constructor | src/app/admin/dashboard/page.tsx:33-35 | The initial view is the validated parameter. |
| Dashboard.DashboardState.SyncFromUrl | src/app/admin/dashboard/page.tsx:38-52 | An invalid parameter is rewritten first, leaving the view alone; a valid one becomes the view. |
| Dashboard.DashboardState.HandleViewChange | src/app/admin/dashboard/page.tsx:182-191 | Choosing the current view is a no-op. Any other view becomes active and is written to the URL. |
| Dashboard.OpenDashboard | src/app/admin/dashboard/page.tsx:33-52 | After the URL correction settles, the view shown and the URL are both the validated view. |
| Dashboard.FirstMaxIsUnique | src/app/admin/dashboard/page.tsx:66-69 | The first index of the largest key is unique. |
| Dashboard.FirstMaxIndex | src/app/admin/dashboard/page.tsx:66-69 | The scan with a strict comparison ends on the first index of the largest key. |
| Dashboard.FirstHourTotals | src/app/admin/dashboard/page.tsx:66-68 | There is one first-hour total per item. |
| Dashboard.BusiestHour | src/app/admin/dashboard/page.tsx:54-75 | With no item in the sede the figure is "Sin clases". An item without hours makes the query fail. Otherwise the figure is the first hour of the first item with the largest first-hour total, as "h:00". |
| Dashboard.TopRoutine | src/app/admin/dashboard/page.tsx:77-99 | With no routine in the sede the figure is "Sin rutinas". Otherwise it is the name of the first routine with the most users, or "Sin asignaciones" when that count is not positive. |
| Dashboard.TopClass | src/app/admin/dashboard/page.tsx:101-127 | With no class in the sede the figure is "Sin clases". Otherwise it is the name of the first class with the most enrolments, or "Sin inscriptos" when that count is not positive. |
| Dashboard.NoPositiveCount | src/app/admin/dashboard/page.tsx:94-122 | The fallback text is shown iff no item has a positive count. |
| Dashboard.Shown | src/app/admin/dashboard/page.tsx:140-142 | A card shows the query's value, or "—" when there is none. |
| Routines.AssignUser | src/components/routines/routines-modal.tsx:42-46 | The length is preserved and other routines are unchanged. The matching routine gets the user appended, without de-duplication. |
| Routines.WithoutUser | src/components/users/user-routines-card.tsx:92 | Every occurrence of the user is removed, and every other user is kept. |
| Routines.UnassignUser | src/components/users/user-routines-card.tsx:90-94 | The length is preserved and other routines are unchanged. The matching routine loses the user. |
| Routines.AssignAndUnassignMembership | src/components/routines/routines-modal.tsx:42-115 | After an assign the user is listed and the assign button is gone. After an unassign the user is absent and the button is back. |
| Routines.UnassignUndoesAssign | src/components/users/user-routines-card.tsx:90-94 | Unassigning after assigning equals unassigning on the original list. |
| Routines.UnassignDropsFromUserRoutines | src/components/users/user-routines-card.tsx:81-94 | After an optimistic unassign, the user's routines no longer include that routine. |
| Routines.CardBodyFor | src/components/users/user-routines-card.tsx:81-128 | The "no routines" message shows iff no routine lists the user; otherwise the card lists the user's routines in order. |
| Routines.RoutinesCache.constructor | src/components/routines/routines-modal.tsx:40 | The cache holds the given data. |
| Routines.RoutinesCache.OnMutateAssign | src/components/routines/routines-modal.tsx:37-51 | The snapshot is the old data, and the cache becomes the assign map over the old data or []. |
| Routines.RoutinesCache.OnMutateUnassign | src/components/users/user-routines-card.tsx:87-99 | The snapshot is the old data, and the cache becomes the unassign map over the old data or []. |
| Routines.RoutinesCache.OnError | src/components/routines/routines-modal.tsx:55-58 | A present snapshot is restored; without one the cache stays as it is. |
| Routines.FailedAssign | src/components/routines/routines-modal.tsx:37-58 | A failed assign restores a present list. On an empty cache it leaves [] behind. |
| Routines.FailedUnassign | src/components/users/user-routines-card.tsx:87-106 | In the single-cache model: while pending, the routine disappears from the user's routines computed from the cache, and a failure restores the list. |
| Routines.RoutinesModal.constructor | src/components/routines/routines-modal.tsx:28-30 | No routine is being assigned. |
| Routines.RoutinesModal.HandleAssignRoutine | src/components/routines/routines-modal.tsx:65-66 | The routine being assigned is the chosen one. |
| Routines.RoutinesModal.OnSettled | src/components/routines/routines-modal.tsx:68-70 | No routine is being assigned. |
| Routines.AssignLifecycle | src/components/routines/routines-modal.tsx:65-92 | During the mutation only the chosen routine shows as assigning, and afterwards none does. |
| Routines.NameLeTotal | src/components/routines/routines-modal.tsx:89 | The name order is total. |
| Routines.NameLeTransitive | src/components/routines/routines-modal.tsx:89 | The name order is transitive. |
| Routines.NameLeAntisymmetric | src/components/routines/routines-modal.tsx:89 | The name order is antisymmetric. |
| Routines.SortByName | src/components/routines/routines-modal.tsx:88-89 | The in-place sort leaves the array ordered by name and a permutation of its old contents. |
| Routines.InsertIntoPrefix | src/components/routines/routines-modal.tsx:88-89 | One insertion step leaves the prefix through the new element sorted and the array a permutation of its old contents. |
| Routines.SwapStep | src/components/routines/routines-modal.tsx:88-89 | Swapping an out-of-order pair moves the inserted routine one place down. |
| Routines.InsertionDone | src/components/routines/routines-modal.tsx:88-89 | Once the inserted routine is in place, the prefix is sorted. |
| Routines.SortedModalList | src/components/routines/routines-modal.tsx:88-89 | The modal lists the routines sorted by name, as a permutation of the fetched list. |
| ClassesPage.AvailableFullPartition | src/app/user/classes/page.tsx:40-41 | `available` holds exactly the classes with room and `full` the rest. Their lengths and multisets add up to the whole, and each keeps list order. |
| ClassesPage.ClassesPageView | src/app/user/classes/page.tsx:31-51 | Missing data shows an empty table. Otherwise the table shows the available classes, and the full section appears iff some class is full. |
| CompleteRoutine.CleanPerformances | src/hooks/use-completeRoutine.ts:24-30 | The output is never longer than the input. |
| CompleteRoutine.CleanIsFilterThenMap | src/hooks/use-completeRoutine.ts:24-30 | The one-pass definition equals the filter followed by the map. |
| CompleteRoutine.CleanAppend | src/hooks/use-completeRoutine.ts:24-30 | Cleaning distributes over concatenation, so surviving entries keep their order. |
| CompleteRoutine.CleanKeepsExactlyTheFilledIn | src/hooks/use-completeRoutine.ts:25-30 | Every output comes from a completed entry with both fields filled in, carrying its exercise id and parsed fields. Every such entry yields an output, and there are as many outputs as kept entries. |
| CompleteRoutine.DroppedEntry | src/hooks/use-completeRoutine.ts:25 | An uncompleted entry, or one with an empty field, contributes nothing. |
| CompleteRoutine.WholeNumbersAreSent | src/hooks/use-completeRoutine.ts:25-30 | A completed entry with whole-number fields is sent with those numbers. |
| Numbers.Parse | src/schema/workoutSessionForm.ts:7 | `Number` on a digit string is its value, and what parses is neither empty nor a lone "-". |
| Numbers.ParseDecimal | src/schema/workoutSessionForm.ts:7-15 | `Number` of whole digits, a point and fractional digits is the whole value plus the fraction over the matching power of ten. |
| WorkoutForm.SetEntryIssues | src/schema/workoutSessionForm.ts:3-18 | The weight message is raised iff the weight rule fails, and the reps message iff the reps rule fails. |
| WorkoutForm.ExerciseEntryIssues | src/schema/workoutSessionForm.ts:20-24 | The sets message is raised iff the exercise has no sets. |
| WorkoutForm.SetsIssues | src/schema/workoutSessionForm.ts:22 | There is no issue iff every set passes both field rules. |
| WorkoutForm.ExercisesIssues | src/schema/workoutSessionForm.ts:28 | There is no issue iff every exercise entry has none. |
| WorkoutForm.AcceptanceRules | src/schema/workoutSessionForm.ts:20-29 | A form is accepted iff every exercise has a set and every set passes both rules. Notes play no part, and no exercises is accepted. |
| WorkoutForm.ExerciseNeedsASet | src/schema/workoutSessionForm.ts:22-23 | An exercise with no sets gets exactly the sets message, whatever its comment. |
| WorkoutForm.EmptyFieldsAccepted | src/schema/workoutSessionForm.ts:7-14 | Empty weight and reps are accepted. |
| WorkoutForm.WholeNumberFields | src/schema/workoutSessionForm.ts:7-15 | A written whole number is a valid weight iff it is ≥ 0, and valid reps iff it is ≥ 1. |
| WorkoutForm.DecimalFields | src/schema/workoutSessionForm.ts:7-15 | A number with one non-zero decimal is a valid weight but never valid reps. |
| WorkoutForm.NonNumericRefused | src/schema/workoutSessionForm.ts:7-15 | In the model, where only plain decimals parse, text that does not begin with a digit or "-" is refused for both fields. |

## Left out

- HTTP, authentication and react-query are left out. This covers fetching, cache invalidation, query cancellation, toasts and loading skeletons. Fetched data and the outcome of a mutation are parameters, and an effect is an explicit method call.
- Clerk's user metadata is a parameter. The sede id, already passed through `Number`, is an `Option<real>`, with None for NaN.
- The cache keys are not modelled: both routine mutations and the card are modelled on one cache. In the source, both mutations read and write the entry `["routines"]` by exact key, while the user routines card reads `["routines", sedeId]`. Only the prefix-matching invalidation after the mutation settles refreshes the card.
- Routines.FailedUnassign: in the source the optimistic write and its rollback go to `["routines"]`, which the card does not read, so its list does not change while the unassign is pending. The snapshot is usually absent, so the rollback does not reach the card either. The member's pending-state clause holds only in the single-cache model.
- WorkoutForm.NonNumericRefused: holds only of the plain-decimal `Parse`. JavaScript's `Number` makes the source accept " ", "+5", ".5" and "Infinity" as a weight, and "+2" and " 3" as reps.
- Numbers.Parse: JavaScript's `Number` also accepts surrounding white space, exponents, hexadecimal, "Infinity", a leading "+" or ".", and maps "" to 0. The model parses only optional "-", digits, and an optional "." followed by digits. Everything else is NaN.
- Floating point is not modelled. The multiplier is exact hundredths rather than `1.0 + 0.05`. `Math.round` is exact half-up rounding on rationals. A badge's `progress >= 1` is an exact comparison of reals.
- Breadcrumbs.ToLower: case mapping covers ASCII letters only, not full Unicode `toLowerCase`/`toUpperCase`.
- Breadcrumbs.Trim: white space covers space, tab, line feed, carriage return, vertical tab and form feed. JavaScript's `trim` also strips the other Unicode space characters.
- Breadcrumbs.GetSegmentLabel: the label table is a plain map. In JavaScript, a segment such as "constructor" would find an inherited object property in the lookup instead.
- Breadcrumbs.PathSegments on literal path strings: the concrete page examples start from the segment list rather than from a path string. `PathRoundTrip` and `SegmentsOfPath` connect the two for every path built from proper segments.
- Routines.SortByName: `localeCompare` order becomes code-point lexicographic order. The in-place sort is an insertion sort, which the source leaves to the engine's `Array.sort`, and its stability is not stated.
- The list-row rendering markup and the charts are not modelled. Dates are integers, and only the record fields the rules read are kept.
- Dashboard.BusiestHour: the query's exception for an item with no hours is a None result, which the card shows as "—" through `Shown`.
- The `colorClass` and `perks` fields of a level are display text and are not modelled. No rule reads them.
- Dashboard: only the `view` URL parameter is modelled. Other parameters are copied unchanged by the source.
