# befree streak tracker: a Dafny model of its core

befree is a React Native app that tracks how long someone has stayed away from an addiction.
Each tracked item has a start date and a list of relapses. From these the app computes:

- milestone achievements ("ten minutes", "one day", ..., "one year");
- a calendar heat-map of relapse days;
- human-readable durations such as `1y 3d 4h 5m 6s`.

The app also keeps the items, and the user's selections, in a client-side store.

This project models that core in Dafny and proves what each piece promises.

| module | file | what it models |
|---|---|---|
| `Wrappers`, `Seqs` | `wrappers.dfy`, `seqs.dfy` | `Option`; `Array.prototype.filter` with its order and membership facts |
| `GoalTypes`, `Achievements` | `goal_types.dfy`, `achievements.dfy` | the goal tiers and `getAchievements` / `useAchievements`: per tier, achieved, progress, `goalAt`, `achievedAt` |
| `AddictionStructure` | `addiction.dfy` | the `Addiction` class: it prepends an initial relapse at `startedAt` and stable-sorts the relapses by time; the `lastRelapse` and `relapseDates` getters |
| `AddictionsStore` | `addictions_store.dfy` | the addictions slice: `add`, `edit`, `remove`, `addRelapse`, `removeRelapse`, the sorting comparator, and the optimistic relapse / delete with rollback done by the item screen |
| `FormatTime` | `format_time.dfy` | `formatTime` without `toNow`: the y/d/h/m/s decomposition and string assembly, with a parser that reads the string back |
| `Timeline` | `timeline.dfy` | the timeline provider: `startSunday`, `endSaturday`, `frequencyMap`, the cell colour classification, `cellsData` (reversed in place when mirrored) and the initial `mirrored` state |
| `AchievementsNotifications` | `achievements_notifications.dfy` | grouping of the scheduled trigger notifications by item id |
| `Selection`, `AddictionsSelection` | `selection.dfy`, `addictions_selection.dfy` | the two selection slices: set, append, remove every occurrence, clear |

Conventions:

- Instants are whole milliseconds (`int`).
- The clock (`new Date()`) is a parameter `now`.
- Calendar days are day numbers: day `d` starts at `d * 86400000`, and day 0 is Thursday 1 January 1970.
- Values the app updates in place are class fields (`Store.addictions`, `SelectionSlice.selected`, the timeline provider's state). The cell list is an `array` reversed in place.
- Pure computations are functions. Each is paired with lemmas stating its properties.

The model follows the code in these places, where it behaves differently from related code in the app, or ignores what its own expression reads:

- `removeRelapse` stores the first remaining relapse as `lastRelapse` (src/store/addictions.ts:99-100). `addRelapse` stores the date it appends (src/store/addictions.ts:79-80), and the `lastRelapse` getter returns the latest relapse (src/structures/Addiction.ts:62-66).
- An achieved tier is dated from the start of the longest absence (src/hooks/goal/useAchievements.ts:98-101), even when only the current absence reached it (src/hooks/goal/useAchievements.ts:90-92).
- `mirrored` starts true whatever the props say: `props.mirrored || true` (src/components/ui/Timeline/context.tsx:106). A `false` prop has no effect, and only `setMirrored` can make it false.
- `cellsData` counts relapses from the props' data (src/components/ui/Timeline/context.tsx:120-121). The `data` state that `setData` changes (src/components/ui/Timeline/context.tsx:102) is not read there.

## Model

| member | source | states |
|---|---|---|
| `Achievements.AchievementFor` | src/hooks/goal/useAchievements.ts:80-112 | A tier is achieved iff the longest absence (measured to `now` when open) or the current absence lasted at least its duration. Achieved: progress 1, `achievedAt == goalAt == longestAbsence.start + timeDiff`. Pending: progress is exactly `currentDiff / timeDiff` and below 1, so the `min` never caps; `goalAt == lastRelapse + timeDiff`, and it lies after `now`. Progress stays in [0, 1] when the last relapse is not in the future |
| `Achievements.RatioBelowOne` | src/hooks/goal/useAchievements.ts:94-96 | An elapsed time over a positive duration is below 1 iff the time is shorter than the duration |
| `Achievements.GetAchievements` | src/hooks/goal/useAchievements.ts:79-113 | Exactly one record per goal-table row, in table order, carrying that row's `goalType` |
| `Achievements.UseAchievements` | src/hooks/goal/useAchievements.ts:16-65 | The memoised hook yields one record per table row |
| `Achievements.UseAchievementsAgrees` | src/hooks/goal/useAchievements.ts:16-65 | For the same inputs and the same `now`, the hook and `getAchievements` agree record for record |
| `Achievements.AchievedMonotone` | src/hooks/goal/useAchievements.ts:90-92 | With one `now`, a tier no longer than an achieved tier is achieved too |
| `Achievements.AchievedTiersArePrefix` | src/hooks/goal/useAchievements.ts:79-92 | For a table listed shortest first, the achieved tiers form a prefix of the result |
| `Achievements.GoalAtWithinLongestAbsence` | src/hooks/goal/useAchievements.ts:98-101 | When the longest absence itself reached the tier, `goalAt` lies inside that absence |
| `Achievements.CurrentOnlyDatedFromLongest` | src/hooks/goal/useAchievements.ts:90-103 | A tier reached only by the current absence is still dated `longestAbsence.start + timeDiff`, which lies after the longest absence ended |
| `Achievements.FreshItemAfterTenMinutes` | src/hooks/goal/useAchievements.ts:79-113 | A new item ten minutes after its start has its ten-minute tier achieved at that instant, and its thirty-minute tier a third done |
| `AddictionStructure.SortByRelapseAt` | src/structures/Addiction.ts:53-56 | The sort returns a permutation of its input, ordered by relapse time |
| `AddictionStructure.SortIsStable` | src/structures/Addiction.ts:53-56 | The sort is stable: at every instant, the relapses at that instant keep their input order |
| `AddictionStructure.BuildRelapses` | src/structures/Addiction.ts:53-56 | The built list has one more relapse than the stored ones and is sorted by time. Its contents are stated by `BuildRelapsesContents`, its order on ties by `InitialRelapseFirstOnTies` |
| `AddictionStructure.BuildRelapsesContents` | src/structures/Addiction.ts:53-56 | The built list holds the initial relapse plus every stored relapse (as a multiset), is sorted and is never empty |
| `AddictionStructure.InitialRelapseFirstOnTies` | src/structures/Addiction.ts:45-56 | At `startedAt`, the initial relapse comes before the stored relapses at that instant, which keep their stored order. At any other instant the relapses are the stored ones, in stored order |
| `AddictionStructure.Addiction.constructor` | src/structures/Addiction.ts:36-60 | Copies the stored fields. The initial relapse has id `startedAt`, the item's id, time `startedAt`, the item's `createdAt` and an empty note. The relapse list is the stable sort of initial plus stored relapses (non-empty, sorted, containing the initial relapse) |
| `AddictionStructure.Addiction.LastRelapse` | src/structures/Addiction.ts:62-66 | On a constructed item the getter returns the last element, and no relapse is later than it |
| `AddictionStructure.Addiction.RelapseDates` | src/structures/Addiction.ts:68-70 | One instant per relapse, in list order, non-decreasing on a constructed item |
| `AddictionsStore.Merge` | src/store/addictions.ts:54 | An empty patch changes nothing, and a patch without `id` keeps the id. Idempotence is stated by `MergeProperties` |
| `AddictionsStore.MergeProperties` | src/store/addictions.ts:54 | `Object.assign` with an empty patch changes nothing, applying a patch twice equals applying it once, and a patch without `id` keeps the id |
| `AddictionsStore.FindIndex` | src/store/addictions.ts:48-50 | `find` by id returns the first match, or nothing when no item has the id |
| `AddictionsStore.EditFirst` | src/store/addictions.ts:45-58 | `edit` keeps the length, and an unknown id changes nothing. That only the first match changes is stated by `EditChangesOnlyFirstMatch` |
| `AddictionsStore.EditChangesOnlyFirstMatch` | src/store/addictions.ts:45-58 | `edit` replaces the first item with the id by that item merged with the patch, keeps every other item and the length, and changes nothing for an unknown id |
| `AddictionsStore.RemoveId` | src/store/addictions.ts:59-69 | Every copy of an item with another id is kept, and no item with the id remains (as multiset counts) |
| `AddictionsStore.RemoveDeletesEveryMatch` | src/store/addictions.ts:59-69 | `remove` keeps exactly the items with another id, every copy of each, in their relative order |
| `AddictionsStore.AddRelapseTo` | src/store/addictions.ts:70-85 | `addRelapse` keeps the length, and an unknown id changes nothing. The change to the matching item is stated by `AddRelapseAppends` |
| `AddictionsStore.AddRelapseAppends` | src/store/addictions.ts:70-85 | `addRelapse` replaces the first matching item by the same item with the date appended to its relapses and `lastRelapse` set to the date, its other fields unchanged; every other item is unchanged; an unknown id changes nothing |
| `AddictionsStore.RelapsesWithout` | src/store/addictions.ts:95-97 | No relapse at the date remains, and every other relapse keeps all its copies (as multiset counts) |
| `AddictionsStore.RemoveRelapseFrom` | src/store/addictions.ts:86-105 | `removeRelapse` keeps the length, and an unknown id changes nothing. The change to the matching item is stated by `RemoveRelapseDrops` |
| `AddictionsStore.RemoveRelapseDrops` | src/store/addictions.ts:86-105 | `removeRelapse` drops every relapse equal to the date from the first matching item and keeps every copy of the rest, in order. The item becomes the same item with those relapses and with `lastRelapse` the first remaining relapse, or nothing when none remains; its other fields are unchanged. Other items are unchanged |
| `AddictionsStore.RelapseRollback` | src/store/addictions.ts:70-105 | `addRelapse` then `removeRelapse` of a date new to the item restores the list, except that the item's `lastRelapse` becomes its first relapse |
| `AddictionsStore.RollbackDeletesExisting` | src/store/addictions.ts:70-105 | Conversely, when the item already had a relapse at that date, the same pair removes every copy of it, so the list does not come back |
| `AddictionsStore.FieldOf` | src/store/addictions.ts:112-113 | A field is null or undefined only for a missing `image` or `lastRelapse`. The date-valued fields are `startedAt`, `createdAt` and a present `lastRelapse` |
| `AddictionsStore.CompareValues` | src/store/addictions.ts:115-146 | A null, undefined or uncomparable value compares as 0. The other cases are stated by `CompareZeroCases` and `CompareDirections` |
| `AddictionsStore.Compare` | src/store/addictions.ts:108-148 | Sorting by `relapses` or `hidden` never orders two items. Sorting by `startedAt` or `createdAt` compares the instants, negated for descending |
| `AddictionsStore.CompareZeroCases` | src/store/addictions.ts:112-146 | The comparator returns 0 when a field is null or undefined, when the kinds differ, and for kinds it does not compare |
| `AddictionsStore.CompareDirections` | src/store/addictions.ts:125-143 | Dates compare by instant and numbers by value. Descending is the negation of ascending, and ascending is antisymmetric. Descending on strings is ascending with the arguments swapped |
| `AddictionsStore.DefaultSortingByLastRelapse` | src/store/addictions.ts:25-28 | Under the initial sorting, items that both have a `lastRelapse` are ordered by it; an item without one ties with every other |
| `AddictionsStore.Store.constructor` | src/store/addictions.ts:21-30 | The slice starts ascending by `lastRelapse`, with no items |
| `AddictionsStore.Store.SetSorting` | src/store/addictions.ts:29 | Replaces the sorting; the items are unchanged |
| `AddictionsStore.Store.SetAddictions` | src/store/addictions.ts:31-37 | Replaces the item list; the sorting is unchanged |
| `AddictionsStore.Store.Add` | src/store/addictions.ts:38-44 | Appends the item at the end, with no duplicate check |
| `AddictionsStore.Store.Edit` | src/store/addictions.ts:45-58 | The new list is `EditFirst` of the old one |
| `AddictionsStore.Store.Remove` | src/store/addictions.ts:59-69 | The new list is the old one without the items that have the id |
| `AddictionsStore.Store.AddRelapse` | src/store/addictions.ts:70-85 | The new list is `AddRelapseTo` of the old one |
| `AddictionsStore.Store.RemoveRelapse` | src/store/addictions.ts:86-105 | The new list is `RemoveRelapseFrom` of the old one |
| `AddictionsStore.Store.RelapseOptimistically` | src/components/screens/Addiction/Addiction.tsx:50-61 | With nobody signed in the list is unchanged. Otherwise an optimistic relapse keeps the added relapse when the remote write succeeds. When it fails, an unknown id leaves the list unchanged, and a date new to the item leaves every relapse list as before. A date the item already had is then gone from it entirely, so the list differs from before |
| `AddictionsStore.Store.RemoveOptimistically` | src/components/screens/Addiction/Addiction.tsx:63-75 | With nobody signed in the list is unchanged. Otherwise an optimistic delete keeps the deletion when the remote call succeeds. When it fails, the item is re-added at the end of the list. When the item was in the list and every item with its id equals it, the same items are present afterwards, with it last |
| `FormatTime.Decompose` | src/utils/formatTime.ts:9-13 | For a non-negative duration, each floating-point floor equals an integer quotient or remainder: years by the year length, days as whole days less 365 per year, hours, minutes and seconds as remainders by 24, 60 and 60. Ranges and recombination are stated by `DecomposeBounds` |
| `FormatTime.DecomposeBounds` | src/utils/formatTime.ts:9-13 | For a non-negative duration, the floating-point floors equal integer quotients and remainders. Years ≥ 0, days < 365, hours < 24, minutes and seconds < 60, and the parts add back to the duration less its milliseconds |
| `FormatTime.Print` | src/utils/formatTime.ts:15-25 | The string is at least two characters long and ends in `s`. Its exact layout is pinned by `PrintRoundTrip` and `ParsedIsPrinted` |
| `FormatTime.Format` | src/utils/formatTime.ts:8-25 | The string always ends in `s`, and every duration under one second prints as `0s`. The round trip is stated by `FormatRoundTrip` |
| `FormatTime.FormatZero` | src/utils/formatTime.ts:15-25 | A zero duration prints as `0s` |
| `FormatTime.PrintRoundTrip` | src/utils/formatTime.ts:15-25 | The assembled string reads back as the parts it was printed from. The reader accepts only non-zero y, d, h and m parts, in that order and each followed by a space, then the seconds part, with no leading zeros |
| `FormatTime.ParsedIsPrinted` | src/utils/formatTime.ts:15-25 | Every string the reader accepts is exactly the printed form of the parts it reads. With `PrintRoundTrip`, the printed strings are exactly the strings of that layout, so zero parts are omitted and seconds are always present |
| `FormatTime.FormatRoundTrip` | src/utils/formatTime.ts:8-25 | For a non-negative duration, parsing `formatTime`'s output gives exactly the computed parts |
| `Timeline.StartSunday` | src/components/ui/Timeline/context.tsx:111-113 | The grid starts on the latest Sunday on or before the range's first day, at most six days earlier |
| `Timeline.EndSaturday` | src/components/ui/Timeline/context.tsx:115-118 | The grid ends on the Saturday one week after the first Saturday on or after the range's last day, 7 to 13 days after that last day |
| `Timeline.StartSundayIsLatest` | src/components/ui/Timeline/context.tsx:111-113 | No Sunday lies after the grid's first day and on or before the range's first day |
| `Timeline.EndSaturdayIsFirstPlusWeek` | src/components/ui/Timeline/context.tsx:115-118 | No Saturday lies between the range's last day and the week the grid's last day closes |
| `Timeline.FrequencyOf` | src/components/ui/Timeline/context.tsx:120-126 | Every key of the dictionary has a positive count, and the day of the last instant is a key. The exact counts are stated by `FrequencyCounts` and `FrequencySum` |
| `Timeline.FrequencyMap` | src/components/ui/Timeline/context.tsx:120-126 | The `reduce` loop builds exactly the dictionary of the fold `FrequencyOf` over the relapse instants |
| `Timeline.FrequencyCounts` | src/components/ui/Timeline/context.tsx:120-126 | In that dictionary each day maps to the number of relapses on it, and only days with a relapse are keys |
| `Timeline.FrequencySum` | src/components/ui/Timeline/context.tsx:120-126 | The dictionary's counts add up to the number of relapses |
| `Timeline.CellColor` | src/components/ui/Timeline/context.tsx:128-157 | A cell shows relapses only when it has some and its day has begun before `now`. A day that starts after `now` is transparent. The full classification is stated by `CellColorClassification` |
| `Timeline.CellColorClassification` | src/components/ui/Timeline/context.tsx:128-157 | A cell is transparent iff its day is after today or outside the range's days (both ends included). It shows relapses iff it is visible, has some, and its day has begun |
| `Timeline.Cells` | src/components/ui/Timeline/context.tsx:159-181 | The grid holds a whole number of weeks. Its shape is stated by `GridIsWholeWeeks`, its contents by `GridCellContents` |
| `Timeline.GridIsWholeWeeks` | src/components/ui/Timeline/context.tsx:159-165 | The grid is whole weeks, from exactly `StartSunday` of the range start to exactly `EndSaturday` of the range end: a Sunday to a Saturday, covering the range plus a week. It has at least two weeks when the range is not inverted |
| `Timeline.GridCellContents` | src/components/ui/Timeline/context.tsx:159-181 | The cells are consecutive days. Each cell's frequency is its day's relapse count, and its colour is its day's colour class |
| `Timeline.GridCells` | src/components/ui/Timeline/context.tsx:159-181 | The loop over the days fills a fresh array with exactly the grid, reading each day's count from the frequency dictionary |
| `Timeline.MirroredCellsDescend` | src/components/ui/Timeline/context.tsx:183 | Mirrored cells come out newest day first |
| `Timeline.ReverseCells` | src/components/ui/Timeline/context.tsx:183 | `reverse()` turns the array into the reverse of its old contents, in place |
| `Timeline.ReversedAt` | src/components/ui/Timeline/context.tsx:183 | Element `k` of the reversed list is element `n - 1 - k` of the original |
| `Timeline.TimelineState.constructor` | src/components/ui/Timeline/context.tsx:98-109 | The state takes range and data from the props, `mirrored` starts true whatever the props say, and `invertColor` is true only when the props say so |
| `Timeline.TimelineState.SetData` | src/components/ui/Timeline/context.tsx:102 | Changes only the `data` state |
| `Timeline.TimelineState.SetRange` | src/components/ui/Timeline/context.tsx:98-101 | Changes only the range |
| `Timeline.TimelineState.SetMirrored` | src/components/ui/Timeline/context.tsx:106 | Changes only `mirrored` |
| `Timeline.TimelineState.SetProps` | src/components/ui/Timeline/context.tsx:94-126 | A re-render with new props replaces the props and leaves range, data, `mirrored` and `invertColor` as they were at mount, so only `CellsData` sees the new data |
| `Timeline.TimelineState.CellsData` | src/components/ui/Timeline/context.tsx:159-190 | A fresh array holding the grid for the current range, counted from the props' data, reversed when mirrored |
| `AchievementsNotifications.NotificationsFor` | src/hooks/achievement/useAchievementsNotifications.ts:27-30 | Exactly the notifications naming the id, every copy of each, in their original relative order |
| `AchievementsNotifications.Group` | src/hooks/achievement/useAchievementsNotifications.ts:25-36 | One entry per item, in the items' order |
| `AchievementsNotifications.EntryContents` | src/hooks/achievement/useAchievementsNotifications.ts:27-30 | Each entry holds exactly the notifications whose `addictionId` is its item's id, every copy of each, in scheduled order |
| `AchievementsNotifications.UnmatchedInNoEntry` | src/hooks/achievement/useAchievementsNotifications.ts:27-30 | A notification without an item id, or with an id naming no listed item, is in no entry |
| `AchievementsNotifications.AtMostOneEntry` | src/hooks/achievement/useAchievementsNotifications.ts:26-35 | With distinct item ids, a notification is in at most one entry |
| `Selection.Without` | src/store/selection.ts:25-31 | Removal deletes every occurrence of the id and nothing else: every other id keeps all its copies, in order |
| `Selection.WithoutAbsent` | src/store/selection.ts:25-31 | Removing an id that is not selected changes nothing |
| `Selection.WithoutIdempotent` | src/store/selection.ts:25-31 | Removing the same id twice is removing it once |
| `Selection.AddThenRemoveRestores` | src/store/selection.ts:18-31 | Appending an id that was absent and then removing it restores the list |
| `Selection.SelectionSlice.constructor` | src/store/selection.ts:16 | The selection starts empty |
| `Selection.SelectionSlice.SetSelected` | src/store/selection.ts:17 | Replaces the list wholesale |
| `Selection.SelectionSlice.AddSelected` | src/store/selection.ts:18-24 | Appends the id at the end even when it is already present; the length grows by one |
| `Selection.SelectionSlice.RemoveSelected` | src/store/selection.ts:25-31 | The id is gone, every other id keeps all its copies in their order, and an absent id leaves the list unchanged |
| `Selection.SelectionSlice.ClearSelected` | src/store/selection.ts:32 | Leaves an empty list |
| `AddictionsSelection.AddictionsSelectionSlice.constructor` | src/store/addictionsSelection.ts:15 | The selection starts empty |
| `AddictionsSelection.AddictionsSelectionSlice.SetSelected` | src/store/addictionsSelection.ts:16 | Replaces the list wholesale |
| `AddictionsSelection.AddictionsSelectionSlice.AddSelected` | src/store/addictionsSelection.ts:17-23 | Appends without a duplicate check; the length grows by one. With `Selection.AddThenRemoveRestores`, a later `RemoveSelected` of an id that was absent restores the list |
| `AddictionsSelection.AddictionsSelectionSlice.RemoveSelected` | src/store/addictionsSelection.ts:24-30 | Deletes every occurrence, keeps every copy of the other ids in their order, and leaves the list unchanged when the id is absent |
| `AddictionsSelection.AddictionsSelectionSlice.ClearSelected` | src/store/addictionsSelection.ts:31 | Leaves an empty list |

## Left out

**The clock, I/O and platform behaviour**
- `formatTime` with `toNow`: it calls date-fns `formatDistanceToNow`, a locale-dependent library formatter.
- Timezones and daylight saving. A calendar day here is a fixed 86,400,000 ms UTC day, whereas the source formats dates in the device's local time.
- Floating point. Durations, progress ratios and `formatTime`'s divisions are exact integers and reals, so rounding of very large millisecond values is not modelled.
- Separate clock reads. The source reads `new Date()` separately for each tier and each cell; the model uses one `now` for the whole computation.
- Persistence and remote calls: zustand `persist`, immer's copy-on-write, `relapseAddiction`, `removeAddiction`, image upload. The remote outcome is the `remoteSucceeded` parameter, and whether a user is signed in is the `signedIn` parameter.
- Notification scheduling and the notification blacklist. They wrap a native library whose code is not part of this model.

**Inputs taken as parameters**
- `goalTimeDiffs` and `getLongestAbsence` are not part of this model. The goal table and the longest absence are parameters.
- `AchievementManager` and `GoalManager`, created by the `Addiction` constructor, are not part of this model.

**Rendering and display state**
- Display values: `dayProgress`, `frequencyMax`, `hexAlpha` alpha values and theme colours. The cell colour is the class `Transparent`/`RelapseDay`/`CleanDay`.
- `cellSize`, `cellMargin`, `fontSize`, `theme` and `invertColor`'s setters are plain state, with nothing to state beyond assignment.
- Memo staleness. `useMemo` caches until its dependencies change, and `now` is not one of them, so a cached result can lag the clock. The model recomputes at the given `now`.

**Modelling choices**
- `Timeline.Cells`: when `EndSaturday(DayOf(range end))` falls before `StartSunday(DayOf(range start))`, date-fns `eachDayOfInterval` throws (date-fns 2; later versions return the days newest first), while the model renders no cells. Some inverted ranges do not meet this condition; the source and the model both render them.
- `AchievementsNotifications.TriggerNotification`: the notification payload is reduced to an optional item id. `None` stands for a missing notification, a missing `data` object or a missing `addictionId`.
- `AddictionsStore.Merge`: a `Partial<Addiction>` that sets a non-nullable field explicitly to `undefined` would overwrite it with `undefined`. Here a patch field is either absent or a value of the field's type.
- `AddictionsStore.StoredAddiction`: the slice's item has `relapses` as a list of instants and a stored `lastRelapse`. Its `Date` fields are whole milliseconds (`int`).
- `AddictionsStore.CompareValues`: `localeCompare` is an uninterpreted parameter. No collation order is modelled, and string comparison is only related across directions.
- `Achievements.GetAchievements` requires every tier duration to be positive, as the goal table's durations are. With a zero duration the source would mark the tier achieved whenever either absence is non-negative, and would otherwise compute a `-Infinity` or `NaN` progress, which the model's exact reals cannot represent.
- `AddictionsStore.Store.RelapseOptimistically`, `AddictionsStore.Store.RemoveOptimistically`: the source runs the rollback in a `.catch` after an asynchronous remote call (src/components/screens/Addiction/Addiction.tsx:54-60, 67-73). Another store action, such as a second relapse, an `edit` or a `remove`, can run before it. The model runs the local action and the rollback back to back. Its failure-case contracts hold only when nothing runs in between.
- `Achievements.UseAchievements` states only its length in its own contract. Its meaning is stated by `Achievements.UseAchievementsAgrees`.
