# Chlorophyll plant-hydration model

A Dafny model of the hydration simulation of the Chlorophyll server. It covers:

- the history bookkeeping of the Chlorophyll server;
- the small list and state updates around the simulation;
- the status counts and category table of the admin routes.

Each plant ("tree") has these fields:

- a `waterLevel` in 0 .. 100;
- a `status` that is a function of the level: healthy at 60 and above, critical at 20 and below, thirsty in between;
- a `history` of `{val, date}` samples.

The modules follow the source files:

- `Models` (`models.dfy`): The Tree and User documents and the constants of `server/config/constants.js`. The Tree and User documents are classes whose fields the services assign. The module also holds the JavaScript primitives the services use: clamp, `Math.round`, and the minute bucket.
- `Chronology` (`chronology.dfy`): The date sort both offline scripts run first. It is a stable sort, proved sorted and a permutation.
- `OpenMeteo` (`open_meteo.dfy`): The classification of the `weathercode` (WMO code table 4677, present weather) into sunny, cloudy and rainy.
- `TreeService` (`tree_service.dfy`): The shared "apply delta" primitive: the status function and `addHistoryPoint`, with its one point per minute and its 50-entry cap. Also `waterTreeLogic`.
- `ZoneAggregator` (`zone_aggregator.dfy`): The grouping of trees into 0.1° zones.
- `WeatherService` (`weather_service.dfy`): The live probabilistic tick. This is the transition table, the per-tree clamp-and-record step, and the zone loop with its weather map.
- `Backfill` (`backfill.dfy`): The startup backfill, which appends ceil(missedTicks / 6) linearly declining points.
- `LegacyWeather` (`legacy_weather.dfy`): The older deterministic tick of `server/weatherService.js`. It uses a fixed change per category and a history of at most 25 points.
- `HistoryRepair`, `ScriptsHistoryRepair` (`history_repair.dfy`, `scripts_history_repair.dfy`): The gap-interpolation repair script, in two copies.
- `GraphCleanup`, `ScriptsGraphCleanup` (`graph_cleanup.dfy`, `scripts_graph_cleanup.dfy`): The same-minute de-duplication script, in two copies.
- `GameService` (`game_service.dfy`): XP, level and badges.
- `Adoption` (`adoption.dfy`): The adopt/abandon toggle.
- `TreeStore` (`tree_store.dfy`): The client store: `updateTree`, the analytics merge and `myTrees`.
- `AdminStats` (`admin_stats.dfy`): The admin statistics: status counts, average level and the per-category table.

## Conventions

- **Record mutation.** Code that mutates documents in place is modelled with methods on the `Tree` and `User` classes. Each method's `ensures` ties the new `State()` to a specification function of the old one. Lemmas then prove the promised properties of that function.
- **Inputs from outside.** These values are parameters:
  - the random draw;
  - "now";
  - the local hour;
  - the count of water actions;
  - the forecast and reverse-geocoding answers.
- **Numbers.**
  - Levels and sample values are `real`, because the backfill writes two-decimal values.
  - Timestamps are integer milliseconds.
  - The minute bucket is `ts / 60000`.
  - `Math.round(x)` is `Floor(x + 0.5)`.
- **Repeated constants.** The two weather services keep their own copies of the status thresholds. Each copy is proved equal to `TreeService.CalculateStatus`.
- **Missing weathercode.** A forecast body with `current_weather` but no `weathercode` classifies as rainy in both services. Both comparisons with `undefined` are false, so the code falls through to rainy.
- **Behaviours worth knowing about:**
  - The backfill does not go through the minute-merge rule of `addHistoryPoint` (server/services/treeService.js:11-35). It pushes its points directly and then keeps the last 100 entries, not 50 (server/services/weatherService.js:73-83).
  - The legacy tick appends a point on every tick, even when the level does not change (server/weatherService.js:99-103).
  - The adopt toggle (server/routes/users.js:52-57) removes the first occurrence of a present id and appends an absent one. Applied twice to an absent id it restores the list (`Adoption.ToggleTwiceAbsent`). Applied twice to a present id it moves that id to the end (`Adoption.ToggleTwicePresent`), so the list comes back unchanged only when the id was already last.

## Model

| member | source | states |
|---|---|---|
| `Models.ActionValue` | server/config/constants.js:6-15 | The care gain is the category's ACTION_VALUES entry, 20 for an unknown category, always within 15 .. 40 |
| `Models.Clamp` | server/services/treeService.js:49 | The clamped level lies in 0 .. 100, equals the input inside that range and the nearer bound outside it |
| `Chronology.SortByDate` | server/cleanupGraph.js:22 | The sorted history is in ascending date order and is a permutation of the input |
| `Chronology.SortStable` | server/cleanupGraph.js:22 | The sort is stable: for every date, the entries carrying it appear in the same relative order before and after sorting |
| `Chronology.SortSortedIsIdentity` | server/scripts/cleanupGraph.js:22 | Sorting a history already in date order leaves it unchanged |
| `OpenMeteo.ClassifyCode` | server/services/weatherService.js:128-131 | Code ≤ 1 is sunny, 2 .. 48 cloudy, above 48 rainy (each direction of each case) |
| `OpenMeteo.ClassifyField` | server/weatherService.js:52-62 | A missing code classifies as rainy, a present one by the code ranges |
| `OpenMeteo.ClassifyCodeMonotone` | server/services/weatherService.js:129-131 | A higher code never gives a drier category |
| `TreeService.CalculateStatus` | server/services/treeService.js:4-8 | Healthy iff level ≥ 60, thirsty iff 20 < level < 60, critical iff level ≤ 20 |
| `TreeService.CapHistory` | server/services/treeService.js:34 | Only the oldest entry is ever dropped, and a history of at most 51 entries comes out with at most 50 |
| `TreeService.MergeSameMinute` | server/services/treeService.js:12-28 | A sample in the same minute as the last entry keeps the length, replaces the last entry and leaves the earlier ones alone |
| `TreeService.MergeNewMinute` | server/services/treeService.js:29-34 | A sample in a new minute, or on an empty history, is appended as the last entry; a full history loses only its oldest entry |
| `TreeService.MergeInvariant` | server/services/treeService.js:26-34 | After a merge the history holds at most 50 entries when it did before, and ends with the recorded sample |
| `TreeService.MergeKeepsOnePerMinute` | server/services/treeService.js:11-35 | The merge never creates two neighbouring entries in the same minute |
| `TreeService.AddHistoryPoint` | server/services/treeService.js:11-35 | The in-place update leaves the history equal to the merge of the old one and changes no other field |
| `TreeService.HealthGain` | server/services/treeService.js:45 | The gain is the explicit amount when given, otherwise the category's action value, 20 by default |
| `TreeService.WateredStateValid` | server/services/treeService.js:47-57 | A care action leaves the level at clamp(old + gain) within 0 .. 100, the status derived from it, the history within 50 entries and ending with (newLevel, now) |
| `TreeService.WaterTreeLogic` | server/services/treeService.js:37-61 | A missing tree is an error and nothing changes; otherwise wasCritical iff the old level ≤ 20, and the tree takes the watered state |
| `ZoneAggregator.GroupingKeys` | server/services/weatherService.js:100-104 | The groups' keys are exactly the visit order's keys, each listed once |
| `ZoneAggregator.GroupingMembers` | server/services/weatherService.js:102-108 | Each group lists exactly the ids of the trees in its zone, in encounter order, and sits at the first member's coordinate; a key with no group has no member |
| `ZoneAggregator.MembersOfIn` | server/services/weatherService.js:98-108 | An id is listed for a zone iff a tree with that id has a truthy latitude and lies in that zone |
| `ZoneAggregator.AnchorIsFirst` | server/services/weatherService.js:102-104 | A zone's coordinate is that of the first tree met in it |
| `ZoneAggregator.GroupByZone` | server/services/weatherService.js:97-109 | The grouping loop builds exactly the reference grouping |
| `WeatherService.CalculateStatus` | server/services/weatherService.js:10-14 | The service's own thresholds agree with the shared status function |
| `WeatherService.ChancesFor` | server/services/weatherService.js:16-25 | The category's row, the default row for unknown categories, all chances within 0 .. 1 |
| `WeatherService.ChangeAmount` | server/services/weatherService.js:27-29 | +3 under rain, −1 under sun or clouds |
| `WeatherService.RainIsCertain` | server/services/weatherService.js:17-24 | Every category except succulent changes with chance 1.0 under rain |
| `WeatherService.TickLevelSpec` | server/services/weatherService.js:147-158 | A level changes iff the draw is within the chance and the clamped value differs, and only by the table amount clamped to 0 .. 100 |
| `WeatherService.RainRaisesLevel` | server/services/weatherService.js:150-156 | Under rain every non-succulent tree below 100 goes to min(level + 3, 100) whatever the draw, and a full one is left unchanged |
| `WeatherService.TickStateSpec` | server/services/weatherService.js:154-165 | An unchanged level leaves the record alone; a change sets the level, its status and a last sample (newVal, now), and keeps the history within 50 |
| `WeatherService.TickPreservesConsistent` | server/services/weatherService.js:154-163 | A tick keeps the level in range, the status derived from it and the history within 50 |
| `WeatherService.TickTree` | server/services/weatherService.js:144-166 | The per-tree body leaves the tree in the tick's state and reports an update iff the level changed |
| `WeatherService.RecordLevel` | server/services/weatherService.js:159-163 | The write sets the level and status and pushes the sample, dropping the oldest beyond 50 |
| `WeatherService.ResolveWeather` | server/services/weatherService.js:123-133 | A failed request or a body without current_weather gives sunny, otherwise the classified code |
| `WeatherService.CurrentWeather` | server/services/weatherService.js:196 | The live service always reports sunny as its current weather |
| `WeatherService.WeatherMapSpec` | server/services/weatherService.js:135-136 | A key is in the weather map iff some zone maps to it, and it holds the weather of the last such zone |
| `WeatherService.WeatherMapCovers` | server/services/weatherService.js:115-136 | Every zone's key appears in the weather map |
| `WeatherService.Fetch` | server/services/weatherService.js:142 | The fetched documents are exactly the stored trees whose id is listed, without repeats when the stored trees have none |
| `WeatherService.FetchZone` | server/services/weatherService.js:142 | The documents fetched for a zone are exactly the located trees of that zone |
| `WeatherService.LocatedTreesGrouped` | server/services/weatherService.js:97-109 | Every tree with a location and a non-zero latitude belongs to some group |
| `WeatherService.RunZone` | server/services/weatherService.js:142-170 | The trees of a zone get the tick with the zone's weather and city; every other tree is untouched |
| `WeatherService.TickZone` | server/services/weatherService.js:144-170 | Every fetched tree gets the tick; the update count is zero iff no level changed |
| `WeatherService.ZoneStep` | server/services/weatherService.js:115-170 | One zone's pass returns its map key and weather and applies its tick to its own trees |
| `WeatherService.RunZones` | server/services/weatherService.js:111-171 | The zone loop builds the weather map and applies each zone's tick to exactly the trees of that zone |
| `WeatherService.WeatherSimulation.constructor` | server/services/weatherService.js:8 | The published weather map starts empty |
| `WeatherService.WeatherSimulation.LastWeatherMap` | server/services/weatherService.js:197 | Returns the last published weather map |
| `WeatherService.WeatherSimulation.ProcessGroupsWeather` | server/services/weatherService.js:92-187 | With no trees nothing is published; otherwise the map of zone weather replaces the published one, every located tree gets its zone's tick and every other tree is untouched |
| `Backfill.SunnyChance` | server/services/weatherService.js:63 | The backfill rate is the category's sunny chance (default row for unknown categories), within 0 .. 1 |
| `Backfill.CeilDiv` | server/services/weatherService.js:67 | The quotient is the least q with a ≤ q·b |
| `Backfill.Trunc` | server/services/weatherService.js:74 | A fractional date truncates to within one millisecond, to the floor for non-negative values |
| `Backfill.KeepLast` | server/services/weatherService.js:83 | At most the last 100 entries are kept, as a suffix, and a short history is unchanged |
| `Backfill.BackfillNoOp` | server/services/weatherService.js:55-66 | The backfill is a no-op iff the history is empty, at most two ticks were missed, or the total loss is 0 |
| `Backfill.SimValMonotone` | server/services/weatherService.js:75 | The running value never increases from one step to the next |
| `Backfill.Round2Monotone` | server/services/weatherService.js:76 | Rounding to hundredths preserves order |
| `Backfill.PointsShape` | server/services/weatherService.js:73-79 | Appended dates strictly increase from after the last sample, and values never increase and stay ≥ 0 |
| `Backfill.PlanSound` | server/services/weatherService.js:67-69 | ceil(missedTicks / 6) points, whose time steps add up to the elapsed time and whose losses add up to the total loss |
| `Backfill.BackfillPointsSpec` | server/services/weatherService.js:67-79 | Exactly ceil(missedTicks / 6) points are appended; dates strictly increase and the last is now; values are non-increasing and ≥ 0; the unrounded final value is max(lastVal − totalLoss, 0) |
| `Backfill.BackfilledStateSpec` | server/services/weatherService.js:80-83 | After a backfill the level is the last appended value with its status, lastWatered is now, and the history keeps its last 100 entries ending with the last point |
| `Backfill.AppendPoints` | server/services/weatherService.js:73-79 | The loop appends the planned points in order and returns the last one's value |
| `Backfill.StorePlan` | server/services/weatherService.js:73-83 | The plan's points are pushed, then the level, status, lastWatered and the 100-entry cut are applied |
| `Backfill.BackfillTree` | server/services/weatherService.js:54-86 | One tree is left in the backfilled state, and it is saved iff a backfill applied |
| `Backfill.FillMissingHistoryOnStart` | server/services/weatherService.js:47-90 | Every tree of the collection is left in its backfilled state |
| `LegacyWeather.CalculateStatus` | server/weatherService.js:13-17 | The legacy thresholds agree with the shared status function |
| `LegacyWeather.CoeffsFor` | server/weatherService.js:21-34 | The category's coefficients, or the default row; sun takes at least as much as clouds, clouds never add, rain always adds |
| `LegacyWeather.LegacyStepSpec` | server/weatherService.js:77-103 | New level = clamp(old + coeff), status follows it, and the new level is appended after dropping the oldest entry beyond 24 |
| `LegacyWeather.LegacyHistoryBounded` | server/weatherService.js:99-103 | Every tick adds exactly one point; the history stays within 25 when it was |
| `LegacyWeather.LegacyWeatherDirection` | server/weatherService.js:21-34 | Rain never lowers an in-range level; sun and clouds never raise it, and sun lowers at least as much as clouds |
| `LegacyWeather.TickLegacyTree` | server/weatherService.js:72-103 | The per-tree body takes the tree to the tick's state and reports whether level or status changed |
| `LegacyWeather.LegacySimulation.constructor` | server/weatherService.js:10 | The current weather starts sunny |
| `LegacyWeather.LegacySimulation.GetCurrentWeather` | server/weatherService.js:135-137 | Returns the last classification |
| `LegacyWeather.LegacySimulation.UpdateForest` | server/weatherService.js:40-125 | A response without current_weather returns early with nothing changed; otherwise the weather is set and every tree takes the tick |
| `HistoryRepair.GapPoints` | server/repairDatabase.js:38-52 | A gap ≤ 1.5 ticks gets no point; a longer one gets floor(diff / TICK_RATE) − 1 points |
| `HistoryRepair.RepairedLength` | server/repairDatabase.js:51-55 | Output length = input length + pointsAdded |
| `HistoryRepair.OriginalsKept` | server/repairDatabase.js:27-55 | Every original point appears in the output, in order, the first at the front and the last at the end |
| `HistoryRepair.GapPointsDates` | server/repairDatabase.js:43-44 | Inserted dates are current + j·TICK_RATE, strictly between the two neighbours |
| `HistoryRepair.GapPointsValues` | server/repairDatabase.js:40-49 | With whole-number neighbours, each inserted value lies between them |
| `HistoryRepair.RepairedSorted` | server/repairDatabase.js:27-55 | Over a sorted history, the repaired history is in date order |
| `HistoryRepair.RepairedHistorySpec` | server/repairDatabase.js:20-59 | Histories of fewer than 2 entries are untouched; others end up sorted and longer by exactly the added points |
| `HistoryRepair.RepairedKeepsEntries` | server/repairDatabase.js:22-55 | No original entry is lost |
| `HistoryRepair.AppendGap` | server/repairDatabase.js:43-52 | The inner loop pushes exactly the gap's interpolated points and counts them |
| `HistoryRepair.BuildRepaired` | server/repairDatabase.js:24-55 | The nested loops build the repaired history and count the added points |
| `HistoryRepair.RepairTree` | server/repairDatabase.js:20-60 | One tree: short histories are skipped, otherwise the history is sorted and replaced by the repaired one only when pointsAdded > 0 |
| `HistoryRepair.RepairHistory` | server/repairDatabase.js:19-60 | Every tree of the collection takes its repaired history |
| `ScriptsHistoryRepair.RepairHistory` | server/scripts/repairDatabase.js:14-50 | The scripts copy leaves every tree with the same repaired history as the root-level copy |
| `GraphCleanup.LastOfSpec` | server/cleanupGraph.js:33-35 | The kept entry of a minute lies in that minute, and no later entry shares it |
| `GraphCleanup.CollectSpec` | server/cleanupGraph.js:25-36 | The map's keys are the history's minutes, each inserted once, each holding the last entry of its minute |
| `GraphCleanup.CollectCount` | server/cleanupGraph.js:25-39 | The map has at most one key per entry, and exactly one per entry iff no two entries share a minute |
| `GraphCleanup.CollectOrdered` | server/cleanupGraph.js:22-39 | Over a sorted history, keys are first inserted in increasing order |
| `GraphCleanup.Values` | server/cleanupGraph.js:39 | The values come out one per key, in key insertion order |
| `GraphCleanup.DedupedSpec` | server/cleanupGraph.js:25-39 | At most one entry per minute survives; it is the last original entry of its minute; every minute stays represented; every survivor is original |
| `GraphCleanup.DedupedLength` | server/cleanupGraph.js:39-42 | The cleaned list is never longer than the input, as long iff the minutes are distinct, and in strictly increasing date order over a sorted input |
| `GraphCleanup.CleanedHistorySpec` | server/cleanupGraph.js:17-50 | Empty histories are skipped; otherwise the history is sorted, never grows, and shrinks iff two entries share a minute |
| `GraphCleanup.CollectEntries` | server/cleanupGraph.js:27-36 | The forEach fills the map with the reference buckets |
| `GraphCleanup.CleanupTree` | server/cleanupGraph.js:17-50 | One tree takes its cleaned history; the removed count is the decrease in length |
| `GraphCleanup.CleanupHistory` | server/cleanupGraph.js:13-51 | Every tree is cleaned; totalRemoved is 0 iff no history got shorter |
| `ScriptsGraphCleanup.CleanupHistory` | server/scripts/cleanupGraph.js:14-41 | The scripts copy cleans every tree the same way and reports 0 iff no history got shorter |
| `GameService.CodesDistinct` | server/services/gameService.js:39-58 | The five badge codes are different strings |
| `GameService.Candidates` | server/services/gameService.js:36-59 | FIRST_DROP always; GREEN_THUMB iff a level-up reaches ≥ 5; SAVER iff wasCritical; NIGHT_OWL iff hour ≥ 22 or < 5; VETERAN iff count ≥ 20 |
| `GameService.UnlockAll` | server/services/gameService.js:28-33 | Only codes not already held are reported, and they are appended to the badges; a duplicate-free list stays duplicate-free |
| `GameService.Dedup` | server/services/gameService.js:62 | The de-duplicated badges have the same members and no repeats, and a duplicate-free list is unchanged |
| `GameService.LevelUp` | server/services/gameService.js:22-38 | A new level is reported iff floor(xp / 100) + 1 exceeds the old level, and is that value |
| `GameService.BadgeRules` | server/services/gameService.js:28-62 | Afterwards there are no duplicate badges, held badges stay, each rule's badge is held iff it applied or was held, and only new codes are reported |
| `GameService.HandleUserAction` | server/services/gameService.js:4-70 | The result is null exactly for a guest, an empty id or a missing user, and then nothing changes; otherwise xp + 15, the level never decreases, newLevel is non-null iff it rose, the badges follow the rules and the adopted list is untouched |
| `GameService.UnlockCandidates` | server/services/gameService.js:36-59 | The five guarded unlocks act as unlocking the candidate codes in order |
| `GameService.UnlockBadge` | server/services/gameService.js:28-33 | A code is pushed and reported only when it is not already held |
| `Adoption.IndexOf` | server/routes/users.js:52 | −1 iff the id is absent, otherwise the position of its first occurrence |
| `Adoption.ToggleSpec` | server/routes/users.js:52-57 | An absent id is appended; a present one loses its first occurrence; all other entries keep their relative order |
| `Adoption.ToggleTwiceAbsent` | server/routes/users.js:52-57 | Toggling an absent id twice restores the list |
| `Adoption.ToggleTwicePresent` | server/routes/users.js:52-57 | On a duplicate-free list, toggling a present id twice moves it to the end, restoring the list iff it was last |
| `Adoption.Adopt` | server/routes/users.js:43-70 | A missing user is a 404 with no change; a null list counts as empty; the id is toggled and nothing else changes |
| `TreeStore.FindIndex` | client/src/stores/tree.js:40 | −1 iff no entry has the id, otherwise the first entry with it |
| `TreeStore.UpdatedSpec` | client/src/stores/tree.js:39-47 | An unknown id changes nothing; otherwise only the first match is replaced, the length and other entries are unchanged, and the old history is kept when the incoming tree has none |
| `TreeStore.MergeAllSpec` | client/src/stores/tree.js:22-35 | Matching trees keep every field except history, which comes from the analytics; unmatched analytics trees are appended in order |
| `TreeStore.KeepAdoptedSpec` | client/src/stores/tree.js:51 | The filter keeps exactly the store trees whose id is adopted |
| `TreeStore.MyTrees` | client/src/stores/tree.js:49-52 | Empty without a user or an adopted list; otherwise exactly the adopted store trees |
| `TreeStore.MyTreesAppend` | client/src/stores/tree.js:51 | The view distributes over concatenation, so it keeps store order |
| `TreeStore.Store.constructor` | client/src/stores/tree.js:7 | The store starts empty |
| `TreeStore.Store.UpdateTree` | client/src/stores/tree.js:39-47 | The list becomes the updated list of the old one |
| `TreeStore.Store.MergeAnalytics` | client/src/stores/tree.js:17-37 | A payload without allTrees changes nothing; otherwise the list becomes the merge of the old one |
| `TreeStore.Store.MyTreesView` | client/src/stores/tree.js:49-52 | The computed view is the myTrees filter of the current list |
| `AdminStats.CountStatus` | server/routes/admin.js:22-24 | A status count never exceeds the number of trees |
| `AdminStats.StatusCountsSum` | server/routes/admin.js:21-24 | Critical + thirsty + healthy = total |
| `AdminStats.AvgWater` | server/routes/admin.js:26-27 | round(sum / total), and 0 with no trees |
| `AdminStats.AvgWaterInRange` | server/routes/admin.js:26-27 | With every level in 0 .. 100 the average is in 0 .. 100 |
| `AdminStats.Stats` | server/routes/admin.js:57-65 | The /stats body: total = number of trees; each status field is the count of trees with that status, and the three sum to the total; avgWater is the rounded mean, within 0 .. 100 when the levels are |
| `AdminStats.CategoriesSpec` | server/routes/admin.js:30-36 | A category key is present iff some tree falls under it (a missing category counts as other); its counters count its trees overall and per status, and they sum to its total |
| `AdminStats.CategoryTotalsSum` | server/routes/admin.js:30-36 | The per-category totals add up to totalTrees |
| `AdminStats.GroupCategories` | server/routes/admin.js:30-36 | The forEach builds exactly the reference category table |

## Left out

- Network I/O is not modelled: the Open-Meteo forecast, the Nominatim reverse geocoding with its 1 s sleep, and the Groq call. The forecast and the geocoder are function parameters. Only the classification of the returned code is modelled.
- Persistence is not modelled: Mongoose queries, `save()` and the swallowed save error. Documents are in-memory objects. The model states what a pass leaves in each document, and returns the counters that decide whether it would be saved.
- `GraphCleanup.CleanupTree` and `HistoryRepair.RepairTree` describe the in-memory document. The sort is applied even when the tree is not saved; the database keeps the unsorted history in that case.
- `setInterval`, the socket broadcasts (`io.emit`) and the client socket wiring are left out. They are scheduling and push channels.
- `Math.random()`, `new Date()`, the local hour and `ActionLog.countDocuments` are inputs, not modelled sources.
- `Models.MinuteOf` uses whole minutes since the epoch. The source builds its minute key from local calendar fields, year to minute (server/services/treeService.js:17-21, server/cleanupGraph.js:31). The two agree except in the hour repeated when daylight-saving time ends. In that hour, two instants an hour apart share one local key.
  - `TreeService.MergePoint`: the source would treat such a pair as the same minute and overwrite the older sample. The model appends the new one.
  - `GraphCleanup.Collect`: the source would keep one entry for the pair, at the earlier one's position, so the cleaned history can leave date order. The model keeps both. `GraphCleanup.DedupedLength` and `GraphCleanup.CollectOrdered` therefore promise strict date order, which the source does not guarantee across that hour.
- `ZoneAggregator.ToFixed1` models `toFixed(1)` on exact reals, with ties rounding up. IEEE-754 rounding differences are not modelled.
- `Backfill.Round2` models `Math.round(x * 100) / 100` on exact reals. Floating-point error is not modelled.
- The `mainWeather` proximity check for Bologna and the `weather_update` broadcast it feeds are left out. They are broadcast only.
- `fetchCityName` answers are a function parameter. The `'Zona Sconosciuta'` fallback and the null on failure are folded into it.
- The UI stores, router and entry points are left out. So are the seed script, the database-only routes (groups, trees, login, leaderboard, avatar) and the `ActionLog.create` call.
- The MONGO_URI checks, connection handling and `process.exit` of the repair and cleanup scripts are left out.
- The record types follow the fields the services use, not only the schemas: the Tree schema (server/models/Tree.js) declares neither `history` nor `city`, and the User schema (server/models/User.js) does not declare `adoptedTrees`; all three are read and written by the code. Mongoose range and enum validation is not enforced on save.
- `OpenMeteo.ClassifyField`: `None` stands for a `weathercode` that is absent, which classifies as rainy. A JSON `null` code is not modelled separately: the source compares `null <= 1` as true and would classify it as sunny (server/weatherService.js:56, server/services/weatherService.js:129).
