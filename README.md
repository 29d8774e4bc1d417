# Workout plan scheduler — a Dafny model

The repository generates weekly workout plans from an exercise catalog. It first keeps
the exercises a user may do, by fitness level and by the equipment at hand. It groups
the survivors into per-muscle pools in catalog order. It then fills each training day
with exercises for the muscles the chosen split (full body "FB" or A/B "AB") lists for
that day.

This project models the scheduler's core and proves what it promises:

- **Round-robin planner** (`src/bfs_algorithm.py`). One pointer per muscle is shared by
  all days. Each listed muscle takes `pool[pointer mod |pool|]` as many times as its quota
  says, advancing the pointer each time. Modules `Exercises`, `Splits`, `Slots` and
  `RoundRobin` hold the model; module `PlanProperties` holds the properties.
- **Legacy reserve/refill planner** (`newBFS.py`). Each muscle has a deque reserve and a
  used set. A listed muscle takes up to two unused names from the reserve. When that
  gives fewer than two, the used set is reset and the reserve is refilled from the pool.
  Module `Legacy` models it as the loops it is and proves the main theorem:
  on a catalog with unique names, the legacy planner is the round-robin algorithm with
  quota `Cap(pool)` = `min(2, |pool|)` for every listed muscle. Against a quota of two it
  differs only on one-exercise pools, which it serves once instead of twice. Against the
  current planner it also differs for every muscle whose table quota is 1 (triceps,
  shoulders, core, biceps): with two or more eligible exercises such a muscle gets two a
  day from the legacy planner and one from the current one.
- **Alternatives finder** (`find_exercise_alternatives` in `src/streamlit_app.py`). It
  collects the other eligible exercises for the same muscle, in catalog order, stably
  sorts them by the key `(same level ? 0 : 1, -shared equipment)` and keeps the first five.
  Module `Alternatives` models it. It proves that insertion sort by that key is sorted,
  a permutation and stable. It also proves that a sorted list is determined by its
  per-key order, so every stable sort, Python's among them, gives the same result.
- **Plan edit** (`src/streamlit_app.py`). Picking an alternative replaces the first
  occurrence of the exercise in that day's list, in place. Module `PlanEdit` models the
  day list as an array.
- **Location presets** (`src/streamlit_app.py`). Each workout location pre-selects a
  list of equipment. Module `Locations` models the table.

The catalog is a sequence of `(name, record)` entries in dictionary order. The
dictionary's unique keys become the precondition `DistinctNames`. Levels are a datatype
with `LevelIndex` giving the position in `['beginner', 'intermediate', 'advanced']`.
Splits are `FB | AB | Other`.

## Model

| member | source | states |
|---|---|---|
| Exercises.LevelIndex | src/bfs_algorithm.py:21-22 | a level's position in the three-level list is below 3 |
| Exercises.Lookup | src/streamlit_app.py:481-484 | `name in exercises` fails exactly when no entry has the name; otherwise the record returned is stored under that name |
| Exercises.LevelAllowed | src/bfs_algorithm.py:10-22 | allowed exactly when the exercise is for beginners, the user is advanced, or the levels are equal: the index comparison written case by case |
| Exercises.Eligible | src/bfs_algorithm.py:125-126 | the comprehension's condition holds exactly when the exercise's level index is not above the user's and every required item is in the user's list |
| Exercises.EquipmentAllowed | src/bfs_algorithm.py:25-36 | true exactly when every required item is in the user's list |
| Exercises.Available | src/bfs_algorithm.py:123-127 | the filtered catalog holds exactly the catalog entries that pass both the level and the equipment test; AvailableAppend states that it keeps catalog order |
| Exercises.AvailableSnoc | src/bfs_algorithm.py:123-127 | one more catalog entry is appended to the filtered catalog exactly when it is eligible |
| Exercises.AvailableAppend | src/bfs_algorithm.py:123-127 | the filter keeps catalog order: filtering a concatenation is filtering each part, so every kept entry appears once, in catalog order |
| Exercises.AvailableOne | src/bfs_algorithm.py:123-127 | a single entry is kept exactly when it is eligible |
| Exercises.AvailableDistinct | src/bfs_algorithm.py:123-127 | filtering keeps dictionary keys unique |
| Exercises.LevelAllowedOrder | newBFS.py:75-77 | the level test is reflexive, total, antisymmetric and transitive |
| Exercises.EquipmentAllowedMonotone | newBFS.py:79-80 | an exercise without equipment always passes, and more user equipment never excludes an exercise |
| Splits.MuscleGroups | src/bfs_algorithm.py:39-58 | every listed muscle is one of the seven full-body muscles, and the list is empty exactly for an unknown split |
| Splits.MuscleGroupsDistinct | src/bfs_algorithm.py:39-58 | no muscle is listed twice on one day |
| Splits.MuscleQuotas | src/bfs_algorithm.py:61-96 | FB and AB tables cover exactly the seven full-body muscles with quotas 1 or 2; an unknown split has an empty table |
| Splits.QuotaFor | src/bfs_algorithm.py:151 | `quotas.get(muscle, 1)`: a table value, or 1 for a muscle missing from the table |
| Splits.QuotaTable | src/bfs_algorithm.py:61-96 | with the `get(muscle, 1)` default, chest, back and legs get 2 and every other muscle 1 under FB and AB; an unknown split gives every muscle 1 |
| Splits.QuotaTablesAgree | src/bfs_algorithm.py:72-94 | the FB and AB quota tables are equal and cover exactly the seven full-body muscles |
| Splits.MuscleGroupsPeriodic | src/bfs_algorithm.py:50-58 | the muscle list repeats every day under FB, every second day under AB, and is empty for an unknown split |
| Splits.ABCoversFullBody | src/bfs_algorithm.py:50-56 | two consecutive AB days train exactly the full-body muscles, and core is trained every day |
| Slots.Slot | src/bfs_algorithm.py:168 | the selected slot lies inside the pool |
| Slots.SlotIsMod | src/bfs_algorithm.py:168 | the slot is `pointer % pool_size` |
| Slots.SlotSucc | src/bfs_algorithm.py:168-172 | advancing the pointer moves to the next slot, wrapping after the last |
| Slots.SlotAdvance | src/bfs_algorithm.py:168-172 | fewer than `pool_size` steps wrap at most once |
| Slots.SlotsDiffer | src/bfs_algorithm.py:168-172 | `pool_size` consecutive pointer values select pairwise different slots |
| RoundRobin.PoolMap | src/bfs_algorithm.py:130-132 | a muscle has a key only once its pool is non-empty |
| RoundRobin.Run | src/bfs_algorithm.py:163-174 | a run has `count` picks, or none from an empty pool |
| RoundRobin.PoolMapIsPool | src/bfs_algorithm.py:130-132 | the grouping loop's list for a muscle is the catalog-ordered list of names training it |
| RoundRobin.BuildPools | src/bfs_algorithm.py:129-132 | the pool-building loop yields those catalog-ordered pools |
| RoundRobin.RunStep | src/bfs_algorithm.py:163-174 | one more pick appends the pool entry at the pointer |
| RoundRobin.SelectRoundRobin | src/bfs_algorithm.py:159-174 | the quota loop picks the run from the muscle's pointer, returns `quota` names, advances that pointer by `quota` and no other |
| RoundRobin.PlanDay | src/bfs_algorithm.py:146-178 | one day's loop, empty pools skipped, yields that day's plan and leaves each pointer at the picks made for its muscle so far |
| RoundRobin.SelectPlan | src/bfs_algorithm.py:141-180 | the day loop, pointers starting at 0 and shared by all days, yields the round-robin week |
| RoundRobin.GeneratePlan | src/bfs_algorithm.py:99-180 | exactly `days` day lists (none for `days <= 0`), equal to the round-robin week over the filtered catalog's pools |
| PlanProperties.Picks | src/bfs_algorithm.py:176 | one muscle's share of a plan is no longer than the plan |
| PlanProperties.PicksAppend | src/bfs_algorithm.py:176 | a share of concatenated lists is the concatenation of the shares |
| PlanProperties.RunIndex | src/bfs_algorithm.py:168-169 | pick `i` of a run is the pool entry at slot `start + i` |
| PlanProperties.RunInPool | src/bfs_algorithm.py:169 | every pick is from the pool |
| PlanProperties.RunJoin | src/bfs_algorithm.py:172 | two runs back to back, the second starting where the first left the pointer, are one run |
| PlanProperties.RunDistinct | src/bfs_algorithm.py:163-174 | no more picks than the pool has repeat nothing |
| PlanProperties.PoolMembers | src/bfs_algorithm.py:130-132 | a pool holds exactly the names of the entries training its muscle |
| PlanProperties.PoolEntry | src/bfs_algorithm.py:130-132 | with unique keys, a pooled name's entry trains that pool's muscle |
| PlanProperties.PoolsDisjoint | src/bfs_algorithm.py:130-132 | with unique keys, two muscles never share a name |
| PlanProperties.PoolDistinct | src/bfs_algorithm.py:130-132 | with unique keys, a pool lists each name once |
| PlanProperties.PoolMapSeparated | src/bfs_algorithm.py:129-132 | the grouped pools are disjoint and duplicate-free |
| PlanProperties.ListedPicksDistinct | src/bfs_algorithm.py:150-157 | a muscle listed once a day is served its quota if its pool is non-empty, nothing otherwise |
| PlanProperties.SegmentPicks | src/bfs_algorithm.py:150-176 | one listed muscle adds to a muscle's share a run of its quota from its pointer, or nothing if it is another muscle |
| PlanProperties.DayPicks | src/bfs_algorithm.py:146-176 | within a day a muscle's picks are one run from where its pointer stood that morning |
| PlanProperties.WeekPicks | src/bfs_algorithm.py:141-178 | a muscle's picks over the first days, in plan order, are one run from slot 0 |
| PlanProperties.DayPlanPicks | src/bfs_algorithm.py:146-176 | a whole day's share of a muscle is one run from its morning pointer |
| PlanProperties.RunRotation | src/bfs_algorithm.py:163-172 | pick `k` is `pool[k % |pool|]`, and pick `|pool|` equals pick 0 |
| PlanProperties.RunVariety | src/bfs_algorithm.py:163-172 | on a duplicate-free pool the first `|pool|` picks differ, and then every entry has been picked |
| PlanProperties.RunCovers | src/bfs_algorithm.py:163-172 | at least `|pool|` picks cover the pool |
| PlanProperties.RotationOrder | src/bfs_algorithm.py:141-178 | over the week a muscle's `k`-th pick is `pool[k % |pool|]`; the first `|pool|` differ, all are used before a repeat, and pick `|pool|` is pick 0 |
| PlanProperties.DayQuota | src/bfs_algorithm.py:150-176 | a day gives a listed muscle with a non-empty pool exactly its quota, an unlisted or empty one nothing, without repeats when the pool is large enough |
| PlanProperties.DayLength | src/bfs_algorithm.py:150-176 | a day's length is the sum of its listed muscles' effective quotas |
| PlanProperties.DaySound | src/bfs_algorithm.py:150-176 | every name in a day's plan is from the pool of a muscle listed that day |
| PlanProperties.WeekPlanDay | src/bfs_algorithm.py:138 | day `d` of the week is planned from the split's list for day `d + 1` |
| PlanProperties.PlanSound | src/bfs_algorithm.py:123-180 | every planned exercise is in the catalog, passes both filters, and trains a muscle listed that day |
| PlanProperties.PlanDayQuota | src/bfs_algorithm.py:135-176 | per day, a listed muscle with eligible exercises gets exactly its quota, others none; no repeat within the day when the pool is at least the quota |
| PlanProperties.PlanRotation | src/bfs_algorithm.py:141-178 | across the plan a muscle's `k`-th exercise is `pool[k % |pool|]` of its catalog-ordered pool |
| PlanProperties.FullBodyDaySize | src/bfs_algorithm.py:72-82 | with every full-body muscle represented, an FB day has 10 exercises |
| PlanProperties.FullBodyShares | src/bfs_algorithm.py:72-82 | under FB the first three listed muscles get two picks, the others one |
| PlanProperties.FullBodySum | src/bfs_algorithm.py:72-82 | the FB quotas add up to 10 |
| Legacy.LegacyMuscleGroups | newBFS.py:119-126 | None exactly for an unknown split; otherwise the same lists as the current planner |
| Legacy.Drain | newBFS.py:147-151 | the first loop chooses at most two names in total and never drops one already chosen |
| Legacy.Fill | newBFS.py:157-161 | the refill loop chooses at most two names in total and never drops one already chosen |
| Legacy.Choose | newBFS.py:144-164 | one muscle's step chooses at most two names |
| Legacy.ChooseExercises | newBFS.py:144-164 | the two while loops over the deque compute that step: the chosen names, the deque left over and the new used set |
| Legacy.DrainShape | newBFS.py:147-151 | the first loop keeps the names chosen before, leaves a suffix of the reserve, and empties the reserve when it falls short |
| Legacy.DrainFresh | newBFS.py:147-151 | the names it adds come from the reserve and were not used |
| Legacy.DrainDistinct | newBFS.py:147-151 | the names it adds are pairwise different |
| Legacy.DrainUsed | newBFS.py:149-151 | the used set grows by exactly the names it adds |
| Legacy.FillShape | newBFS.py:157-161 | the refill keeps the names chosen before and leaves a suffix of the pool's copy |
| Legacy.FillFresh | newBFS.py:157-161 | the names it adds come from the pool and were not chosen before |
| Legacy.FillDistinct | newBFS.py:157-161 | the names it adds are pairwise different |
| Legacy.FillUsed | newBFS.py:155-161 | the used set grows by exactly the names it adds |
| Legacy.ChooseDistinct | newBFS.py:144-165 | from any state, a muscle's names on one day are at most two, pairwise different, and from its reserve or pool |
| Legacy.ChooseDrained | newBFS.py:147-151 | while the reserve lasts only unused reserve names are taken; a full drain keeps the rest of the reserve and adds the two names to the used set |
| Legacy.ChooseRefill | newBFS.py:153-162 | on refill the drained names stay first, the used set holds only the refill's names, and the rest of the pool's copy is the new reserve |
| Legacy.Cap | newBFS.py:147-161 | the per-muscle count is 1 or 2 and fits the pool exactly when the pool is non-empty |
| Legacy.ChooseTracks | newBFS.py:144-164 | on a duplicate-free pool whose state is in step with a round-robin pointer, the step chooses the next `Cap(pool)` round-robin picks and stays in step |
| Legacy.ChooseTracksFull | newBFS.py:147-151 | two or more reserve names: both come from the reserve, in pool order |
| Legacy.ChooseTracksLast | newBFS.py:147-162 | one reserve name: it and the pool's first name, and the rest of the pool becomes the reserve |
| Legacy.ChooseTracksEmpty | newBFS.py:153-162 | an empty reserve: the pool's first two names |
| Legacy.ChooseTracksSingle | newBFS.py:144-164 | a one-name pool: that name once |
| Legacy.LegacyQuotaFor | newBFS.py:147-161 | the legacy count of a muscle is `Cap` of its pool, and nothing for an empty pool |
| Legacy.StepTracksOthers | newBFS.py:143-164 | serving one muscle leaves every other muscle's reserve, used set and pointer as they were |
| Legacy.LegacyStep | newBFS.py:143-165 | one listed muscle extends the day by its round-robin run and keeps every muscle in step |
| Legacy.LegacyPlanDay | newBFS.py:142-166 | one day's loop yields that day of the round-robin week with `Cap` quotas and keeps every muscle in step for the next day |
| Legacy.LegacySelectPlan | newBFS.py:137-167 | on duplicate-free pools, the legacy day loop equals the round-robin week with quota `Cap(pool)` per muscle |
| Legacy.LegacySchedule | newBFS.py:136 | the legacy muscle lists form the same schedule as the current planner's |
| Legacy.GenerateLegacyPlan | newBFS.py:128-167 | fails (TypeError) exactly for an unknown split with at least one day; otherwise gives the `Cap` round-robin week over the filtered catalog |
| Legacy.LegacyDayQuota | newBFS.py:143-165 | per day, a listed muscle gets `min(2, |pool|)` exercises, pairwise different; an unlisted one none |
| Legacy.LegacySound | newBFS.py:129-134 | every planned exercise is in the catalog, passes both filters, and trains a muscle listed that day |
| Legacy.LegacyRotation | newBFS.py:137-164 | across the plan a muscle's `k`-th exercise is `pool[k % |pool|]`: its picks follow pool order and use every exercise before any repeats |
| Legacy.SingletonContrast | newBFS.py:144-164 | with a one-exercise pool the legacy step gives it once where a round-robin quota of two gives it twice |
| Legacy.QuotaOneContrast | newBFS.py:143-165 | a listed muscle outside chest, back and legs with at least two eligible exercises gets two a day from the legacy planner and one from the current one |
| Alternatives.RankLeOrder | src/streamlit_app.py:511-517 | the tuple order on sort keys is a total order |
| Alternatives.Overlap | src/streamlit_app.py:511-514 | the shared-equipment count is 0 when nothing is shared and the original's distinct item count when all its items are shared |
| Alternatives.RankOf | src/streamlit_app.py:511-515 | the first key part is 0 exactly for the original's level and otherwise 1; the second is never positive |
| Alternatives.IsAlternative | src/streamlit_app.py:489-506 | the four `continue` tests (itself, other muscle, level too high, equipment not a subset), all passed; its meaning is stated by IsAlternativeEligible |
| Alternatives.IsAlternativeEligible | src/streamlit_app.py:489-506 | the candidate tests are "another exercise, same muscle" plus the planners' eligibility filter |
| Alternatives.Matches | src/streamlit_app.py:488-508 | the candidate list holds exactly the catalog entries passing the four tests; MatchesAppend states that it keeps catalog order |
| Alternatives.MatchesSnoc | src/streamlit_app.py:488-508 | one more catalog entry is appended to the candidates exactly when it passes the tests |
| Alternatives.MatchesAppend | src/streamlit_app.py:488-508 | the candidate list keeps catalog order: collecting over a concatenation collects each part |
| Alternatives.MatchesOne | src/streamlit_app.py:488-508 | a single entry is a candidate exactly when it passes the four tests |
| Alternatives.CollectCandidates | src/streamlit_app.py:488-508 | the candidate loop appends those entries in catalog order |
| Alternatives.Decorate | src/streamlit_app.py:510-515 | each candidate's key is computed once from its record, position by position, as `sort(key=...)` does |
| Alternatives.Insert | src/streamlit_app.py:517 | inserting adds one element |
| Alternatives.SortByRank | src/streamlit_app.py:517 | the sort keeps the number of candidates; SortSorted, SortPermutes and SortStable state it is sorted, a permutation and stable |
| Alternatives.SortSorted | src/streamlit_app.py:517 | the sort orders candidates by ascending key |
| Alternatives.SortPermutes | src/streamlit_app.py:517 | the sort rearranges the candidates without adding or losing any |
| Alternatives.SortStable | src/streamlit_app.py:517 | candidates with equal keys keep their catalog order |
| Alternatives.SortedUnique | src/streamlit_app.py:517 | two sorted lists with the same order within each key are equal |
| Alternatives.StableSortIsSortByRank | src/streamlit_app.py:517 | any sorted rearrangement keeping each key's order is the modelled sort |
| Alternatives.TopFive | src/streamlit_app.py:518 | `[:5]` keeps the first `min(5, n)` elements |
| Alternatives.Ranked | src/streamlit_app.py:481-518 | at most five ranked candidates, none for an unknown exercise |
| Alternatives.Alternatives | src/streamlit_app.py:466-518 | at most five names, none for an unknown exercise; AlternativesSound, AlternativesRanked and AlternativesComplete state the rest |
| Alternatives.FindAlternatives | src/streamlit_app.py:466-518 | the finder returns the names of the first five stably sorted candidates, or nothing for an unknown exercise |
| Alternatives.AlternativesUnknown | src/streamlit_app.py:481-482 | an exercise missing from the catalog has no alternatives |
| Alternatives.AlternativesSound | src/streamlit_app.py:488-506 | every alternative is another catalog exercise for the same muscle that the user's level and equipment allow |
| Alternatives.AlternativesRanked | src/streamlit_app.py:510-518 | `min(5, candidates)` results in ascending key order, the head of the full stable sort, ties in catalog order |
| Alternatives.AlternativesComplete | src/streamlit_app.py:517-518 | with at most five candidates every one of them is offered |
| PlanEdit.FirstIndex | src/streamlit_app.py:671-672 | None exactly when the exercise is absent; otherwise the position of its first occurrence |
| PlanEdit.ReplaceFirst | src/streamlit_app.py:671-673 | the edited list has the same length, holds the alternative if the exercise was there, and gains no name other than the alternative |
| PlanEdit.ReplaceFirstEffect | src/streamlit_app.py:671-673 | the edit keeps the length, changes only the first occurrence to the alternative, and nothing when the exercise is absent |
| PlanEdit.ReplaceFirstCount | src/streamlit_app.py:671-673 | one occurrence of the exercise is traded for one of the alternative |
| PlanEdit.ReplaceFirstTwice | src/streamlit_app.py:671-673 | after an edit, the next occurrence of the exercise lies after the replaced position |
| PlanEdit.FindFirst | src/streamlit_app.py:671-672 | the scan returns the first occurrence, or None |
| PlanEdit.ReplaceExercise | src/streamlit_app.py:669-675 | the day list changes in place exactly as the first-occurrence edit says |
| Locations.DefaultEquipment | src/streamlit_app.py:339-365 | each preset names offered equipment (never "none") without repeats; an unknown location gets none |
| Locations.PresetChains | src/streamlit_app.py:339-365 | bodyweight only ⊆ travel ⊆ outdoor ⊆ home and limited gym ⊆ well-equipped gym; home is not within the well-equipped gym |
| Locations.WithinKeepsEligible | src/streamlit_app.py:339-365 | a location whose presets include another's never loses an eligible exercise |

## Left out

- User interface, CSS, page navigation, PDF export, graph plotting, authentication,
  persistence, JSON loading, console prompts and printing: presentation and I/O.
- Python's `ValueError` for a level string outside the three known levels: levels are a
  datatype, so an unknown level cannot be passed.
- A record without an `equipment` key (`ex.get('equipment', [])`): records always carry
  an equipment sequence, so a missing key is the empty sequence.
- Dictionary keys are unique: the model states this as the precondition
  `DistinctNames` wherever uniqueness is used.
- Alternatives.FindAlternatives: Python's in-place `list.sort` (Timsort) is modelled as
  a value function, a stable insertion sort on the candidates with their keys computed
  once. `Alternatives.StableSortIsSortByRank` shows that every stable sort by the same
  key gives the same list, so the sorting algorithm itself does not matter.
- Alternatives.FindAlternatives: the sort key looks the record up by name; with unique
  keys that is the candidate's own record, which the model uses directly.
- PlanEdit.ReplaceExercise: the `st.session_state` plan holding the day list, and the
  rerun after the edit, are left out; the edited day list is the method's array, and
  no other day can change because nothing else is in its `modifies` clause.
- Legacy.LegacySelectPlan: the equality with the round-robin week is stated for pools
  without repeated names, which unique catalog keys guarantee. The per-muscle deques
  aliased between `reserve` and `reserve_per_muscle` are modelled as sequences stored
  back after each step, which has the same effect.
- Legacy.GenerateLegacyPlan: the TypeError raised when iterating a day list of None is
  returned as `None`; the partial output before the failure is not modelled.
- The `prerequisites` graph and the sets/reps table: they are display data only.
