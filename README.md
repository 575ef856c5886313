# Timetable engine: a Dafny model

This project models the core of a university timetabling server in Dafny. The core has three parts.

1. **The genetic-algorithm scheduler.** It fills a 5-day × 8-slot week grid with randomly drawn
   courses and rooms and scores each candidate timetable by its violations: room clashes,
   instructor clashes, capacity shortfalls, and 10 for each empty slot. Fitness is
   `1 / (violations + 1)`. The scheduler then evolves a population of 50 candidates for 100
   generations. Each generation uses roulette-wheel selection, uniform per-cell crossover and
   per-cell mutation, and keeps the two best candidates unchanged.
2. **Conflict detection and repair.** A pairwise scan of a stored timetable emits
   `{type, slots: [i, j]}` records. An external solver's resolutions are then applied to the
   second slot of each conflict. Two first-fit searches are also modelled: a free room for a
   slot, and a new cell for a class taken from its instructor's availability.
3. **Two schedule HTTP handlers.** `GET /latest` lays the stored timetable over a full
   7-day × 9-slot grid and fills the holes with empty cells. `POST /resolve-conflict` applies a
   manual room change or reschedule to one stored entry.

Every `Math.random()` call becomes an explicit input with a range precondition. A course or room
index is a `nat` drawn for a list of length `n` (`Drawn`). A crossover coin or a mutation flag
is a `bool`. A roulette spin is a `real` in `[0, 1)`. The store is not modelled: the catalogs,
the stored schedule and the instructor's availability are parameters, and a save is the
returned or updated value. The stored document is the `ScheduleDoc` class; the operations that
edit it in place are methods taking a `ScheduleDoc`, with `modifies` clauses. Building a document
gives every timetable entry a subdocument id; those ids are an explicit input too.

Modules, one per file:

| file | module | contents |
|---|---|---|
| `entities.dfy` | `Entities` | entries, schedules, the `ScheduleDoc` class, the 5 × 8 grid |
| `genetic_grid.dfy` | `GeneticGrid` | `generateRandomSchedule` |
| `genetic_fitness.dfy` | `GeneticFitness` | `calculateFitness` |
| `genetic_operators.dfy` | `GeneticOperators` | selection, crossover, mutation, sort by fitness |
| `genetic_loop.dfy` | `GeneticLoop` | `generateSchedule` |
| `conflict_resolution.dfy` | `ConflictResolution` | `resolveConflicts`, `findAvailableRoom`, `rescheduleClass` |
| `schedule_routes.dfy` | `ScheduleRoutes` | the `/latest` and `/resolve-conflict` handlers |

## Model

| member | source | states |
|---|---|---|
| Entities.ScheduleDoc.constructor | server/models/Schedule.js:3-19 | A new schedule document copies the catalog ids and the timetable, giving entry k the fresh subdocument id `entryIds[k]` (the ids are pairwise distinct) and keeping every other field of the entry; an absent fitness defaults to 0. |
| Entities.EndTime | server/utils/geneticAlgorithm.js:113-116 | A slot ends at the next label; the last slot ends at its own label. |
| Entities.DaysDistinct | server/utils/geneticAlgorithm.js:9 | The five weekday labels are pairwise distinct. |
| Entities.TimeSlotsDistinct | server/utils/geneticAlgorithm.js:10-19 | The eight slot labels are pairwise distinct. |
| Entities.GridOrderIsDistinct | server/utils/geneticAlgorithm.js:87-119 | In a day-major timetable (entry k at day k/8, slot k%8), no two entries share a (day, startTime). |
| GeneticGrid.Ids | server/utils/geneticAlgorithm.js:122-123 | `map(x => x._id)` keeps the length and gives, at each position, that catalog item's id; the course and room ids of a schedule are built this way. |
| GeneticGrid.RandomTimetable | server/utils/geneticAlgorithm.js:84-119 | Defines the timetable a sequence of draws produces: cell k gets the drawn course and room at (DAYS[k/8], TIME_SLOTS[k%8]); its properties are the two lemmas below. |
| GeneticGrid.GenerateRandomSchedule | server/utils/geneticAlgorithm.js:84-126 | The nested day/slot loops build exactly the timetable `RandomSchedule` defines from the draws. |
| GeneticGrid.RandomTimetableInGridOrder | server/utils/geneticAlgorithm.js:84-119 | There are 40 entries, entry k sits at (DAYS[k/8], TIME_SLOTS[k%8]) and no two share a cell. The "16:00" slot ends at "16:00". |
| GeneticGrid.RandomTimetableFromCatalog | server/utils/geneticAlgorithm.js:89-110 | With non-empty catalogs, entry k holds exactly the drawn catalog course and room. No entry lacks a course. |
| GeneticFitness.Violations | server/utils/geneticAlgorithm.js:128-189 | Defines the violation count: room-clash pairs + instructor-clash pairs + capacity shortfalls + 10 per course-less entry; `CalculateFitness` and the lemmas below state what it means. |
| GeneticFitness.FindById | server/utils/geneticAlgorithm.js:170-175 | `find` by id returns the first element with that id, and nothing exactly when no element has it. |
| GeneticFitness.FitnessOf | server/utils/geneticAlgorithm.js:189 | `1/(n+1)` lies in (0, 1] and equals 1 exactly when n = 0. |
| GeneticFitness.FitnessOrder | server/utils/geneticAlgorithm.js:189 | Fewer violations means strictly higher fitness, and conversely; equal counts give equal fitness. |
| GeneticFitness.CalculateFitness | server/utils/geneticAlgorithm.js:128-190 | The four loops return `1/(v+1)`, where v = room-clash pairs i<j + instructor-clash pairs i<j + capacity shortfalls + 10 per course-less entry. |
| GeneticFitness.RowClashesZero | server/utils/geneticAlgorithm.js:133-146 | With distinct cells, no pair in a row of the pair loop clashes. |
| GeneticFitness.PairClashesZero | server/utils/geneticAlgorithm.js:132-165 | With distinct cells, the pair loops count nothing. |
| GeneticFitness.DistinctCellsNoClashes | server/utils/geneticAlgorithm.js:132-165 | If all entries have distinct (day, startTime), both clash counts are 0. |
| GeneticFitness.NoEmptySlots | server/utils/geneticAlgorithm.js:183-187 | With every course present, the empty-slot penalty is 0. |
| GeneticFitness.NoShortfalls | server/utils/geneticAlgorithm.js:168-180 | Without any shortfall entry, the capacity count is 0. |
| GeneticFitness.ViolationsIgnoreIds | server/utils/geneticAlgorithm.js:128-189 | Two timetables that differ only in their entries' subdocument ids have the same violation count, so the fitness of a saved schedule is that of its timetable. |
| GeneticFitness.SingleCourseSingleRoomIsPerfect | server/utils/geneticAlgorithm.js:128-189 | Take one course that fits the one room, or has no capacity. Then any well-formed timetable over them has 0 violations and fitness 1. |
| GeneticOperators.MixTimetables | server/utils/geneticAlgorithm.js:208-213 | `child[i]` is parent2's entry when coin i is set and parent1's otherwise; the length is kept. |
| GeneticOperators.Crossover | server/utils/geneticAlgorithm.js:207-220 | The child has parent1's length, parent1's courses and rooms, and no fitness. Each entry is one parent's entry at that index. |
| GeneticOperators.CrossoverWellFormed | server/utils/geneticAlgorithm.js:207-220 | Two well-formed parents give a well-formed child (grid order, catalog course and room per cell). |
| GeneticOperators.MutateTimetable | server/utils/geneticAlgorithm.js:228-258 | The length is kept. Every entry keeps its day, start and end. Unflagged entries are identical. A flagged entry gets exactly the drawn course and room. |
| GeneticOperators.Mutate | server/utils/geneticAlgorithm.js:222-264 | A missing schedule is returned unchanged. Otherwise courses, rooms and fitness are kept and the timetable length is preserved. |
| GeneticOperators.MutateWellFormed | server/utils/geneticAlgorithm.js:228-258 | With non-empty catalogs, mutation keeps a candidate well-formed. |
| GeneticOperators.InsertByFitness | server/utils/geneticAlgorithm.js:46 | Insertion adds exactly one member (multiset), and every result member is the inserted one or an old one. |
| GeneticOperators.InsertKeepsSorted | server/utils/geneticAlgorithm.js:46 | Inserting a scored member into a non-increasing list keeps it non-increasing. |
| GeneticOperators.SortByFitness | server/utils/geneticAlgorithm.js:46 | The sort yields a permutation of the population in non-increasing fitness order. |
| GeneticOperators.InsertKeepsTies | server/utils/geneticAlgorithm.js:46 | Insertion puts the new member ahead of the members of equal fitness and leaves their order alone. |
| GeneticOperators.SortByFitnessStable | server/utils/geneticAlgorithm.js:46 | The sort is stable: for every fitness value, the members with that fitness appear in the same order as in the population. |
| GeneticOperators.Wheel | server/utils/geneticAlgorithm.js:192-205 | The member the wheel stops on for a spin; a position of the population. |
| GeneticOperators.WheelFromPicks | server/utils/geneticAlgorithm.js:197-204 | The search from a member up to which the remainder stays positive stops where `RoulettePick` says. |
| GeneticOperators.WheelPicks | server/utils/geneticAlgorithm.js:192-205 | `Wheel` is the roulette stop: the first member where `r - prefix sum <= 0`, else the last member. |
| GeneticOperators.SelectParent | server/utils/geneticAlgorithm.js:192-205 | On a non-empty population, the loop returns the first member where `r - prefix sum <= 0`, else the last member: exactly `Wheel` for that spin. |
| GeneticOperators.PrefixFitnessMonotone | server/utils/geneticAlgorithm.js:193-196 | With non-negative fitness, the running fitness sum never decreases. |
| GeneticOperators.RouletteLandsWithoutFallback | server/utils/geneticAlgorithm.js:197-204 | In exact arithmetic the remainder always reaches <= 0 at the chosen member. The last-member fallback only matters for floating-point drift. |
| GeneticOperators.RouletteSkipsZeroFitness | server/utils/geneticAlgorithm.js:197-204 | A positive spin never stops on a zero-fitness member. |
| GeneticOperators.RoulettePickUnique | server/utils/geneticAlgorithm.js:198-204 | The stopping member for a given wheel value is unique. |
| GeneticLoop.Evaluated | server/utils/geneticAlgorithm.js:42-44 | Evaluation keeps the population size and scores every member. |
| GeneticLoop.BestViolations | server/utils/geneticAlgorithm.js:46-48 | Returns the minimum violation count, attained by some member. |
| GeneticLoop.EvaluatePopulation | server/utils/geneticAlgorithm.js:42-44 | The forEach loop sets each member's fitness to `calculateFitness` of its own timetable. |
| GeneticLoop.SortedMembers | server/utils/geneticAlgorithm.js:46 | Every sorted member is an evaluated member of the population. |
| GeneticLoop.HeadDominates | server/utils/geneticAlgorithm.js:46 | The head of a descending permutation has fitness at least that of every member. |
| GeneticLoop.SortedHeadIsBest | server/utils/geneticAlgorithm.js:46-48 | The head of the descending sort has the fewest violations of the whole population. |
| GeneticLoop.SortedHeadFacts | server/utils/geneticAlgorithm.js:46-48 | After evaluation and the sort, the head carries `1/(v+1)` of its own violations v, and v is the population's minimum. |
| GeneticLoop.SortedWellFormed | server/utils/geneticAlgorithm.js:46-52 | Sorting keeps every member well-formed. |
| GeneticLoop.Offspring | server/utils/geneticAlgorithm.js:53-54 | Defines a child of two parents: the mutation of their crossover under the draws. |
| GeneticLoop.Bred | server/utils/geneticAlgorithm.js:51-54 | Defines the child one loop pass makes: the offspring of the two members the two spins stop on. |
| GeneticLoop.BreedChild | server/utils/geneticAlgorithm.js:51-54 | Two roulette picks, crossover and mutation yield exactly `Bred` of the draws. The child is well-formed and records the catalog ids. |
| GeneticLoop.FillPopulation | server/utils/geneticAlgorithm.js:48-56 | The new population has 50 well-formed members: the two sorted-best unchanged, then member c is `Bred` from the draws for c - 2. |
| GeneticLoop.BredWellFormed | server/utils/geneticAlgorithm.js:50-55 | With non-empty catalogs and valid draws over well-formed members, a loop pass always makes a child, well-formed and recording the catalog ids. |
| GeneticLoop.NextPopulation | server/utils/geneticAlgorithm.js:41-58 | Defines the population one generation makes: the two heads of the sorted evaluated population, then the child `Bred` from each child's draws in turn; it has 50 members of 40 cells. |
| GeneticLoop.NextPopulationKeepsBest | server/utils/geneticAlgorithm.js:45-47 | The first member of the next population has exactly the old population's smallest violation count, so the best count never increases. |
| GeneticLoop.NextPopulationMembers | server/utils/geneticAlgorithm.js:45-56 | Members 0 and 1 of the next population are the sorted heads; member c ≥ 2 is `Bred` from the draws for c - 2. |
| GeneticLoop.NextPopulationWellFormed | server/utils/geneticAlgorithm.js:45-57 | With valid draws, a well-formed population's next population is well-formed and records the catalog ids. |
| GeneticLoop.NextGeneration | server/utils/geneticAlgorithm.js:42-58 | The result is exactly `NextPopulation` of the population and the draws. It stays at 50 and well-formed; the two sorted-best members are carried forward unchanged, and member c ≥ 2 is the child `Bred` from the sorted population and the draws for c - 2. The new head has no more violations than any old member. |
| GeneticLoop.BuildInitialPopulation | server/utils/geneticAlgorithm.js:37-39 | Builds the 50 random candidates the draws define, all well-formed. |
| GeneticLoop.Generations | server/utils/geneticAlgorithm.js:40-59 | Defines the population after the first n generations: generation g is `NextPopulation` of the one before under the draws `draws[g]`; it keeps 50 members of 40 cells. |
| GeneticLoop.GenerationsStep | server/utils/geneticAlgorithm.js:40-59 | Generation m + 1 is `NextPopulation` of generation m under the draws `draws[m]`. |
| GeneticLoop.GenerationKeepsBest | server/utils/geneticAlgorithm.js:40-59 | One more generation never raises the best violation count (elitism, one round). |
| GeneticLoop.GenerationsKeepBest | server/utils/geneticAlgorithm.js:40-59 | After any number of generations the best violation count is at most that of the starting population (elitism). |
| GeneticLoop.GenerationsWellFormed | server/utils/geneticAlgorithm.js:40-59 | With valid draws, every generation of a well-formed population is well-formed and records the catalog ids. |
| GeneticLoop.Evolve | server/utils/geneticAlgorithm.js:40-59 | The loop runs all 100 generations with no early exit: the result is exactly `Generations` of the population after `GENERATIONS` steps, one per generation's draws. The size stays 50, all members stay well-formed and the best violation count never increases (elitism). |
| GeneticLoop.PickBest | server/utils/geneticAlgorithm.js:61-67 | The final evaluate, sort and `population[0]` return the head of the sorted evaluated population, an evaluated member. It is well-formed, records the catalog ids, is scored `1/(v+1)`, and v is the population's minimum violation count. |
| GeneticLoop.InitialPopulationWellFormed | server/utils/geneticAlgorithm.js:36-38 | With non-empty catalogs, the 50 initial candidates are well-formed, of 40 cells, and record the catalog ids. |
| GeneticLoop.BestOfRun | server/utils/geneticAlgorithm.js:36-67 | Defines the candidate a run returns: the head of the sorted evaluated population after `GENERATIONS` generations from the initial population the draws define. |
| GeneticLoop.BestSchedule | server/utils/geneticAlgorithm.js:21-67 | Fails exactly when a catalog is empty. Otherwise returns exactly `BestOfRun` of the initial and generation draws: a well-formed schedule recording the catalog ids, scored `1/(v+1)`, whose violations are at most those of every initial candidate. |
| GeneticLoop.GenerateSchedule | server/utils/geneticAlgorithm.js:21-82 | Fails exactly when a catalog is empty. Otherwise returns a new document built from `BestOfRun`: the same timetable except that entry k carries the subdocument id `entryIds[k]`, the catalog ids, and `BestOfRun`'s fitness, which is `1/(v+1)` of the document's own violations; the timetable is well-formed and has violations at most those of every initial candidate. |
| ConflictResolution.CheckPair | server/services/conflictResolution.js:19-32 | One pair yields a room record if the rooms match, then an instructor record if the instructors match, only when the cells match. |
| ConflictResolution.ScanConflicts | server/services/conflictResolution.js:14-34 | The nested i<j loops return exactly the record list `AllConflicts`. The scan only reads the timetable. |
| ConflictResolution.ScanRow | server/services/conflictResolution.js:18-33 | The inner j loop for one i returns exactly that row's records, `RowConflicts(t, i, |t|)`. |
| ConflictResolution.RowStep | server/services/conflictResolution.js:18-33 | One more j appends that pair's records to the row. |
| ConflictResolution.PairConflictsMembers | server/services/conflictResolution.js:19-32 | A record is in the pair's output iff it names that pair and describes a real clash of its kind. |
| ConflictResolution.RowConflictsSound | server/services/conflictResolution.js:18-33 | Every record row i emits for j below a bound has first slot i, second slot below the bound, and describes a real clash. |
| ConflictResolution.RowConflictsComplete | server/services/conflictResolution.js:18-33 | Every real clash of i with a j below the bound is emitted by row i. |
| ConflictResolution.ScanPrefixSound | server/services/conflictResolution.js:17-34 | After the rows below n, every record present has first slot below n and is a real clash. |
| ConflictResolution.ScanPrefixComplete | server/services/conflictResolution.js:17-34 | After the rows below n, every real clash with first slot below n is present. |
| ConflictResolution.ScanSoundAndComplete | server/services/conflictResolution.js:17-34 | A record `{type, [i, j]}` is emitted iff i<j, both entries share the cell, and they share the room or instructor as the type says. The checks are independent, so one pair can give both records. |
| ConflictResolution.RoomlessPairRecorded | server/services/conflictResolution.js:23 | Two room-less entries in one cell match the room test as written (`null === null`), and the model's scan records them too. |
| ConflictResolution.SharedRoomMissedAsWritten | server/services/conflictResolution.js:23 | Two entries in the same room and cell fail the room test as written (`===` on ObjectIds), yet are a room conflict by id. |
| ConflictResolution.RowConflictsOrdered | server/services/conflictResolution.js:18-33 | Row i's records all have first slot i, second slot below j, and come in scan order. |
| ConflictResolution.ScanPrefixOrdered | server/services/conflictResolution.js:17-34 | Records come in scan order, with first slots below n. |
| ConflictResolution.ScanOrder | server/services/conflictResolution.js:17-34 | Records come in lexicographic pair order, room before instructor for the same pair, so none repeats. |
| ConflictResolution.Resolve | server/services/conflictResolution.js:44-50 | A "room" resolution changes only the room. Any other type changes only day and startTime. |
| ConflictResolution.ApplyAll | server/services/conflictResolution.js:42-51 | Defines the application of a solution, each resolution to the second slot of the conflict at its key, stopping at the first key that cannot apply; the frame and completeness lemmas state its meaning. |
| ConflictResolution.ApplyAllFrame | server/services/conflictResolution.js:42-51 | Applying resolutions keeps the length and every entry's id, course and end time. Entries that no resolution targets are unchanged. |
| ConflictResolution.ApplyAllComplete | server/services/conflictResolution.js:42-51 | All resolutions apply iff every key names a conflict whose second slot lies in the timetable. |
| ConflictResolution.ScannedSolutionApplies | server/services/conflictResolution.js:36-52 | Resolutions keyed by the scan's own conflicts always apply. |
| ConflictResolution.ApplyAllAsWritten | server/services/conflictResolution.js:42-43 | Defines the lookup as written: the first resolution throws before anything changes. |
| ConflictResolution.ResolutionsLostAsWritten | server/services/conflictResolution.js:42-51 | As written, a non-empty solution for the scan's conflicts never applies, although with lookup by position every resolution applies. |
| ConflictResolution.ResolveConflicts | server/services/conflictResolution.js:8-60 | No conflicts: nothing changes and [] is returned. Solver finds nothing: all conflicts are returned and one notification carries their count. Solver succeeds: the resolutions are applied in place, by conflict position, the document is saved and [] is returned; a resolution that cannot apply stops with an error and no save. As written the lookup throws for every non-empty solution (see Findings). |
| ConflictResolution.FindAvailableRoom | server/services/conflictResolution.js:62-80 | Returns the first candidate room, in list order, that no entry in the slot's cell uses; null if all are used. It is never the slot's own room. |
| ConflictResolution.DayCells | server/services/conflictResolution.js:88 | One availability day becomes its (day, time) cells, slots in order. |
| ConflictResolution.Flatten | server/services/conflictResolution.js:87-89 | A cell is in the flattened availability iff some day entry names its day and lists its time. |
| ConflictResolution.OwnCellTaken | server/services/conflictResolution.js:92-98 | A slot that holds a room, or whose course is taught by the given instructor, never finds its own cell free. |
| ConflictResolution.RescheduleClass | server/services/conflictResolution.js:82-112 | Success moves the slot to the first free availability cell, changing only day and startTime, and, when the slot holds a room or its course is taught by `instructor` (the instructor read from the slot's own course, so always in the code), that cell differs from its old one. Failure marks it "Unscheduled", clears its room and returns false. |
| ScheduleRoutes.IndexOf | server/routes/scheduleRoutes.js:104 | `indexOf` returns the first position of the label, or -1 exactly when it is absent. |
| ScheduleRoutes.HoursDistinct | server/routes/scheduleRoutes.js:76-86 | The nine slot labels are pairwise distinct. |
| ScheduleRoutes.IndexOfHour | server/routes/scheduleRoutes.js:101-107 | Each grid label is found at its own position. |
| ScheduleRoutes.FirstInCell | server/routes/scheduleRoutes.js:92-94 | `find` returns the first stored entry in the cell, and nothing exactly when none is there. |
| ScheduleRoutes.FilledTimetable | server/routes/scheduleRoutes.js:88-112 | Defines the response timetable: position k shows cell (WEEK[k/9], HOURS[k%9]); `FilledCell` states what it holds. |
| ScheduleRoutes.HoleEndAt | server/routes/scheduleRoutes.js:101-107 | A hole at slot s ends at the next label; the "17:00" hole ends at "17:00". |
| ScheduleRoutes.FilledCell | server/routes/scheduleRoutes.js:88-112 | 63 entries in day-major order: cell (d, s) sits at d*9+s with that day and start. It shows the first stored entry there, unchanged, or else a hole with null course and room ending at the next slot. |
| ScheduleRoutes.OffGridHidden | server/routes/scheduleRoutes.js:90-94 | A stored entry whose day or time is off the grid (such as "Unscheduled") never appears. |
| ScheduleRoutes.LaterDuplicateHidden | server/routes/scheduleRoutes.js:92-94 | A later entry in an already-filled cell, differing from the earlier ones, never appears. |
| ScheduleRoutes.GeneratedCell | server/routes/scheduleRoutes.js:88-112 | Entry k of a genetic-algorithm timetable is shown unchanged at grid position (k/8)*9 + k%8. |
| ScheduleRoutes.GeneratedTimetableShown | server/routes/scheduleRoutes.js:88-112 | Every entry of a genetic-algorithm timetable is shown unchanged at its own weekday and slot. |
| ScheduleRoutes.LatestSchedule | server/routes/scheduleRoutes.js:58-112 | Answers 404 iff nothing is stored. Otherwise it copies courses, rooms and fitness and returns the 63-cell filled grid (`FilledTimetable`) of the stored timetable. |
| ScheduleRoutes.FindEntry | server/routes/scheduleRoutes.js:242-244 | Returns the first entry whose id matches, and nothing exactly when no entry has it. |
| ScheduleRoutes.AssignedEntryFound | server/routes/scheduleRoutes.js:242-244 | In a document built with distinct entry ids, the lookup finds every entry at its own position. |
| ScheduleRoutes.ResolveConflictEdit | server/routes/scheduleRoutes.js:235-260 | `changeRoom` sets only the matching entry's room. `reschedule` sets only its day and startTime. Another type changes nothing (200). No schedule, an unknown id or an unparsable slot gives 500 with nothing changed. |

## Findings

| source | as written | input that shows it | evidently intended | confidence | as-written member | corrected member |
|---|---|---|---|---|---|---|
| server/services/conflictResolution.js:23 | The rooms of two entries are compared with `===` on their ObjectId values. Each entry holds its own ObjectId object, so the test holds only when both rooms are null. | Two entries on Monday 09:00 that both hold room 3: no room conflict is recorded. | Compare the room ids, as the fitness function does with `toString()`. Two room-less entries in one cell still match, as `null === null` does; the fitness check skips them. | not executed; high, assuming the rooms are unpopulated ObjectIds as loaded | ConflictResolution.SharedRoomMissedAsWritten | ConflictResolution.ScanSoundAndComplete |
| server/services/conflictResolution.js:43 | Conflicts are looked up with `c._id.toString()`, but the records pushed at lines 24 and 30 carry no `_id`. Reading it gives undefined, and `toString` on it throws. | Any schedule with one conflict and a solver returning one resolution: the handler throws before the save. | Look conflicts up by their position in the list, the key a solver over that list can name. | not executed; high, assuming `solveScheduleCSP` (not part of this model) does not add an `_id` to the records it is given before the lookup | ConflictResolution.ResolutionsLostAsWritten | ConflictResolution.ScannedSolutionApplies |

## Left out

- Store access is not modelled: `find`, `populate`, `findById` and `save` in all three files. Catalogs, stored schedules and availability are parameters; a save is the returned or updated value.
- Logging and `JSON.stringify` output are left out.
- The `users` query of `generateSchedule` is left out, because `calculateFitness` never reads it.
- Display names of courses, rooms and instructors are dropped; only ids are modelled. Populated references become ids.
- ObjectId generation is not modelled: the subdocument ids that building a schedule document gives its entries are a parameter of `GenerateSchedule`. Both `GenerateSchedule` and the constructor require them to be pairwise distinct, as fresh ids are; that is the premise of `AssignedEntryFound`.
- Probability distributions are not modelled: the 0.5 crossover coin, the 0.1 mutation rate and the uniform index draws. Every outcome of a draw is allowed by the range preconditions.
- Floating-point arithmetic is not modelled. Fitness is an exact `real`, and the roulette fallback branch is kept.
- GeneticOperators.SortByFitness: the in-place `Array.prototype.sort` is modelled as a stable sort on values (stability is `SortByFitnessStable`). Aliasing between the population array and its members is not modelled.
- GeneticOperators.Crossover: requires parents of equal length. In the code, a shorter second parent would yield empty objects; every caller passes two 40-entry timetables.
- ConflictResolution.ScanConflicts: the scan reads the instructor of both entries of every same-cell pair, and the code throws when a course or instructor is missing; the scan method (and so `ResolveConflicts`) requires them present (`ScanDefined`). The specification functions treat a missing instructor as no instructor clash.
- ConflictResolution.ApplyAll: resolutions are looked up by the conflict's position. The code looks them up by an `_id` field the conflict records do not carry, so as written it throws on the first resolution (see Findings). `cspSolver.js` is not part of this model, so the shape of its keys is not known. A solution keyed by position would be an object with integer-like keys, which `Object.entries` visits once each in ascending order; the model's sequence of (position, resolution) pairs also admits any order and repeated keys.
- ConflictResolution.ResolveConflicts: the solver is a function parameter, and the admin notifier becomes the returned list of conflict counts.
- ConflictResolution.FindAvailableRoom: the candidate rooms (the capacity query) are a parameter, taken in the order the store returns them. An entry in the cell with a null room, on which the code would throw, is treated as holding no room.
- ConflictResolution.RescheduleClass: the course's instructor and that instructor's availability are parameters, and the model does not require `instructor` to be the one of the slot's course. So the promise that a successful move changes the cell is stated only when the slot holds a room or its course is taught by `instructor`; the code always meets the second condition. A null room or instructor, on which the code would throw, is treated as not matching.
- ScheduleRoutes.LatestSchedule: only courses, rooms, fitness and timetable are modelled. Other document fields (`_id`, `__v`) are not.
- ScheduleRoutes.ResolveConflictEdit: the edited document is a parameter. The handler's store query sorts by `createdAt`, which the schema does not define, so which document it returns is not modelled; it is not necessarily the newest.
- ScheduleRoutes.ResolveConflictEdit: the parsed `JSON.parse(resolution.slot)` is an input, `None` when parsing fails. Entries without an id, on which the code would throw, are treated as not matching. Schema validation on save is not modelled: the day must be Monday to Friday.
- Express routing, the other routes and handlers, authentication, sockets and the React front end are left out.
