# Event operations, verified

A Dafny model of the algorithms at the core of an event-management system: the critical-path scheduler, delay propagation on the live run sheet, equipment and asset reservations, one-time passwords, the e-invoice QR payload, redaction of documents for clients, crew rest, estimates, bid ranking, pack manifests, attendance metrics and the mesh reader.

Code that works by loops over variables, maps or objects is modelled by methods with loops, classes and arrays. Each method is proved against a specification, and what the system promises is proved of that specification for every input, every run, or every reachable state. `dafny verify dfyconfig.toml` checks the whole project.

## Modules

| file | content |
|---|---|
| `CriticalPath`, `CriticalPathTheory`, `CriticalChains` | the two passes of the scheduler; least and greatest schedules; critical chains, exact slack, the task order it needs |
| `ScheduleReport` | the reported schedule in terms of its own fields, and why no other report fits |
| `DependencyKinds`, `FreeFloat` | what the scheduler makes of dependency types it does not read, and of free float |
| `RunSheetWalk`, `CueReport`, `RunSheet`, `RunSheetTheory`, `CueSequence` | the breadth-first walk on values; what it makes of each record; the engine that runs it on cue objects; what it touches and by how much; when the order of cues survives, and runs of reported delays |
| `Rentals`, `RentalsTheory`, `RentalsAnswers` | the reservation simulator; capacity, idempotency and replay over every run; its answers field by field |
| `Inventory`, `CrewShifts` | exclusive assets, bulk stock, the rest rule |
| `Redaction`, `RedactionTheory`, `SensitiveKeys` | redaction of JSON trees as the one clean tree that deleting hidden parts can reach; which keys it catches |
| `Totp`, `TotpTheory`, `TotpAcceptance`, `ZatcaTlv`, `BitText`, `TextNumerals`, `Bytes` | Base32 and Base64, counter bytes, truncation, accepted tokens, tag-length-value records |
| `Estimate`, `EstimateTheory`, `EstimateAmounts` | estimate totals, lump sums, secrecy of costs; every amount from the values given |
| `BidEvaluation`, `PackManifest`, `StableSort` | rankings and manifests, on one stable sort |
| `Attendance`, `WavefrontMesh` | aggregators over sets and lists |
| `Arithmetic`, `Numbers`, `Wrappers` | facts on products and remainders; 32-bit readings and rounding; Option and Result |

## Where the code and its promises differ

The lemma named with a point states it; where a promise fails for some inputs, it gives the condition under which it holds.

- The scheduler's passes rely on tasks being listed after their predecessors (`EarlyStartsObeyOrderIff`).
- The dependency type is never read. The start hours obey every dependency under its own type all the same (`EveryKindIsObeyed`), but they are the least such hours, whatever the durations and lags, exactly when every dependency is finish-to-start, has no type, or is start-to-start on an id without a task (`LeastUnderKindsIff`).
- Free float is a copy of total float. It is never too small (`ReportedFloatIsFreeIff`); it is right for every task, whatever the durations and lags, exactly when there are at most two tasks or no task waits for another (`FreeFloatsAreTrueIff`).
- A cue moves by the delay of the cue that discovers it, not by the largest delay upstream (`MovesByDiscoverersDelay`), so cues that were in order can leave it. They stay in order, whatever their planned times, exactly when nothing waits for the target, or the delay is not negative and no cue inherits a larger prior delay than a cue that waits for it (`SequenceSurvivesIff`). A negative delay, which the command schema admits, therefore breaks the order as soon as one cue waits for the target.
- Reporting the same delay for a cue again moves every dependent again, although no delay on record changes (`RepeatedReportMovesAgain`).
- A tentative hold is stored as a confirmed operation but holds no units; only a confirmed booking does, and one whose window runs backwards only within longer windows that still had units (`GrantedReservesIffConfirmed`).
- The replay check compares hashes, so it takes two payloads for one exactly when they have one length and weighted sums that agree modulo 2^32 (`HashesAgreeIff`, `ReplayConflictsIff`). A change of one character is always seen.
- A reservation of negative quantity is accepted and makes room within its window; quantities below zero are exactly what lets a run oversell (`RentalsTheory.NeverOversoldIff`, `Inventory.BulkNeverOversoldIff`). Negative quantities reach the two checks only when they are called directly: the API schemas require positive ones (`packages/contracts/src/integrations-adapters.ts:69`, `packages/contracts/src/commands.ts:1310`).
- The bulk check calls a sum a peak. It never oversells, and is exact only when the overlapping reservations overlap one another (`SumIsPeakIff`, `CheckIsExactIff`).
- The first window on an exclusive asset is never checked. An asset is blocked for good exactly when it holds a confirmed empty window, and a run blocks it exactly when its first request is empty and nothing was confirmed before (`BlockedIff`, `BlockedAfterRunIff`). Bulk stock is blocked by a confirmed empty window in the same way (`BulkBlockedIff`, `BulkBlockedAfterRunIff`).
- The rest check skips a rostered shift that has the id of the new one. Rosters keep all shifts of each worker apart, whatever the hours, exactly when no two candidates share worker and id (`RostersStayRestedIff`).
- Shifting the counter by `>>` writes its big-endian form only for counters of 32 bits (`CounterBytesAreBigEndianIff`).
- A length byte wraps at 256: the five fields are read back exactly when none has more than 255 bytes (`ScanRecoversFieldsIff`), and a text stands for one invoice exactly as long as values are held to 255 bytes (`TextsDifferIff`).
- The breakdown of a breakdown line is added to the totals a second time (`NothingCountedTwiceIff`, `NestedBreakdownIsCountedTwice`), and the check of a breakdown ignores the duration and discount of its lump sum (`AllocationsFitTheTotalIff`).
- The manifest binds each item to its sequence index. Where two different items share an index it also depends on the order they are given in, and only there (`ManifestIgnoresOrderIff`).
- A comment gives 85 as the default technical score; the code uses 90, and so does the model. A better quote is sure not to score lower exactly when the lowest price is not negative (`DominanceCountsIff`).
- Redaction throws on a null comment (`ThrowsIffNullComment`).

## Model

| member | source | states |
|---|---|---|
| CriticalPath.LatestRelease | packages/domain/src/gantt.ts:95-104 | the inner loop finds the least hour at or after zero and every release |
| CriticalPath.ForwardPass | packages/domain/src/gantt.ts:90-110 | the loop leaves exactly the early starts and finishes of the specification in its two maps, for any input |
| CriticalPath.MaxValue | packages/domain/src/gantt.ts:113 | the project duration is the largest early finish or zero, in whatever order the values are visited |
| CriticalPath.BuildSuccessors | packages/domain/src/gantt.ts:119-131 | every task id gets the list of its successors in task and dependency order; ids without a task get none |
| CriticalPath.EarliestDeadline | packages/domain/src/gantt.ts:136-149 | the inner loop finds the latest finish that suits the project end and every successor |
| CriticalPath.BackwardPass | packages/domain/src/gantt.ts:115-157 | the reversed loop leaves exactly the late starts and finishes of the specification in its maps |
| CriticalPath.Assemble | packages/domain/src/gantt.ts:159-189 | one record per task in order, and the ids of the critical ones |
| CriticalPath.CalculateCpmSchedule | packages/domain/src/gantt.ts:79-198 | the whole run computes the schedule that the theorems speak of, for any input |
| CriticalPathTheory.EarlyScheduleIsLeast | packages/domain/src/gantt.ts:93-113 | on an ordered network the early starts are feasible, at or below every feasible schedule, and no feasible schedule ends before the project duration |
| CriticalPathTheory.ProjectDurationIsPeak | packages/domain/src/gantt.ts:112-113 | the project duration bounds every early finish and is attained, or is zero |
| CriticalPathTheory.LateScheduleIsGreatest | packages/domain/src/gantt.ts:115-157 | the late starts are feasible, keep the project duration, and lie at or above every schedule that does |
| CriticalPathTheory.EarlyBeforeLate | packages/domain/src/gantt.ts:162-168 | no late start lies before its early start, negative lags included |
| CriticalPathTheory.FloatIsNeverClamped | packages/domain/src/gantt.ts:162-187 | the reported hours are the least and greatest schedules; total and free float are both reported as their difference, which is never negative, and critical means zero float |
| CriticalChains.CriticalChainExists | packages/domain/src/gantt.ts:93-173 | a nonempty project has a gap-free chain of critical tasks from its start to its end, whose durations and lags add up to the project duration |
| CriticalChains.CriticalIffOnCompleteChain | packages/domain/src/gantt.ts:168-169 | a task is critical exactly when it lies on a gap-free chain through the whole project |
| CriticalChains.CriticalPathNamesChainTasks | packages/domain/src/gantt.ts:159-173 | the reported critical path names exactly the tasks on such chains |
| CriticalChains.ChainSpansItsFinish | packages/domain/src/gantt.ts:94-110 | the durations and lags along any gap-free chain add up to the early finish of its last task |
| CriticalChains.TotalFloatIsExactSlack | packages/domain/src/gantt.ts:94-168 | lengthening one task and scheduling again ends the project later by exactly the hours beyond the task's float |
| CriticalChains.EarlyStartsObeyOrderIff | packages/domain/src/gantt.ts:133-134 | the start hours obey every dependency for all durations and lags if and only if no task is listed before one it waits for |
| CriticalChains.MisplacedDependencyIsBroken | packages/domain/src/gantt.ts:98-104 | a dependency on a task listed later is broken for some durations and lags |
| DependencyKinds.EveryKindIsObeyed | packages/domain/src/gantt.ts:9-104 | on an ordered network the start hours obey every dependency under its own type, although the code reads none |
| DependencyKinds.LeastUnderKindsHereIff | packages/domain/src/gantt.ts:98-106 | on one network they are the least such hours exactly when each is zero or the very hour one of the task's dependencies, by its type, asks for |
| DependencyKinds.LeastUnderKindsIff | packages/domain/src/gantt.ts:9-106 | they are the least such hours for all durations and lags if and only if each dependency is finish-to-start, without a type, or start-to-start on an id without a task |
| FreeFloat.ReportedFloatIsFreeIff | packages/domain/src/gantt.ts:168-185 | a reported free float is never below the true one, and equal to it exactly when the task could end at its late finish and leave every successor its early start |
| FreeFloat.FreeFloatIs | packages/domain/src/gantt.ts:136-151 | every task has a free float: what the inner loop of the backward pass gives over early starts, less the early finish |
| FreeFloat.FreeFloatsAreTrueIff | packages/domain/src/gantt.ts:168-185 | every reported free float is the true one, for all durations and lags, if and only if there are at most two tasks or none waits for another |
| ScheduleReport.ReportCounts | packages/domain/src/gantt.ts:112-197 | on any input the reported duration bounds every reported early finish and is one of them or zero, there is one record per task, and the critical ids are those of the critical records, one each in order, with the counts to match |
| ScheduleReport.ReportedDurationIsLeast | packages/domain/src/gantt.ts:112-113 | on an ordered network a schedule can end by a nonnegative hour exactly when the reported duration is at most that hour |
| ScheduleReport.ReportIsDetermined | packages/domain/src/gantt.ts:79-198 | on an ordered network the result is the one report in which every task takes its hours, starts as soon as its dependencies and their lags are met, ends as late as the project end and its successors allow, floats by the difference, and is critical without any |
| RunSheet.LiveRunSheetItem.Copy | packages/domain/src/run-sheet-engine.ts:46 | a copied record has the values of the original |
| RunSheet.LiveRunSheetItem.Retime | packages/domain/src/run-sheet-engine.ts:54-58 | the target takes the delay, status, actual times and notes given, and keeps its planned times |
| RunSheet.LiveRunSheetItem.Shift | packages/domain/src/run-sheet-engine.ts:76-89 | a discovered cue moves by the current delay and keeps the larger of the two delays |
| RunSheet.LoadSheet | packages/domain/src/run-sheet-engine.ts:44-47 | the map holds one fresh object per cue number, of several records with one number the last, in order of first occurrence |
| RunSheetWalk.OrderIsOrderOfSheet | packages/domain/src/run-sheet-engine.ts:44-47 | the iteration order of the map names each of its cues once |
| RunSheet.ShiftCue | packages/domain/src/run-sheet-engine.ts:74-89 | changing one object in the map changes that cue and no other |
| RunSheetWalk.VisitKeepsWalk | packages/domain/src/run-sheet-engine.ts:73-92 | each discovery keeps the invariant of the walk: discovered through an earlier cue, parent by parent, in sheet order |
| RunSheet.Discover | packages/domain/src/run-sheet-engine.ts:72-93 | one discovery changes that cue's object alone, and queue, visited set, list and walk grow by the same cue |
| RunSheet.Expand | packages/domain/src/run-sheet-engine.ts:66-95 | the inner loop discovers every unvisited cue that waits for the current one, and queue, visited set and list stay in step with the walk |
| RunSheetWalk.NoMoreVisitsThanCues | packages/domain/src/run-sheet-engine.ts:62-96 | a walk visits no more cues than the sheet has, which is why the loop ends on cyclic graphs too |
| RunSheet.Propagate | packages/domain/src/run-sheet-engine.ts:60-96 | the outer loop ends with a finished walk, and the list holds the visited objects in order without the target |
| RunSheet.RetimeTarget | packages/domain/src/run-sheet-engine.ts:49-58 | before the walk only the target has changed |
| RunSheet.Touch | packages/domain/src/run-sheet-engine.ts:49-107 | the result reports target, propagated cues, minutes, count and critical flag of a finished walk |
| RunSheet.ApplyCueDelay | packages/domain/src/run-sheet-engine.ts:33-107 | fails exactly when no record has the number; otherwise updates fresh copies of the target and its dependents field by field, reports their number, the minutes and whether one is critical, is a finished walk, and leaves every input record unchanged |
| RunSheetTheory.PropagationIsDetermined | packages/domain/src/run-sheet-engine.ts:60-96 | the description of a finished walk fixes the cues, their order and all their fields |
| RunSheetTheory.PropagatedAreDependents | packages/domain/src/run-sheet-engine.ts:65-96 | the propagated cues are exactly those that transitively depend on the target, each once and without the target, on any graph |
| RunSheetTheory.DiscoveryIsShortest | packages/domain/src/run-sheet-engine.ts:65-96 | every cue is discovered along a shortest dependency path |
| RunSheetTheory.CriticalPathImpact | packages/domain/src/run-sheet-engine.ts:98 | the flag is set exactly when the target or a transitive dependent of it is critical |
| RunSheetTheory.MovesByDiscoverersDelay | packages/domain/src/run-sheet-engine.ts:77-86 | a propagated cue moves by the final delay of its discoverer, never less than the target's, and keeps its duration |
| RunSheetTheory.NoDependentStaysPending | packages/domain/src/run-sheet-engine.ts:84-86 | a positive delay leaves no propagated cue pending and changes no other status |
| RunSheetTheory.UniformDelayIff | packages/domain/src/run-sheet-engine.ts:77-86 | every propagated cue ends with exactly the applied delay if and only if no dependent carried a larger one; then all start and end times moved by exactly it |
| CueReport.SheetHasRecords | packages/domain/src/run-sheet-engine.ts:44-52 | a cue is found exactly when a record has its number, and of several records the last counts |
| CueReport.OrderIsByFirst | packages/domain/src/run-sheet-engine.ts:44-47 | cues are walked in the order in which their numbers first come |
| CueReport.UpdatedTargetIsOne | packages/domain/src/run-sheet-engine.ts:54-58 | the record of the target and the report fix every field of the updated target: a status given holds whatever the delay, without one a positive delay means delayed, actual times given replace those on record, planned times stay |
| CueReport.DependentIsDetermined | packages/domain/src/run-sheet-engine.ts:76-89 | the record of a propagated cue and the cue it was reached through fix every field: times moved by that cue's delay, the larger delay, delayed rather than pending, the remark |
| CueReport.PropagationUpdates | packages/domain/src/run-sheet-engine.ts:49-96 | every finished walk updates the target, and every other touched cue by one touched before it, in this way |
| CueSequence.WalkFollowsDependencies | packages/domain/src/run-sheet-engine.ts:65-96 | which cues are visited, in what order and through which discoverers depends on the dependencies only, not on times or delays |
| CueSequence.AfterMoves | packages/domain/src/run-sheet-engine.ts:77-83 | on the sheet a propagation leaves, every cue stands where its move takes it |
| CueSequence.SequenceSurvivesIffMovesInOrder | packages/domain/src/run-sheet-engine.ts:60-96 | for fixed dependencies and delays, cues stay in order for all planned times exactly when no cue moves further than one that waits for it |
| CueSequence.FinalDelayIsLargest | packages/domain/src/run-sheet-engine.ts:81 | the final delay of a cue is the largest prior delay on its discovery path |
| CueSequence.SequenceSurvivesIff | packages/domain/src/run-sheet-engine.ts:60-96 | cues stay in order for all planned times exactly when nothing waits for the target, or the delay is not negative and no cue inherits a larger prior delay than one that waits for it |
| CueSequence.UniformDelayKeepsSequenceIff | packages/domain/src/run-sheet-engine.ts:60-96 | without a larger prior delay, cues stay in order exactly when nothing waits for the target, or the delay is zero, or it is positive and the target is on no cycle |
| CueSequence.LargerPriorDelayBreaksSequence | packages/domain/src/run-sheet-engine.ts:81-83 | a sheet of four cues in order, one of them delayed before, that ends out of order |
| CueSequence.RunMovesByTotal | packages/domain/src/run-sheet-engine.ts:33-107 | after any run of reported delays every cue stands away from its plan by the sum of its moves |
| CueSequence.RepeatedReportMovesAgain | packages/domain/src/run-sheet-engine.ts:77-83 | n reports of one delay for one cue move each dependent n times by the same minutes, and change no delay after the first |
| Rentals.ComputePayloadHash | packages/domain/src/rentals-adapter.ts:148-157 | the loop computes the length and the rolling 32-bit hash with wrap-around |
| Rentals.RentalsContractSimulator.QueryAvailability | packages/domain/src/rentals-adapter.ts:211-285 | the loop counts the confirmed units that meet the closed window, the project's own apart; an unknown pool is unreachable |
| Rentals.RentalsContractSimulator.FindOperation | packages/domain/src/rentals-adapter.ts:295-309 | the scan finds the first stored operation with the key |
| Rentals.RentalsContractSimulator.SubmitReservationCommand | packages/domain/src/rentals-adapter.ts:287-382 | the whole new state and the response: replay, conflict, rejection, booking |
| Rentals.RentalsContractSimulator.ResetForTesting | packages/domain/src/rentals-adapter.ts:388-401 | restores the seed booking and forgets all operations |
| RentalsTheory.AvailabilityAddsUp | packages/domain/src/rentals-adapter.ts:243-266 | under any scope own and other units add up to all held units, the available ones are the rest of the pool, and the shortfall is zero exactly when own and available units cover the demand |
| RentalsTheory.BuffersAreAddedOnce | packages/domain/src/rentals-adapter.ts:159-208 | a window that has its buffers already gets none again |
| RentalsTheory.GrantedBookingIsSafe | packages/domain/src/rentals-adapter.ts:243-266 | booking what a query grants oversells no instant of any pool, whatever its quantity |
| RentalsTheory.NeverOversold | packages/domain/src/rentals-adapter.ts:287-382 | in every run of commands with nonnegative quantities from a safe state no instant is oversold |
| RentalsTheory.NeverOversoldIff | packages/domain/src/rentals-adapter.ts:287-382 | runs with quantities of at least a given number never oversell an instant exactly when that number is not negative |
| RentalsTheory.SeedIsSafe | packages/domain/src/rentals-adapter.ts:117-145 | the simulator's seed data is such a state |
| RentalsTheory.HoldReservesNothing | packages/domain/src/rentals-adapter.ts:350-358 | a command that asks for a hold changes the answer to no later availability query |
| RentalsTheory.GrantedReservesIffConfirmed | packages/domain/src/rentals-adapter.ts:348-358 | a granted command for a positive quantity takes units from some later query exactly when it asked for a confirmed booking, of a window that runs forwards or that a longer window with units to offer surrounds |
| RentalsTheory.OneOperationPerKey | packages/domain/src/rentals-adapter.ts:294-309 | in every run at most one stored operation exists per idempotency key |
| RentalsTheory.OneBookingPerConfirmedOperation | packages/domain/src/rentals-adapter.ts:348-381 | in every run with fresh ids bookings and operations only grow, and as many bookings are added as operations stored as confirmed |
| RentalsTheory.ReplayReturnsStored | packages/domain/src/rentals-adapter.ts:295-309 | a replay returns the stored operation, changes nothing, and conflicts exactly when the hashes differ |
| RentalsTheory.ReplayConflictsIff | packages/domain/src/rentals-adapter.ts:295-309 | a replay conflicts exactly when its payload differs from the original in length or in weighted sum modulo 2^32 |
| RentalsTheory.RetryGetsFirstAnswer | packages/domain/src/rentals-adapter.ts:287-382 | after any run in between, a command sent again gets its first answer, a conflict included |
| RentalsTheory.OneUnitChangeIsDetected | packages/domain/src/rentals-adapter.ts:148-157 | changing one character of a payload always changes the hash |
| RentalsTheory.HashesAgreeIff | packages/domain/src/rentals-adapter.ts:148-157 | two payloads share a hash exactly when they have one length and weighted sums, by powers of 31, that agree modulo 2^32 |
| RentalsTheory.TwoUnitChangeIsUnseenIff | packages/domain/src/rentals-adapter.ts:148-157 | exchanging two neighbouring characters keeps the hash exactly when 31 times the first plus the second stays the same |
| RentalsTheory.TwoUnitChangeCanGoUnseen | packages/domain/src/rentals-adapter.ts:148-157 | a payload with "Aa" somewhere and the one with "BB" in its place share a hash |
| RentalsAnswers.EachBookingCounts | packages/domain/src/rentals-adapter.ts:243-259 | with nothing booked nothing is counted, and each booking counts once: if confirmed, of the pool and meeting the window, under its project's scope as existing, under any other as occupied |
| RentalsAnswers.AnswerAddsUp | packages/domain/src/rentals-adapter.ts:210-285 | the other fields of an answer: available and missing units never below zero, and an unknown pool has none |
| RentalsAnswers.BuffersWiden | packages/domain/src/rentals-adapter.ts:157-208 | bare event dates under a policy open earlier and close later by its hours; every other window stays, and the provenance says which |
| RentalsAnswers.NewCommandIsAnswered | packages/domain/src/rentals-adapter.ts:293-382 | a command with a new key gets an operation with its own ids and hash, confirmed exactly when its project is offered enough, and one booking exactly then |
| RentalsAnswers.CommandCountsForItsProject | packages/domain/src/rentals-adapter.ts:246-264 | after a granted confirmed command every query of its pool that meets its window counts its units, as existing under its project's scope and as occupied under any other; no other command changes an answer |
| RentalsAnswers.HashIs | packages/domain/src/rentals-adapter.ts:148-154 | the hash is the length and the weighted sum of the units as a signed 32-bit number |
| RentalsAnswers.StoredInPlace | packages/domain/src/rentals-adapter.ts:344-381 | an operation goes to the end of the store, or into the place of the one with its id |
| RentalsAnswers.SeedAnswers | packages/domain/src/rentals-adapter.ts:389-400 | of the 12 seed units 4 are booked from 10 November 2026 to the last second of 20 November, by one project, and 8 are offered |
| Inventory.ValidateSerializedReservation | packages/domain/src/inventory.ts:68-101 | accepts exactly when neither the resource nor any reservation objects, and otherwise reports the first objection |
| Inventory.SerializedStaysExclusive | packages/domain/src/inventory.ts:91-100 | in every run no instant lies in two confirmed windows of one asset |
| Inventory.EmptyWindowBlocksTheAsset | packages/domain/src/inventory.ts:91-95 | with nothing confirmed yet any window is accepted, and an empty one makes every later request fail |
| Inventory.BlockedIff | packages/domain/src/inventory.ts:84-100 | an asset in service refuses every window exactly when it holds a confirmed reservation with an empty one |
| Inventory.BlockedAfterRunIff | packages/domain/src/inventory.ts:84-100 | a run leaves an asset in service blocked exactly when it was blocked before, or nothing was confirmed and the first request had an empty window |
| Inventory.ResourceObjectionIs | packages/domain/src/inventory.ts:73-89 | which objection a resource meets: its kind, then its service, then its writer; none exactly when it can be reserved |
| Inventory.SerializedAcceptsIff | packages/domain/src/inventory.ts:68-101 | an asset is granted exactly when it can be reserved and shares no instant of the window with a confirmed reservation, no window of either being empty |
| Inventory.ObjectionIs | packages/domain/src/inventory.ts:92-99 | a reservation objects by its project for a common instant, and to an empty window |
| Inventory.ValidateBulkReservation | packages/domain/src/inventory.ts:106-148 | the available units, or the error with requested and available units, or the error for an empty window |
| Inventory.BulkUnitsAddUp | packages/domain/src/inventory.ts:120-134 | each confirmed reservation with an instant of the window takes its units of it once, and the rest of the pool, never below zero, is available |
| Inventory.BulkBlockedIff | packages/domain/src/inventory.ts:123-131 | a quantity that fits the pool can be booked in no window exactly when a confirmed reservation has an empty one |
| Inventory.BulkBlockedAfterRunIff | packages/domain/src/inventory.ts:120-142 | a run leaves bulk stock blocked exactly when it was blocked before, or nothing was confirmed and the first request that fits the pool had an empty window |
| Inventory.AcceptedStaysWithinPool | packages/domain/src/inventory.ts:120-142 | confirming an accepted request keeps every instant within the usable quantity, whatever its quantity |
| Inventory.BulkNeverOversold | packages/domain/src/inventory.ts:120-142 | in every run of nonnegative requests the confirmed units in use at every instant stay within the usable quantity |
| Inventory.BulkNeverOversoldIff | packages/domain/src/inventory.ts:120-142 | runs with quantities of at least a given number stay within the pool exactly when that number is not negative |
| Inventory.SumIsPeakIff | packages/domain/src/inventory.ts:123-131 | the sum is at least the true peak, and equal to it exactly when the reservations that take units of the window overlap one another |
| Inventory.CommonInstant | packages/domain/src/inventory.ts:123-131 | reservations that take units of the window and overlap pairwise are all in use at one instant of it |
| Inventory.AcceptsIffFitsSum | packages/domain/src/inventory.ts:133-142 | a positive request is accepted exactly when it fits beside the sum |
| Inventory.CheckIsExactIff | packages/domain/src/inventory.ts:120-142 | the check accepts exactly what fits at every instant if and only if the reservations that take units of the window overlap one another, and never more |
| CrewShifts.ValidateShiftRestInterval | packages/domain/src/operations.ts:142-190 | reports the first rostered shift that overlaps the new one or lies too close, and no violation exactly when there is none |
| CrewShifts.RosterStaysRested | packages/domain/src/operations.ts:151-189 | in every run two shifts of one worker with different ids lie apart by at least the minimum rest |
| CrewShifts.CheckSeparatesIff | packages/domain/src/operations.ts:156-184 | whatever their hours, the check keeps two shifts of one worker apart exactly when their ids differ |
| CrewShifts.RostersStayRestedIff | packages/domain/src/operations.ts:151-189 | whatever the hours, rosters keep all shifts of each worker apart exactly when no two candidates share worker and id |
| CrewShifts.InOrder | packages/domain/src/operations.ts:151-189 | shifts that lie pairwise apart can be put in an order in which each follows the one before it by at least the rest |
| CrewShifts.ApartShiftsSpan | packages/domain/src/operations.ts:151-189 | shifts that lie apart fill, with the rests between them, no more than the time they are within, whatever the sign of their lengths |
| CrewShifts.WorkerSpanBound | packages/domain/src/operations.ts:142-190 | n rostered shifts of one worker with different ids span at least the hours worked plus n-1 minimum rests |
| CrewShifts.RepeatedIdIsNotChecked | packages/domain/src/operations.ts:156 | of two shifts with one id both are rostered, whatever their hours |
| CrewShifts.CleanIffHoursApart | packages/domain/src/operations.ts:142-190 | for forward shifts a new shift is clean exactly when every other rostered shift of its worker lies at least so many hours away |
| CrewShifts.VerdictTells | packages/domain/src/operations.ts:156-186 | what is reported: an overlap with the shift it names, or a rest too short, in hours to the nearest tenth |
| Redaction.FilterVisible | packages/domain/src/documents.ts:285-286 | keeps the visible comments in order, and throws exactly on a null one |
| Redaction.RedactFieldValue | packages/domain/src/documents.ts:284-295 | the value kept under a key is the specified one, comments filtered first |
| Redaction.RedactObject | packages/domain/src/documents.ts:275-298 | the loop over the fields builds exactly the specified object, or throws as specified |
| Redaction.RedactDocument | packages/domain/src/documents.ts:213-299 | the recursive program computes the redaction that the theorems speak of |
| RedactionTheory.RedactionHides | packages/domain/src/documents.ts:213-299 | redaction only deletes: sensitive fields and hidden comments, at any depth |
| RedactionTheory.RedactionIsClean | packages/domain/src/documents.ts:213-299 | no sensitive key and no hidden comment is left at any depth |
| RedactionTheory.CleanIsFixed | packages/domain/src/documents.ts:213-299 | a document with nothing hidden is returned as it is |
| RedactionTheory.HiddenPartsDoNotMatter | packages/domain/src/documents.ts:279-288 | deleting hidden parts beforehand does not change the result |
| RedactionTheory.RedactionIsTheCleanTree | packages/domain/src/documents.ts:213-299 | the result is the one clean tree that deleting hidden parts can reach |
| RedactionTheory.RedactionIsIdempotent | packages/domain/src/documents.ts:213-299 | redacting twice is redacting once |
| RedactionTheory.RedactedAlikeIff | packages/domain/src/documents.ts:213-299 | two documents give one output exactly when they differ in hidden parts only |
| RedactionTheory.ThrowsIffNullComment | packages/domain/src/documents.ts:284-287 | redaction throws exactly when the traversal reaches a null in an array of comments |
| RedactionTheory.VisibilityIsKept | packages/domain/src/documents.ts:286 | the property that marks a comment visible is itself never removed |
| RedactionTheory.FacingIsKept | packages/domain/src/documents.ts:286 | nor is the property that marks it client-facing |
| SensitiveKeys.CaughtIff | packages/domain/src/documents.ts:224-282 | a key is caught exactly when it spells a listed word, case and all other characters aside; the words are given as phrases, run together or joined by underscores |
| SensitiveKeys.CamelCaseIsCaught | packages/domain/src/documents.ts:278-279 | the camel-case form of every listed phrase of two parts is caught, with a capital in front or not |
| SensitiveKeys.NamedKeysAreCaught | packages/domain/src/documents.ts:224-282 | unitCost, supplierMargin, buyRate, supplierName, internalNotes and grossProfit are caught |
| SensitiveKeys.VisibleIff | packages/domain/src/documents.ts:286 | a comment is visible exactly when one of its properties opens it to the client |
| SensitiveKeys.NothingHiddenIsLeft | packages/domain/src/documents.ts:213-299 | at no depth of the result is there a field whose key spells a listed word, or a comment that is not open to the client |
| Totp.Base32ValueIsIndex | packages/db/src/auth-crypto.ts:69-72 | the value of a character is the one place of the alphabet where its upper case stands, for upper cases of one or two letters |
| Totp.ReadSecretBits | packages/db/src/auth-crypto.ts:70-74 | the loop collects five bits for each character whose upper case is part of the alphabet and none for any other |
| Totp.ReadKeyBytes | packages/db/src/auth-crypto.ts:75-79 | the loop packs whole bytes and drops up to seven bits at the end |
| Totp.WriteCounter | packages/db/src/auth-crypto.ts:81-86 | the loop fills the buffer, last byte first, with the low bytes of the shifted counter |
| Totp.ComputeTotp | packages/db/src/auth-crypto.ts:67-98 | the code of the specification, with every read of the digest in bounds |
| Totp.MatchesWindow | packages/db/src/auth-crypto.ts:54-59 | true exactly when the token is the code of the previous, current or next step |
| Totp.VerifyTotpToken | packages/db/src/auth-crypto.ts:49-60 | accepts exactly nonempty tokens and secrets whose trimmed token matches one of the three steps |
| TotpTheory.SecretIsReadBack | packages/db/src/auth-crypto.ts:68-79 | any key is read back from every text whose characters are read as its Base32 text (RFC 4648 section 6), in either case and with characters mixed in that are no part of the alphabet |
| TotpTheory.PaddedSecretIsReadBack | packages/db/src/auth-crypto.ts:68-79 | so it is from the padded text, however much padding |
| TotpTheory.CounterBytesAreBigEndianIff | packages/db/src/auth-crypto.ts:81-86 | over all 64-bit counters, the bytes are the big-endian form exactly for counters that fit into 32 bits |
| TotpTheory.TruncationIsStandard | packages/db/src/auth-crypto.ts:89-94 | for every digest the 31-bit number is the dynamic truncation of RFC 4226 section 5.3 |
| TotpTheory.SixDigits | packages/db/src/auth-crypto.ts:96-97 | the text has six digits and their value |
| TotpTheory.CodeIsStandard | packages/db/src/auth-crypto.ts:67-98 | for the text of a key and a 32-bit counter the code is the six-digit value of RFC 4226 |
| TotpTheory.CodeIsAcceptedForAStep | packages/db/src/auth-crypto.ts:49-65 | within thirty seconds of its own instant a code is accepted exactly when the secret is not empty |
| TotpAcceptance.TimeStepIs | packages/db/src/auth-crypto.ts:52 | the counter is n exactly from 30 n to 30 (n + 1) seconds after the epoch |
| TotpAcceptance.TrimIs | packages/db/src/auth-crypto.ts:51 | trimming takes away exactly the white space around the token |
| TotpAcceptance.KeyIsNumeral | packages/db/src/auth-crypto.ts:68-79 | the key is the number that the characters of the secret stand for in base 32, written in base 256 |
| TotpAcceptance.StandardTokenAcceptedIff | packages/db/src/auth-crypto.ts:49-98 | for the Base32 text of a nonempty key, in either case and with separators, a token is accepted in the n-th period exactly when, white space around it aside, it is the six-digit value of the truncated digest for the counter n - 1, n or n + 1 |
| TotpAcceptance.CodeIsGoodForThreePeriods | packages/db/src/auth-crypto.ts:49-60 | the code of a period is accepted from the start of the one before to the end of the one after |
| TotpAcceptance.EmptyIsRefused | packages/db/src/auth-crypto.ts:50 | blank tokens and empty secrets are refused |
| BitText.BytesAreRead | packages/db/src/auth-crypto.ts:68-79 | bytes written a few bits to a character are read back, padding aside |
| ZatcaTlv.FieldsAreReadIff | packages/domain/src/country-pack-engine.ts:163-174 | walking the records recovers tags 1 to 5 and all five values exactly when none has more than 255 bytes |
| ZatcaTlv.Base64RoundTrip | packages/domain/src/country-pack-engine.ts:174 | every byte string is read back from its Base64 text (RFC 4648 section 4) |
| ZatcaTlv.Base64IsNumeral | packages/domain/src/country-pack-engine.ts:174 | the text is the number of the bytes in base 64, filled up by '=' to whole groups of four characters |
| ZatcaTlv.ScanRecoversFieldsIff | packages/domain/src/country-pack-engine.ts:156-175 | scanning the generated text gives the five fields exactly when none has more than 255 bytes |
| ZatcaTlv.TextIsInjective | packages/domain/src/country-pack-engine.ts:156-175 | two invoices whose values have at most 255 bytes never share a text |
| ZatcaTlv.TextsDifferIff | packages/domain/src/country-pack-engine.ts:156-175 | invoices with values of at most n bytes all have texts of their own exactly when n is at most 255 |
| ZatcaTlv.LongValuesCollide | packages/domain/src/country-pack-engine.ts:165 | with a 256-byte value two different invoices can share a text |
| Estimate.ValidateLumpSumDecomposition | packages/domain/src/boq.ts:188-226 | the loop sums the allocations; refuses a line that is no lump sum and a sum above it |
| Estimate.FindParents | packages/domain/src/boq.ts:257-259 | the ids of the top-level lump sums, each once, in order |
| Estimate.CheckBreakdowns | packages/domain/src/boq.ts:262-268 | the error of the first lump sum whose breakdown fails, if any |
| Estimate.Accumulate | packages/domain/src/boq.ts:270-318 | the loop adds up cost, net sell and discount of the counted lines and prices every line |
| Estimate.CalculateEstimate | packages/domain/src/boq.ts:243-359 | the error or the summary that the theorems speak of |
| EstimateTheory.AcceptedIff | packages/domain/src/boq.ts:256-268 | with distinct ids an estimate is accepted exactly when the breakdown of each top-level lump sum fits it |
| EstimateTheory.DroppingABreakdownKeepsTotals | packages/domain/src/boq.ts:289-299 | deleting the whole breakdown of a lump sum changes no total |
| EstimateTheory.OrderDoesNotMatter | packages/domain/src/boq.ts:252-359 | neither acceptance nor any total depends on the order of the lines |
| EstimateTheory.GrandTotal | packages/domain/src/boq.ts:320-338 | the total is the subtotal times one less the discount, one plus the fee and one plus the tax |
| EstimateTheory.NothingCountedTwiceIff | packages/domain/src/boq.ts:289-299 | no line at any depth below a counted lump sum is counted if and only if breakdowns are one level deep |
| EstimateTheory.NestedBreakdownIsCountedTwice | packages/domain/src/boq.ts:257-299 | a lump sum of 100 with a nested breakdown is accepted at a subtotal of 160 |
| EstimateTheory.AllocationsFitTheTotalIff | packages/domain/src/boq.ts:201-218 | every accepted breakdown stays within what its lump sum adds to the total exactly when its duration and discount do not reduce it, whatever the sign of the lump sum |
| EstimateTheory.ClientSeesNoCost | packages/domain/src/boq.ts:365-394 | the proposal, or the refusal, is the same for inputs that differ only in unit costs |
| EstimateAmounts.LineIsCalculated | packages/domain/src/boq.ts:267-314 | every line is calculated from the values given: defaults for missing and zero values, price times quantity times duration, discount percentage, own or default tax rate |
| EstimateAmounts.CalculationIsDetermined | packages/domain/src/boq.ts:267-314 | those rules leave one result |
| EstimateAmounts.SummaryIsDetermined | packages/domain/src/boq.ts:243-359 | an accepted estimate reports exactly the summary of its lines: sums over those that count, overall discount, fee on the rest, tax on both, profit |
| EstimateAmounts.BreakdownIs | packages/domain/src/boq.ts:197-221 | the shares of a breakdown are the allocated portions or else prices times quantity and duration; it is refused with both amounts exactly when they exceed the lump sum, and full when they equal it |
| EstimateAmounts.BreakdownLines | packages/domain/src/boq.ts:260 | the breakdown of a lump sum is made of the lines that name it |
| EstimateAmounts.RefusalIsFirst | packages/domain/src/boq.ts:258-264 | a refusal names the amounts of the first lump sum whose breakdown does not fit |
| EstimateAmounts.ProposalShows | packages/domain/src/boq.ts:365-394 | a proposal shows the sell side of the summary as it is |
| StableSort.SortIsStable | packages/domain/src/procurement.ts:556 | sorting gives ascending keys, keeps every element and keeps the order within a key |
| StableSort.StableSortIsUnique | packages/domain/src/procurement.ts:556 | these three fix the result |
| BidEvaluation.MinPrice | packages/domain/src/procurement.ts:516-522 | the loop finds the lowest price |
| BidEvaluation.EvaluateBids | packages/domain/src/procurement.ts:507-567 | fails exactly without quotes; otherwise ranks the evaluations made with the lowest price |
| BidEvaluation.RankingIsDetermined | packages/domain/src/procurement.ts:555-566 | every evaluation once, in descending order of score, ties in quote order, the first recommended and no other: this fixes the result |
| BidEvaluation.RecommendedIsFirstBest | packages/domain/src/procurement.ts:555-564 | the recommended quote is the first of those with the highest score |
| BidEvaluation.CheaperScoresNoLower | packages/domain/src/procurement.ts:529-532 | with no negative price a lower price never scores lower, rounding included |
| BidEvaluation.CheaperScoresNoLowerIff | packages/domain/src/procurement.ts:529-532 | a lower price never scores lower, for all prices down to the lowest, exactly when that one is not negative |
| BidEvaluation.DominantQuoteScoresNoLower | packages/domain/src/procurement.ts:517-540 | with a nonnegative lowest price and nonnegative weights, a quote no dearer and no worse in the other scores never gets a lower composite score, two roundings notwithstanding |
| BidEvaluation.NegativePricesTurnTheScore | packages/domain/src/procurement.ts:517-540 | for every negative lowest price, a quote at that price gets a composite of 100 and one at half of it 200 |
| BidEvaluation.DominanceCountsIff | packages/domain/src/procurement.ts:517-540 | a quote no dearer and no worse never gets a lower composite, in all lists with a given lowest price and for all nonnegative weights, exactly when that price is not negative |
| BidEvaluation.EvaluationIff | packages/domain/src/procurement.ts:524-553 | the three scores of a quote with their defaults, and their weighted sum rounded, are what is reported and nothing else is |
| BidEvaluation.RecommendedIsQuote | packages/domain/src/procurement.ts:524-564 | the recommended quote is the first of those given whose composite score is highest |
| PackManifest.ReorderingKeepsManifest | packages/domain/src/documents.ts:832-847 | when an index fixes the entry, every order of the items gives one list of entries |
| PackManifest.ManifestIgnoresOrderIff | packages/domain/src/documents.ts:827-849 | the hashed data is the same for every order of the items exactly when items with one index have one entry |
| PackManifest.ManifestLists | packages/domain/src/documents.ts:832-847 | the data names the pack and the revision and lists every entry in ascending order of index |
| PackManifest.ManifestBindsIff | packages/domain/src/documents.ts:827-849 | two packs give the same data exactly when they agree on pack, revision and, for every index, on the entries that have it in their order |
| Attendance.CollectSets | packages/domain/src/integrations.ts:63-72 | the loop builds the set of attendees of each day and of all days |
| Attendance.AggregateAttendance | packages/domain/src/integrations.ts:61-91 | the counts are the sizes of these sets, and the sum over the days is the number of distinct pairs of day and attendee |
| Attendance.CountsCompare | packages/domain/src/integrations.ts:74-81 | day count, attendees, sum over days and scans ascend; attendees equal the sum exactly when nobody came on two days |
| WavefrontMesh.ReadFace | packages/domain/src/designs.ts:803-810 | the loop turns positive and negative references into indices and skips what is no number |
| WavefrontMesh.DrawFace | packages/domain/src/designs.ts:811-821 | the loop draws each side unless its key is known, and the key set stays in step with the edges |
| WavefrontMesh.MeasureBounds | packages/domain/src/designs.ts:826-835 | the bounds enclose every vertex and are attained in each direction |
| WavefrontMesh.ParseWavefrontObj | packages/domain/src/designs.ts:786-844 | the loop over the lines collects vertices, faces, edges and bounds as specified |
| WavefrontMesh.WireframeIsExact | packages/domain/src/designs.ts:813-821 | the wireframe holds each side of each face once, whatever its orientation, and nothing else |
| WavefrontMesh.EdgesRunWithFaces | packages/domain/src/designs.ts:813-820 | every edge joins two consecutive corners of a face in the direction the face runs |
| WavefrontMesh.VertexLineAdds | packages/domain/src/designs.ts:795-799 | a vertex line adds its first three numbers in order when there are three and all can be read |
| WavefrontMesh.FaceLineAdds | packages/domain/src/designs.ts:800-812 | a face line adds the face it names when that has three corners; other lines add nothing |
| WavefrontMesh.ReferencesAreRead | packages/domain/src/designs.ts:803-809 | references are read one by one: r is the r-th vertex, -r the r-th from the last one read so far |
| WavefrontMesh.ReferenceNamesVertex | packages/domain/src/designs.ts:804-807 | a reference names a vertex read so far exactly when it is not zero and at most their number, its sign aside |
| WavefrontMesh.WireframeJoinsCorners | packages/domain/src/designs.ts:812-820 | two numbers are joined exactly when one comes next after the other in some face, the first after the last, and never twice |

## Left out

- CalculateCpmSchedule: hours are exact reals, so rounding, NaN and infinite hours are not modelled; code, title and stage number of a task are only passed on and are not carried.
- ApplyCueDelay: instants and delays are integers, text dates and their parsing are not modelled, and the note on a propagated cue is kept as a list of remarks instead of one text.
- SubmitReservationCommand: the ids drawn from the clock and a random source come with the command; `OneBookingPerConfirmedOperation` and `RetryGetsFirstAnswer` assume them fresh. Status text, timestamps and source records of an operation are not carried.
- ComputePayloadHash: works on the UTF-16 units of the serialised request; JSON serialisation itself is not modelled.
- QueryAvailability: windows are integer instants; formatting them with an offset and the descriptive fields of the answer are not modelled.
- ValidateSerializedReservation: error texts are not modelled; the same holds for the other checks.
- RedactDocument: documents are finite JSON trees; keys such as `__proto__`, class instances and dates are not modelled, and characters outside ASCII are taken to have no ASCII lower case except the two that do.
- ComputeTotp: HMAC-SHA1 is a parameter that returns any 20-byte digest; a counter is an integer, and texts are read character by character, as none outside the basic plane has an upper case in the alphabet.
- CounterBytesAreBigEndianIff: speaks of 64-bit counters only, because a larger one has no 8-byte form.
- ScanRecoversFieldsIff: values are the bytes of their UTF-8 texts; UTF-8 coding itself is not modelled.
- CalculateEstimate: decimals are exact reals, without the 24-digit rounding; malformed numeric texts, margin and markup percentages and the text form of amounts in a proposal are not modelled.
- EvaluateBids: prices and scores are exact reals in one currency; the rationale text is not modelled.
- ManifestIgnoresOrderIff: speaks of the data that is hashed; SHA-256 and the JSON text of the data are not modelled.
- AggregateAttendance: the text of the duplication ratio is not modelled; a day named like a built-in property of an object is not treated apart.
- ParseWavefrontObj: starts from the tokens of each line; splitting lines and reading numbers from text are not modelled, and the infinite bounds of a mesh without vertices are modelled as absent.
- Purchase-order release, timeout and reconciliation, committed-cost aggregation, receipts: guards and record copies, which would only add easy members.
- Bump-in shift generation and the constraint workflow: per-slot guards over fixed data.
- The production rentals adapter's connection modes: dispatch to the simulator or to a snapshot.
- Movements, holds and drawing revisions in inventory, trips and dispatch in operations: guarded record copies.
- Readiness scores, KPI, closeout, finance and role tables: linear formulas and lookups.
- The PDF pack, the glTF reader and the bundled stage mesh: text assembly and fixed data.
- The web application, the API bootstrap, database access and schema validation: presentation and plumbing.
