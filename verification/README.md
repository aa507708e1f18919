# Verification of the assistant's core algorithms

A Dafny model of the parts of the repository that carry real algorithms, state or arithmetic, with proofs about
them. `dafny verify dfyconfig.toml` checks everything. Each module is one file of the same name.

- **Asking.** `PlanGraph` and `PlanValidator` model how a proposed plan is filtered, closed under its dependencies and
  checked for cycles, and `PlanMeaning` says which units are kept and what they become. `PlanExecutor` and
  `PlanSchedule` model the round-based executor. What becomes of each future (records, an exception, not done in
  time) is an input and the order in which futures finish is left open; `PlanOutcomes` says what is made of them.
  Together they show that the executor's "unresolved dependency" branch cannot be reached with a validated plan.
  The validator does not enforce distinct ids; `PlanStages` shows when a plan with shared ids still gets a bundle
  for every unit, and a validated plan that does not.
- **Provider keys.** `KeyPool` is the round-robin pool with cooldowns, `KeyPoolHistory` proves what holds over every
  history of calls, and `Failover` is the retry loop of one chat completion over it. The clock only moves forward;
  the answers of the provider are inputs, the time they take and the jitter are left open.
- **Write-ahead log.** `Wal` models the operations one at a time. `WalInterleaving` runs them as threads whose reads,
  truncations, writes and lock operations interleave freely, and `WalLinearizable` shows that every interleaving
  equals a serial execution that respects real time. `Recovery`, `RecoveryRuns` and `RecoveryWorker` model recovery
  passes with failures and crashes between any two durable effects.
- **Dates and texts.** `Calendar` is the proleptic Gregorian calendar (section 3.2.1 of ISO 8601:2004) with day
  numbers; `TimeTools` resolves relative expressions, intervals and deadlines on it. `TextChunks` splits messages by
  UTF-8 width (section 3 of RFC 3629).
- **Ranking and answers.** `MergeRecords` and `MergePool`, `NoteFusion` and `NoteRerank` model the ranking steps with
  exact fractions. `AnswerText`, `AnswerContract` and `ClaimExport` model the answer contract in both of its forms.
  `BusinessItems` and `BusinessCut` model the list of business items and its cut.

`Ordering` and `Options` hold what these share: string order, stable sorting, filtering, duplicate-free lists.

Where a loop or an object of the source updates state, the model is a method or a class whose contract ties it to a
specification function; the properties are proved about that function.

## Where the code and its description differ

- `agent/query_agent.py:1535-1536` says that the order in which items are returned never changes a list answer. That
  fails when two top items tie where the list shows them: `BusinessCut.TieOnInput` is an input, and
  `BusinessCut.ListIndependentIffTiesAreCut` gives the exact condition.
- `core/time_tools.py:96-102` reads a month-end deadline from the period only when it is written without white space
  and with no suffix, 前 or 之前, while resolving ignores white space and strips 以前 and 截止 as well.
  `TimeTools.MonthEndOfPeriod` says when the deadline is the end of the period.
- A test in `tests/test_note_reranker.py` is named after rewrites never outvoting the original wording. That holds
  for the first 14 ranks; `NoteFusion.ShareThreshold` gives the exact trade-off and `NoteFusion.FifteenthIsOvertaken`
  shows that 14 cannot be raised.
- In `core/worker.py:359-368` an exception while marking a repeated record leaves the pass, unlike one while
  processing a record. `RecoveryWorker.Worker.ProcessPending` reports it as an aborted pass, and
  `RecoveryWorker.ExposedIffRepeats` says exactly when it can happen.

## Model

| member | source | states |
|---|---|---|
| `PlanGraph.CycleSearch.Visit` | agent/ask_plan_validator.py:165-174 | one depth-first visit reports whether a cycle is reachable through the node from the current stack, and otherwise extends the finished nodes as a topological order |
| `PlanGraph.CycleSearch.Run` | agent/ask_plan_validator.py:160-176 | the search terminates and returns true exactly when the graph restricted to known ids has a directed cycle; shared visited and active sets hide none |
| `PlanGraph.TopoOrderExcludesCycles` | agent/ask_plan_validator.py:160-176 | no node of a topological order lies on a cycle, which is why an answer of false can be trusted |
| `PlanGraph.StackGrows` | agent/ask_plan_validator.py:165-174 | a node that is visited from the top of the stack is led to by every node on it, which is why an answer of true can be trusted |
| `PlanValidator.KeepDependencies` | agent/ask_plan_validator.py:206-206 | exactly the dependencies that are known and not the unit itself, without duplicates if there were none |
| `PlanValidator.HasCycle` | agent/ask_plan_validator.py:160-176 | the cycle check applied to the accepted units is the existence of a cycle in their dictionary of dependencies |
| `PlanValidator.AcceptUnits` | agent/ask_plan_validator.py:193-211 | the filtering loop computes Accepted: repair, type check, span check, anchor repair, known dependencies, first of each identity, within the clamped window |
| `PlanValidator.CloseUnits` | agent/ask_plan_validator.py:213-215 | the second loop restricts every accepted unit to accepted dependencies and changes nothing else |
| `PlanValidator.ValidateAskPlan` | agent/ask_plan_validator.py:179-223 | the whole validator computes Validated for every payload, including the unparsable one and the fallback branches |
| `PlanValidator.ValidatedIsExecutable` | agent/ask_plan_validator.py:213-223 | whatever the payload, a returned plan has at least one unit, dependencies among its own units only, and no cycle |
| `PlanValidator.AcceptedPositions` | agent/ask_plan_validator.py:196-211 | accepted units come from distinct, increasing positions of the raw list |
| `PlanValidator.ValidatedKeepsDistinctIds` | agent/ask_plan_validator.py:195-222 | distinct raw ids stay distinct in the returned plan |
| `PlanValidator.ValidatedIsWellTyped` | agent/ask_plan_validator.py:198-209 | in a returned plan no two units ask for the same identity, and each memory type is the one its intent demands |
| `PlanMeaning.PronounAsksForTasks` | agent/ask_plan_validator.py:67-75 | a pronoun together with a word for progress turns any unit into the list of current tasks |
| `PlanMeaning.PastAsksForTimeline` | agent/ask_plan_validator.py:76-90 | otherwise a question about the past turns a note lookup about what happened into recent episodes with their sources, and any other state into history |
| `PlanMeaning.OtherRules` | agent/ask_plan_validator.py:91-114 | otherwise a date of an action asks for the state of a task, a list of tasks for the inventory, and every other unit stays as it is |
| `PlanMeaning.RepairAnchorIs` | agent/ask_plan_validator.py:145-157 | a unit whose question has lost its first supported span asks for that span, and only the question and topic change |
| `PlanMeaning.AdmitIs` | agent/ask_plan_validator.py:197-206 | a raw unit can be kept exactly when some span is supported and its memory type does not contradict its repaired intent; every field of what it becomes |
| `PlanMeaning.KeptPositions` | agent/ask_plan_validator.py:196-211 | of the units that can be kept, exactly the first of each identity is kept, in the order of the list |
| `PlanMeaning.WindowIs` | agent/ask_plan_validator.py:196-196 | as many units are looked at as asked for, at least one and at most six |
| `PlanMeaning.KeptUnits` | agent/ask_plan_validator.py:193-215 | a raw unit of the window is dropped exactly when no span is supported, its type contradicts its intent, or a kept unit before it asks the same; what the others become, with dependencies on kept ids only |
| `PlanMeaning.FallbackIs` | agent/ask_plan_validator.py:30-45 | the fallback is one note lookup of the question with its sources, or of a fixed wording when the question is blank |
| `PlanMeaning.ValidatedIs` | agent/ask_plan_validator.py:186-223 | the fallback replaces the plan exactly when it does not parse, no unit of the window can be kept, or what is kept is cyclic; otherwise the kept units are returned with the normalized question |
| `PlanExecutor.ReadyUnits` | agent/ask_executor.py:675-679 | exactly the units that are not complete and whose dependencies all are |
| `PlanExecutor.RoundProgress` | agent/ask_executor.py:708-750 | a round with a ready unit settles at least one more id, so the rounds end |
| `PlanExecutor.Execution.Consume` | agent/ask_executor.py:697-706 | a future that returned leaves a bundle with exactly its records, one that raised an error bundle without records; either way its unit is complete |
| `PlanExecutor.Execution.RunRound` | agent/ask_executor.py:720-750 | in whatever order futures finish and whenever the budget runs out, each ready unit gets exactly the bundle its future decides: its records, an error, or a timeout |
| `PlanExecutor.Execution.StoreLeftovers` | agent/ask_executor.py:710-719 | when nothing is ready, exactly the incomplete ids get an unresolved bundle, one each |
| `PlanExecutor.Execution.SortResult` | agent/ask_executor.py:751-752 | the final sort orders the bundles by plan position and keeps them all |
| `PlanExecutor.Execution.Execute` | agent/ask_executor.py:683-754 | the executor terminates; the bag of its bundles is decided by the plan and by what becomes of each future, with one unresolved bundle for each id the rounds cannot settle; they stand in plan order; a unit is dispatched only after every unit it depends on has its bundle; the dictionaries agree with the bundles |
| `PlanOutcomes.FutureDecides` | agent/ask_executor.py:697-750 | for every dispatch, shared ids or not: a future that returned leaves its records as resolved, one that raised a domain error, one not done a timeout |
| `PlanOutcomes.RecordsFollow` | agent/ask_executor.py:697-750 | an id has records exactly when a unit with it was dispatched, and they are those of one of its futures, or none if that did not return |
| `PlanOutcomes.ErrorsFollow` | agent/ask_executor.py:697-750 | an id is among the errors exactly when one of its futures raised or was not done, with that reason, and among the timeouts exactly when one was not done |
| `PlanSchedule.OneBundlePerUnit` | agent/ask_executor.py:703-752 | with distinct ids the bundles are exactly one per unit, in plan order |
| `PlanSchedule.ScheduleSettles` | agent/ask_executor.py:708-750 | every id is settled by one dispatch and everything dispatched is settled |
| `PlanSchedule.SettledInOrder` | agent/ask_executor.py:708-750 | the rounds settle ids in a topological order |
| `PlanSchedule.SettledNotBlocked` | agent/ask_executor.py:675-719 | no settled id leads to a cycle or to an unknown id |
| `PlanSchedule.UnsettledExactlyBlocked` | agent/ask_executor.py:675-719 | for any plan with distinct ids, the unresolved units are exactly those that reach a cycle or an unknown id along their dependencies |
| `PlanSchedule.SettledIsLeast` | agent/ask_executor.py:675-750 | the rounds compute the least set closed under readiness |
| `PlanSchedule.ExecutableSettlesAll` | agent/ask_executor.py:708-719 | a plan with closed dependencies and no cycle is settled completely and never reaches the unresolved branch, even when units share an id |
| `PlanSchedule.ValidatedPlanRunsThrough` | agent/ask_plan_validator.py:213-223 | every unit of a validated plan with distinct ids is dispatched once and none is left over |
| `PlanSchedule.AnswerPlan` | agent/ask_executor.py:683-754 | validation followed by execution, for every outcome of every future: one bundle per unit in plan order, none unresolved, dependencies first, and the bundles are those the futures decide |
| `PlanStages.StageIs` | agent/ask_executor.py:675-679 | the stage of a unit, computed from the dependencies alone, is the first at which all its dependencies are reached |
| `PlanStages.RoundIsStage` | agent/ask_executor.py:708-750 | a round of the executor settles exactly the next stage |
| `PlanStages.DispatchCounts` | agent/ask_executor.py:675-706 | of the units that share an id exactly those able at the stage that reaches the id are dispatched |
| `PlanStages.OneBundleIffStagesAgree` | agent/ask_executor.py:703-752 | for every plan, each unit gets a bundle of its own exactly when any two units with one id have the same stage |
| `PlanStages.ValidatedNeverUnresolved` | agent/ask_plan_validator.py:213-223 | no validated plan reaches the unresolved branch, whether its ids are distinct or not |
| `PlanStages.NoStageIff` | agent/ask_executor.py:675-679 | a unit has no stage exactly when some dependency of it is never settled, unknown ids included |
| `PlanStages.UnsettledIffNoStage` | agent/ask_executor.py:703-752 | for every plan, an id is left unresolved exactly when no unit that carries it has a stage |
| `PlanStages.ValidatedOneBundleIff` | agent/ask_plan_validator.py:195-223 | a validated plan gets one bundle for each unit exactly when units that share an id have the same stage |
| `PlanStages.AnswerAnyPlan` | agent/ask_executor.py:683-754 | validation and execution of any payload under every pattern of outcomes: nothing unresolved, dependencies first, and one bundle per unit exactly when the stages of shared ids agree |
| `PlanStages.SharedIdsPassValidation` | agent/ask_plan_validator.py:195-223 | the validator returns a plan with two units of one id as it is: their topics differ, and it does not compare ids |
| `PlanStages.SharedIdsLoseAUnit` | agent/ask_executor.py:675-706 | in that plan the namesakes have different stages, and three units come back as two bundles |
| `KeyPool.UniqueKeys` | core/llm_key_pool.py:62-68 | the first occurrence of every non-empty key, in order, without duplicates |
| `KeyPool.FreeOffsetIs` | core/llm_key_pool.py:136-146 | the offset found is the first from the cursor whose key is a candidate and not cooling |
| `KeyPool.EarliestIs` | core/llm_key_pool.py:149-150 | the value awaited is the least cooldown end among the candidates and is attained |
| `KeyPool.CandidatesAre` | core/llm_key_pool.py:137-144 | searching from the cursor and building the rotated candidate lists give the same first available key |
| `KeyPool.FallbackIsCandidates` | core/llm_key_pool.py:138-143 | falling back to all keys when every key is excluded is the same as ignoring the exclusion |
| `KeyPool.APIKeyPool.Acquire` | core/llm_key_pool.py:131-150 | returns the key, the wait and the new cursor of Acquired and changes nothing else |
| `KeyPool.APIKeyPool.ReportSuccess` | core/llm_key_pool.py:152-160 | counts a success and clears the failures of that key only |
| `KeyPool.APIKeyPool.ReportFailure` | core/llm_key_pool.py:162-184 | counts a failure and extends the cooldown of that key only, by category |
| `KeyPool.APIKeyPool.HasAlternative` | core/llm_key_pool.py:186-189 | whether some unused key is not cooling |
| `KeyPoolHistory.CooldownsOnlyGrow` | core/llm_key_pool.py:131-184 | over every history of calls no cooldown ever moves earlier |
| `KeyPoolHistory.AcquiredIsUsable` | core/llm_key_pool.py:131-148 | a returned key is configured and not cooling, and excluded only if all keys are |
| `KeyPoolHistory.BalanceRest` | core/llm_key_pool.py:170-171 | a key reported as out of balance at time t is returned by no acquire before t + 1800, whatever happens in between |
| `KeyPoolHistory.RateLimitRest` | core/llm_key_pool.py:172-178 | a key that hit its rate limit is returned by no acquire for at least three quarters of the time the provider asked for, or of the default, whatever the jitter |
| `KeyPoolHistory.RateLimitRange` | core/llm_key_pool.py:172-178 | after a rate limit the cooldown is at least three quarters and at most five quarters of the time asked for, unless it already lasted longer |
| `KeyPoolHistory.FailureRests` | core/llm_key_pool.py:170-184 | an exhausted balance rests a key for 1800 seconds, a connection or server error for the configured time, any other error not at all |
| `KeyPoolHistory.ReportConcerns` | core/llm_key_pool.py:152-184 | a report counts for the key it names and changes nothing else; a success forgets the failures |
| `KeyPoolHistory.WaitIsExact` | core/llm_key_pool.py:149-150 | the wait returned with no key is exact: any earlier acquire still fails, and from then on acquire succeeds if nothing else changed |
| `KeyPoolHistory.AlternativeIsAcquired` | core/llm_key_pool.py:186-189 | an alternative exists exactly when an acquire that excludes the used keys returns an unused key |
| `KeyPoolHistory.AcquireTakesTurn` | core/llm_key_pool.py:136-148 | with nothing excluded, acquire takes the first non-cooling key from the cursor on and moves the cursor past it |
| `KeyPoolHistory.WindowIsTurn` | core/llm_key_pool.py:136-148 | one turn of the wheel from any position meets every non-cooling slot once |
| `KeyPoolHistory.RoundRobin` | core/llm_key_pool.py:131-150 | while the set of non-cooling keys stays fixed and nothing is excluded, as many consecutive acquires as that set has members return each of its keys exactly once, from any cursor |
| `Failover.ClientFromKeyPool` | core/llm_client.py:188-206 | hands out the key acquire offers, waiting once for the suggested time when all candidates are cooling, and marks it used; there is no key only when the pool has none |
| `Failover.RetryIsLegal` | core/llm_client.py:281-304 | a timeout within the budget repeats the same key |
| `Failover.FailoverIsLegal` | core/llm_client.py:305-335 | a failover moves to a key that no attempt of this call has used |
| `Failover.AttemptBound` | core/llm_client.py:262-336 | a legal log of attempts has at most max(1, keys) + retries entries |
| `Failover.AfterError` | core/llm_client.py:305-336 | after an attempt that is not repeated, the call moves to a fresh key, or raises with the failure reported |
| `Failover.OneAttempt` | core/llm_client.py:262-336 | one pass of the loop keeps the log legal and the pool explained by its history |
| `Failover.ChatCompletion` | core/llm_client.py:247-336 | the call ends after at most max(1, keys) + timeout retries attempts, each of which ends as the provider has it; its log is legal, and uses one key only when the client takes no other; the pool ends as its history of acquires and reports leaves it |
| `Failover.OnlyTheseGoOn` | core/llm_client.py:281-336 | only a timeout, a rate limit, a connection or server error or an exhausted balance is followed by another attempt: on the same key within the budget of timeouts, otherwise on one not used before; any other error ends the call |
| `Failover.RaisedOnlyWhenExhausted` | core/llm_client.py:305-336 | when one of these errors reaches the caller although another key could be taken, every key has been used in the call or is cooling |
| `Wal.SafeSpaceId` | core/file_lock.py:20-27 | a name of the same length with every unsafe character replaced, which keys both the file and the lock |
| `Wal.SharedFile` | core/file_lock.py:20-27 | two spaces share a file and a lock exactly when their names differ only in characters that are replaced or are the replacement |
| `Wal.EffectExtends` | core/wal.py:201-278 | every operation extends the log: no record is lost, moved or renamed, and distinct message ids stay distinct |
| `Wal.LogFiles.AppendRecord` | core/wal.py:72-85 | the record is added at the end of the file of its space; other files are untouched |
| `Wal.LogFiles.MessageExists` | core/wal.py:110-123 | whether some record of the space has the message id |
| `Wal.LogFiles.AppendMessageOnce` | core/wal.py:201-213 | appends and reports True exactly when the message id is new, otherwise changes nothing |
| `Wal.LogFiles.LoadPendingRecords` | core/wal.py:216-227 | every pending record of the space, in log order, at its position in the log |
| `Wal.LogFiles.MarkProcessed` | core/wal.py:230-248 | records with the id get the status processed and keep everything else; all other records and files are as before |
| `Wal.LogFiles.MarkSensitiveBlocked` | core/wal.py:251-278 | the text of every record with the id is the notice, its status blocked, or pending when asked, and its sensitivity the category; all other records and files are as before |
| `WalInterleaving.MutualExclusion` | core/file_lock.py:47-59 | two calls on one file are never inside their locked blocks together |
| `WalInterleaving.StepKeepsInv` | core/file_lock.py:30-59 | every step of every thread keeps the lock and snapshot invariant, with re-entrant locking |
| `WalInterleaving.StepTakesEffectOnce` | core/wal.py:201-278 | a call takes effect once and its report is settled then |
| `WalInterleaving.StepRefines` | core/wal.py:201-278 | the step at which a call takes effect does to the observable log what the whole operation does; no other step changes it |
| `WalLinearizable.EffectOrderComplete` | core/wal.py:201-278 | the effect order of a run holds exactly the calls that took effect in it |
| `WalLinearizable.EffectOrderDistinct` | core/wal.py:201-278 | no call takes effect twice |
| `WalLinearizable.Linearizable` | core/wal.py:201-278 | every interleaving gives the log, and the reports, of the same operations run one after another in effect order |
| `WalLinearizable.NothingLost` | core/wal.py:230-278 | in every interleaving the log only grows by extension and never repeats a message id |
| `WalLinearizable.OneAppendWins` | core/wal.py:201-213 | of all concurrent appends of a new message that took effect, exactly one reports True |
| `WalLinearizable.RunSplits` | core/wal.py:201-278 | a run is the run of its first part followed by the rest, and its effect order is the effect order of the first part followed by that of the rest |
| `WalLinearizable.RealTimeOrder` | core/wal.py:201-278 | a call that returned before another one started comes before it in the effect order |
| `WalLinearizable.ReachableIsSafe` | core/file_lock.py:30-59 | from any state in which no call has started, every legal schedule ends in a state that satisfies the invariant the theorems on runs ask for |
| `WalLinearizable.NoDeadlock` | core/file_lock.py:47-59 | whenever some call has not returned, some call can move |
| `WalLinearizable.StuckIsFinished` | core/file_lock.py:47-59 | nothing can move exactly when every call has returned |
| `Recovery.WorkKeepsSafe` | core/worker.py:129-245 | no durable effect of processing a record breaks safety |
| `Recovery.TodoJustified` | core/worker.py:144-245 | all effects process_record performs, in its order, are justified when they happen |
| `RecoveryRuns.EventKeepsInv` | core/worker.py:337-385 | appends, single effects, passes, failures and crashes keep the invariant |
| `RecoveryRuns.RunsAreSafe` | core/worker.py:129-385 | in every run each message of the log has a pending record, a blocked record or a note; no message has two notes; no note holds text the sensitivity check blocks |
| `RecoveryRuns.NotesArePermanent` | core/worker.py:129-385 | notes are never lost and the log only grows by extension |
| `RecoveryRuns.EmptyIsSafe` | core/worker.py:337-385 | a fresh installation satisfies the invariant |
| `RecoveryRuns.BlockedTextIsGone` | core/worker.py:144-159 | once a record has been blocked, no later state of any run holds anything but the notice under its id |
| `RecoveryRuns.RunKeepsRedacted` | core/wal.py:163-198 | in every run every blocked record of the log holds the notice only, as blocked records are created with it |
| `RecoveryWorker.Worker.ProcessRecord` | core/worker.py:129-245 | performs the effects of Todo in order: all of them, or the prefix before the statement that raised |
| `RecoveryWorker.Worker.Attend` | core/worker.py:348-383 | one record of a pass: processed, or only marked when its message was seen before; an exception in processing is counted, and only marking a repeated record that has an id can end the pass |
| `RecoveryWorker.Worker.ProcessPending` | core/worker.py:337-385 | a pass stays safe, only extends log and notes, counts every record, and without a failure leaves none of its snapshot pending; it can only end early when a record of the snapshot that has an id repeats the message of an earlier one; each note it adds has the id, message and text of a record of the snapshot; without a failure every storable first record of a message has its note, and the log holds a text the check blocks exactly for records that repeat a message |
| `RecoveryWorker.ExposedIffRepeats` | core/worker.py:344-385 | some run of a pass comes to work whose failure the pass does not catch exactly when a pending record that has an id repeats the message of an earlier one |
| `RecoveryWorker.RepeatIsMet` | core/worker.py:344-376 | a pass without any failure comes to the repeated record, so the early end needs no earlier fault |
| `RecoveryWorker.TurnSettles` | core/worker.py:348-376 | a completed turn takes its record, and no other, out of the pending state |
| `Calendar.ClosedForm` | core/time_tools.py:42-62 | the day count before a year, as a sum of year lengths, is the closed form of the date library |
| `Calendar.OrdinalMonotone` | core/time_tools.py:65-66 | earlier dates have smaller day numbers |
| `Calendar.OrdinalBijection` | core/time_tools.py:42-62 | dates and day numbers correspond one to one, so adding days is well defined |
| `Calendar.MonthLengths` | core/time_tools.py:50-50 | the lengths of the months, with the leap-year rule |
| `TimeTools.IsoOrder` | core/time_tools.py:34-34 | comparing ISO texts, as the source does, is comparing dates |
| `TimeTools.RangesAreOrdered` | core/time_tools.py:65-67 | a resolved range is made of real dates and does not end before it starts |
| `TimeTools.WeekResolves` | core/time_tools.py:42-45 | a week expression resolves, to the seven days from its Monday, exactly when they lie in the supported years |
| `TimeTools.MonthResolves` | core/time_tools.py:53-57 | a month expression resolves, to the whole month, exactly when its year is supported |
| `TimeTools.LastDaysResolves` | core/time_tools.py:58-62 | "last n days" resolves exactly when its first day is supported |
| `TimeTools.WeekShape` | core/time_tools.py:42-45 | weeks start on Monday and have seven days; this week contains the reference day |
| `TimeTools.WeeksTile` | core/time_tools.py:42-45 | the day after the end of one week is the start of the next, across month, leap-year and year boundaries |
| `TimeTools.WeekdayInWeek` | core/time_tools.py:42-48 | a named weekday is that day of that week |
| `TimeTools.MonthShape` | core/time_tools.py:53-57 | a month expression covers a whole calendar month; this month contains the reference day |
| `TimeTools.MonthsTile` | core/time_tools.py:53-57 | the day after the end of one month is the start of the next, across leap days and years |
| `TimeTools.LastDaysExact` | core/time_tools.py:58-62 | "last n days" is exactly n days ending on the reference day |
| `TimeTools.RelativeIs` | core/time_tools.py:51-52 | 前天 to 后天 resolve to the one day so many days from the reference, exactly when the calendar has it |
| `TimeTools.MonthDayIs` | core/time_tools.py:39-41 | a month and a day are that day of the year named or of the reference year, and raise when there is none |
| `TimeTools.ClockIs` | core/time_tools.py:76-91 | a deadline falls on the last day of its period at the time stated, afternoon and evening hours counting from noon; a time the day does not have raises |
| `TimeTools.FieldsAre` | core/time_tools.py:89-110 | a wording that is not in the message is refused, and exactly the wordings that resolve to nothing are unresolved |
| `TimeTools.ChainResolves` | core/time_tools.py:28-36 | a chain of resolvable parts raises exactly when some part starts after the end of the last; otherwise it runs from the first start to the last end |
| `TimeTools.ChainMeans` | core/time_tools.py:28-36 | a chain that resolves has parts that all resolve, none starting after its end |
| `TimeTools.SplitShrinks` | core/time_tools.py:28-31 | both sides of the interval split are shorter, so the recursion ends, and the left side cannot be split again |
| `TimeTools.SplitIs` | core/time_tools.py:28-31 | a text is split at its first separator with text on both sides, if there is one |
| `TimeTools.ParseIsChain` | core/time_tools.py:28-31 | every text is a chain of texts without an inner 到, 至, ～ or ~, joined by these, and is read as the chain of what the patterns recognise in each |
| `TimeTools.MonthEndOfPeriod` | core/time_tools.py:96-102 | for a month period a month-end deadline is the end of that period exactly when it is written without white space and with no suffix, 前 or 之前, or when the period is the reference month |
| `TimeTools.MonthEndOfPeriodStart` | core/time_tools.py:96-102 | for any period that mentions 月, a deadline so written is the last day of the month the period starts in |
| `TimeTools.MonthIsMentioned` | core/time_tools.py:96-102 | which expressions mention 月 |
| `TextChunks.TextChunks` | core/text_chunks.py:4-15 | the chunks join back to the text, each fits or is a single character, none had room for the first character of the next, and no other split obeying the rule has fewer pieces |
| `TextChunks.NoFewer` | core/text_chunks.py:4-15 | greedy packing stays ahead of every other split from every position |
| `TextChunks.PackedIsUnique` | core/text_chunks.py:4-15 | a packed split is determined by the text and the limit |
| `TextChunks.WidthIs` | core/text_chunks.py:4-15 | the ranges of code points by their number of UTF-8 bytes |
| `MergeRecords.KeysAre` | agent/ask_executor.py:394-399 | the keys are the non-empty keys of all records, each once |
| `MergeRecords.ItemHasKey` | agent/ask_executor.py:400-400 | every key has the first record met with it |
| `MergeRecords.ShareThreshold` | agent/ask_executor.py:392-402 | a hit of the original query at rank r outweighs a hit of another lane at rank s exactly when 20(60 + r) < 23(60 + s) |
| `MergeRecords.MergedCount` | agent/ask_executor.py:406-436 | the output has min(target, number of distinct keys) records and repeats none |
| `MergeRecords.PrimaryLeads` | agent/ask_executor.py:411-414 | the first max(1, target // 2) hits of the original query lead in their order |
| `MergeRecords.LanesAreHeard` | agent/ask_executor.py:415-423 | every lane with a hit whose number is at most target minus the floor has a hit in the output, hence all of them when there are no more extra lanes than that |
| `MergeRecords.TailIsBest` | agent/ask_executor.py:425-436 | the rest is in descending order of score, original-query membership, best rank and key, and stands above everything left out |
| `MergeRecords.ScoreIs` | agent/ask_executor.py:392-402 | the score of a key is 1.15/(60 + r) for the original lane plus 1/(60 + r) for each other lane that lists it, at rank r |
| `MergeRecords.RankIs` | agent/ask_executor.py:391-399 | the rank of a key in a lane is the place of its first record there |
| `MergeRecords.KeyIs` | agent/ask_executor.py:395-397 | a record is known by its id, or else its memory id, or else its content |
| `MergeRecords.ItemIsFirst` | agent/ask_executor.py:400-400 | the record returned for a key is its first one in the first lane that has it |
| `MergeRecords.TailStandsAbove` | agent/ask_executor.py:425-436 | in the rest a record never stands before one of greater score, or on equal scores one the original query found and it did not, then one of better best rank, then one of greater key; neither is such a one left out |
| `MergeRecords.LeadersAre` | agent/ask_executor.py:411-414 | the first hit of the original query, and its first limit // 2, lead in the order of their ranks |
| `MergeRecords.MergedLength` | agent/ask_executor.py:386-436 | as many records as asked for, at least one, and no more than there are keys |
| `MergePool.AddItem` | agent/ask_executor.py:394-404 | one turn of the inner loop updates items, ranks, scores and the primary order as specified |
| `MergePool.ItemKeeps` | agent/ask_executor.py:394-404 | after every turn the dictionaries hold the first record, the fused score and the ranks of every key met so far |
| `MergePool.Collect` | agent/ask_executor.py:387-404 | the filled dictionaries agree with the scores and ranks of the lanes |
| `MergePool.HearLanes` | agent/ask_executor.py:417-423 | the lane loop gives each extra lane its best unselected key while there is room |
| `MergePool.Merge` | agent/ask_executor.py:384-436 | the dictionary program returns the records of the merged keys in order |
| `NoteFusion.DominanceIsRespected` | agent/note_reranker.py:132-159 | a note ranked better in every lane that lists another note precedes it, or the other is cut; each lane lists the other at most once |
| `NoteFusion.ShareThreshold` | agent/note_reranker.py:138-146 | an original hit at rank r outweighs a rewrite hit at rank s exactly when 41(60 + r) < 50(60 + s), and ties exactly when these are equal |
| `NoteFusion.WeightIs` | agent/note_reranker.py:136-138 | the weights of the lanes |
| `NoteFusion.OriginalPrecedesRewrite` | agent/note_reranker.py:132-159 | with one rewrite lane, that inequality puts the original hit before a note only the rewrite found, even when the rewrite finds the original too |
| `NoteFusion.OriginalAgainstRewrite` | agent/note_reranker.py:132-159 | a note only the original wording found precedes one only the rewrite found exactly when that inequality holds, or the two sides are equal and it wins the tie |
| `NoteFusion.BothThreshold` | agent/note_reranker.py:132-159 | exactly when an original hit at rank r that the rewrite lists at rank t outweighs a hit of the rewrite alone at rank s: 50(60 + t)(60 + s) + 41(60 + r)(60 + s) > 41(60 + r)(60 + t) |
| `NoteFusion.SharedAgainstRewrite` | agent/note_reranker.py:132-159 | such an original hit precedes a note only the rewrite found exactly under that inequality, or when the two sides are equal and it wins the tie |
| `NoteFusion.TopFourteenAreSafe` | agent/note_reranker.py:132-159 | each of the first 14 hits of the original query precedes every note found only by the rewrite |
| `NoteFusion.FifteenthIsOvertaken` | agent/note_reranker.py:132-159 | from rank 15 on an original hit the rewrite misses is overtaken by the first hit of the rewrite |
| `NoteFusion.AtMostOneRewrite` | agent/ask_executor.py:331-335 | a unit has at most one rewrite lane, and the first lane is the user's wording when it is not blank |
| `NoteFusion.CountedKeeps` | agent/note_reranker.py:139-147 | after every row the dictionaries hold the first row and the summed shares of every note met so far |
| `NoteFusion.FuseNoteVariants` | agent/note_reranker.py:127-159 | the dictionary program returns the first rows of the notes in fused order, cut at the clamped limit |
| `NoteRerank.MaxJaccardRange` | agent/note_reranker.py:171-174 | the overlap is between 0 and 1 and is 0 exactly when nothing selected shares a term |
| `NoteRerank.RerankIsBounded` | agent/note_reranker.py:226-244 | reranking permutes its input, keeps the best record first, and puts a record whose score is more than 0.12 higher before the other |
| `NoteRerank.EvidenceIsBounded` | agent/note_reranker.py:292-312 | evidence selection takes min(target, number of records) of its input, and a record whose score is more than 0.10 (several pieces of evidence) or 0.18 (direct) higher is selected first |
| `NoteRerank.RerankChooses` | agent/note_reranker.py:228-243 | each record after the first is the one whose score less 0.12 times its largest overlap with those before is greatest, the later one on ties |
| `NoteRerank.EvidenceChooses` | agent/note_reranker.py:293-309 | the same for evidence with 0.10 (several pieces) or 0.18 (direct), over those left out as well |
| `NoteRerank.EvidenceCount` | agent/note_reranker.py:292-294 | as much evidence as asked for, at least one, at most five or three, and what there is |
| `NoteRerank.JaccardIs` | agent/note_reranker.py:171-174 | the overlap is the number of shared terms over the number of all terms |
| `NoteRerank.PlainOrder` | agent/note_reranker.py:225-227 | before diversification the order is by score, then later time, then greater id |
| `NoteRerank.GapIsSharp` | agent/note_reranker.py:228-243 | the bound cannot be lowered: at a gap of exactly the penalty the order can be inverted |
| `NoteRerank.DisjointKeepsOrder` | agent/note_reranker.py:228-243 | records that share no terms are taken in order of score |
| `NoteRerank.Diversify` | agent/note_reranker.py:228-243 | the selection loop computes the greedy selection |
| `NoteRerank.RerankNoteRecords` | agent/note_reranker.py:223-244 | sorting and the loop together compute the reranked list |
| `NoteRerank.SelectAnswerEvidence` | agent/note_reranker.py:292-312 | sorting, the clamped target and the loop together compute the selected evidence |
| `AnswerText.QuotesAreContained` | agent/ask_workflow.py:215-216 | a claim that quotes the answer always passes the containment test after folding |
| `AnswerText.IdentityOfChar` | agent/ask_workflow.py:215-216 | with the join of identities: every character is folded, in order |
| `AnswerText.StripIdempotent` | agent/ask_workflow.py:291-291 | stripping a stripped text changes nothing, so exported texts are the validated ones |
| `AnswerText.StripIs` | agent/ask_workflow.py:371-371 | stripping removes blanks from both ends and nothing else |
| `AnswerText.UniqueInOrder` | agent/ask_workflow.py:361-361 | ids stand in the order of their first occurrence |
| `AnswerText.ContainsIs` | agent/ask_workflow.py:391-391 | the containment test is the existence of a surrounding text |
| `AnswerContract.CollectClaims` | agent/ask_workflow.py:378-399 | the claims of one answer: those that hold, or the answer itself when none does |
| `AnswerContract.UnitClaimsAre` | agent/ask_workflow.py:378-399 | a claim is exported with a unit exactly when a raw claim, cleaned, has text that is part of the folded answer and cites something, all of it cited by the answer and allowed for the unit; the answer itself exactly when no raw claim does |
| `AnswerContract.Validate` | agent/ask_workflow.py:655-696 | accepts the usable items and counts each rejected item under its reason; a missing or empty list is one rejection |
| `AnswerContract.JudgeIs` | agent/ask_workflow.py:665-696 | the reason of a rejection is the first that applies, and an item is accepted exactly when none does |
| `AnswerContract.AcceptedOrRejectedOnce` | agent/ask_workflow.py:665-696 | every raw item of a list is accepted once or rejected once |
| `AnswerContract.RenderValidated` | agent/ask_workflow.py:699-734 | renders the accepted items with their checked claims |
| `AnswerContract.AnswerUnits` | agent/ask_workflow.py:355-400 | the fused loop renders the usable items as it meets them |
| `AnswerContract.Agree` | agent/ask_workflow.py:355-400 | rendering what validation accepts is what the fused loop renders, item by item |
| `ClaimExport.MergeIs` | agent/ask_workflow.py:276-311 | one record for each claim of each unit, naming exactly the memories, versions and sources of the evidence it cites, historical exactly when some of that evidence is |
| `ClaimExport.CitedAre` | agent/ask_workflow.py:298-301 | the evidence a record summarizes is that of its own unit which some claim with its identity cites |
| `ClaimExport.AllowedIs` | agent/ask_workflow.py:346-346 | a unit may cite exactly the evidence it has |
| `ClaimExport.MergeCovers` | agent/ask_workflow.py:283-301 | every claim that folds to something has a record |
| `ClaimExport.ExportClaims` | agent/ask_workflow.py:276-311 | the loops over the dictionary compute those records in order of first mention |
| `ClaimExport.AnswersAre` | agent/ask_workflow.py:401-402 | the answers are joined by line breaks |
| `ClaimExport.AnswerWithClaims` | agent/ask_workflow.py:355-402 | the fused form returns the joined answers and the exported claims, or nothing when no item is usable |
| `ClaimExport.ValidateThenRender` | agent/ask_workflow.py:655-734 | validation followed by rendering returns the same answer and claims as the fused form, and nothing exactly when nothing was accepted |
| `ClaimExport.ExportIsGrounded` | agent/ask_workflow.py:276-311 | every exported claim belongs to one rendered unit, is contained in that unit's answer after folding, and takes all its ids from evidence of that unit |
| `BusinessItems.WinnersAre` | agent/query_agent.py:1527-1534 | one item for each identity, and no item of that identity scores higher |
| `BusinessItems.OrderedIs` | agent/query_agent.py:1535-1538 | the list is ordered by score descending and then by id ascending |
| `BusinessItems.OrderDoesNotMatter` | agent/query_agent.py:1524-1539 | when no two top items tie, every permutation of the input gives the same list at every limit |
| `BusinessItems.OrderIndependentIffSeparated` | agent/query_agent.py:1535-1536 | before the cut, the list is independent of the input order exactly when different top items have different identities and differ in score or id |
| `BusinessItems.TiesShow` | agent/query_agent.py:1535-1536 | with tied top items some two orders of the same input give different uncut lists |
| `BusinessCut.OutrankedIsLate` | agent/query_agent.py:1535-1539 | an item that n identities always stand before is not among the first n |
| `BusinessCut.CutTiesDoNotMatter` | agent/query_agent.py:1524-1539 | when every tie is outranked by as many identities as the list may hold, every permutation of the input gives the same list |
| `BusinessCut.UncutTieShows` | agent/query_agent.py:1524-1539 | otherwise some two orders of the same input give different lists |
| `BusinessCut.ListIndependentIffTiesAreCut` | agent/query_agent.py:1535-1539 | the returned list is independent of the input order exactly when every two top items that share an identity, or score and id, are outranked by as many identities as the list may hold |
| `BusinessCut.TieOnInput` | agent/query_agent.py:1524-1539 | two records of one identity with equal scores: at every limit the one that comes first in the input is the one shown |
| `BusinessItems.SortedBusinessItems` | agent/query_agent.py:1524-1539 | the dictionary loop and the two sorts compute the list |

## Left out

- PlanValidator.ValidateAskPlan: the cue lists, source-span search and n-gram overlap that read the question are one abstract reading of the text; the raw plan's units are rewritten as values, so sharing of unit objects with the caller is not captured; idempotence is not claimed because intent repair can change a unit again.
- PlanExecutor.Execution.Execute: what resolution makes of the records that a future returned is the one status `Resolved`, and it is total, although a value over 1000 characters would fail the evidence schema; names of executed tools, error texts, time spent, worker limits and cancellation of running futures are not modelled.
- PlanSchedule.UnsettledExactlyBlocked: stated for distinct ids, as the dictionary of the cycle check keeps only the last unit of an id; `PlanStages.UnsettledIffNoStage` is the form for every plan.
- KeyPool.APIKeyPool.Acquire: key states are values held by the pool object, and the pool's own lock is not modelled because each call holds it throughout.
- Failover.ChatCompletion: one caller only; logging, tracing and the request itself are left out, and the builder's acceptance of a key is a parameter.
- Wal.LogFiles.AppendRecord: each locked rewrite is atomic for crashes; torn writes, malformed lines and file-system errors are not modelled.
- WalInterleaving.StepRefines: threads that read the log outside the operations of the log itself are not modelled, and each call owns its lock separately, so a thread that nests two calls of its own is not.
- Recovery.TodoJustified: memory extraction, classification and enrichment of notes keep state of their own and are left out; the sensitivity check is a function of the text.
- RecoveryWorker.Worker.ProcessPending: records with an empty id are never marked, so the clause on the snapshot is stated for records that have ids.
- TimeTools.ParseIsChain: patterns for single expressions are abstract; conversion of the reference to the local time zone gives the reference day and is left out; results outside years 1 to 9999 raise.
- MergeRecords.TailIsBest: scores are exact fractions, so ties produced or broken by floating-point rounding are not modelled; the same holds for the other ranking modules.
- NoteRerank.RerankIsBounded: the score of a record, computed from tokens, roles and phrases, is an input, as is the time stamp each step uses for ties.
- NoteFusion.FuseNoteVariants: the rounded score and the lane labels shown with a note are left out.
- AnswerContract.Validate: payloads are well typed where the source would coerce values to text; what a malformed value raises is left out, as is the retry after a failed contract.
- BusinessItems.SortedBusinessItems: the score tuple and the identity key of an item are an abstract strict weak order and a field.
- Redis and PostgreSQL stores, the message delivery services, embeddings, the model calls themselves and tracing: foreign code.
- The hydration cap of selected evidence is not stated: its inner breaks do not stop later items or bundles.
- Grounding inside one unit is not stated for the fact resolver, which looks evidence up across all bundles.
- Console, settings, taxonomy tables and evaluation scripts: configuration and wrappers.
