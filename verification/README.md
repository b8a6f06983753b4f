# Process Swarm: models and proofs

Process Swarm defines, governs, schedules and runs swarms of actions. This project models the parts of
it whose behaviour is hardest to see from one function, and proves what holds of them for all inputs,
all reachable states and all runs.

- **Scheduling.** A cron search that jumps over months, days and hours, against "the least matching
  minute" in the Gregorian calendar (`Calendar`, `CronField`, `CronSearch`), what the crontab texts
  themselves mean (`CronText`), and an evaluator that drives schedules with it (`Scheduler`, `ScheduleRuns`).
- **Dependency graphs.** Kahn's algorithm over mutable in-degrees, in the two places that use it
  (`Digraph`, `Kahn`, `ActionTable`, `DependencyStage`).
- **The governed runtime.** Validation, compilation, leasing, gating and execution of a proposal, each
  checking scope or authority in its own way, and the bridge that composes documents from several
  proposals (`ScopePath`, `Validator`, `Compiler`, `LeaseManager`, `ExecutionGate`, `ToolGate`,
  `Workspace`, `Executor`, `Admission`, `PipelineRunner`, `Translator`, `Sequencer`).
- **Governance.** The lifecycle with its roles, warnings and event log, and the gateway above it
  (`Governance`, `SkillAbi`, `GovernanceRuns`, `RoleCollapse`).
- **Adaptive orchestration.** A bounded cycle loop over a branch list that changes while it is walked
  (`ImprovementLedger`, `AdaptiveScheduler`, `Orchestrator`, `AdaptiveRuns`, `LateReroute`).
- **The command ledger.** A hash chain that is appended to, recovered and verified (`HashChain`,
  `LedgerWriter`).
- **Session tailing and provider fallback.** Cursors in memory and on disk (`SessionScan`,
  `SessionTurns`, `SessionWatcher`); selection, retry and fallback (`ProviderPolicy`, `Retry`, `ProviderFallback`).
- **Job repair.** Repair of JSON jobs and the loop around it (`JobRepair`, `RepairProperties`,
  `RepairValues`, `JobCompile`).

`Prelude`, `Text`, `Ordering` and `Artifacts` hold what several of these share. Code that changes state
is a class or a method with loops; a method's `ensures` ties it to a function of its inputs or its old
state, and the lemmas are about that function.

Clocks, fresh ids, the outcome of commands, provider replies, branch scores and hashes are parameters,
so each theorem holds for every choice of them. An exception that leaves a modelled function is
`Raised`, or a variant of its result type.

## What the proofs show about the code

- The cron search counts Monday as 0 and requires day of month and day of week together, where POSIX
  crontab (IEEE Std 1003.1-2017, Shell and Utilities, "crontab") counts Sunday as 0 and takes either.
  The model follows the code. The fallback at the end of `_advance_to_next_month` cannot be reached.
- An evaluation stops at the first due schedule whose cron text raises, so all due schedules fire exactly
  when none raises (`ScheduleRuns.AllFireIff`; `*/0 * * * *` raises, `ScheduleRuns.ZeroStepStopsEvaluation`).
  The raising schedule keeps its record and is due again, and what is due later waits behind it through
  any number of evaluations (`ScheduleRuns.WaitsBehindRaising`).
- The ToolGate asks for a path only under a file capability, and the executor asks for the capability that
  a step names: hand-written steps that modify files under the test capability are not confined
  (`Admission.TestCapabilityEscapesScope`), while compiled plans name no such steps
  (`Admission.CompiledPlanStaysInScope`).
- A role-collapse warning may be acknowledged by citing the record of anyone's deferral for the same swarm and
  state, because the fingerprint leaves the actor out (`RoleCollapse.WarnedMove`); the acknowledgment
  names the actor.
- A cyclic action table always breaks another rule too, since dependencies must point to earlier steps.
- The comment on the execution gate counts nine checks; the code makes ten, and the model has ten.
- The convergence check passes over an active branch without ledger entries, so a reroute in the cycle
  in which all else converges ends the run before the injected branch runs
  (`LateReroute.EndsWithBranchWaiting`); it is the third case of `AdaptiveRuns.RunEndsSettled`.
- Chain verification looks at hashes only: by `HashChain.CleanMeansChained` and
  `LedgerWriter.ChainCarriesData` every sequence of entry data, whatever its sequence numbers, is the
  content of a ledger that verifies. `LedgerWriter.EveryRunInStep`
  shows that this writer numbers from 0 without gaps; `LedgerWriter.AppendVerifiesIff` that two writers
  on one file do not mix.
- A user message read in one scan and its reply in the next are recorded by neither
  (`SessionScan.SplitIsExactIff`), and the model known in one scan is forgotten in the next
  (`SessionScan.ModelForgotten`); `SessionScan.TurnIsSameIff` says exactly when a turn keeps its model.
- Fallback ends at the first provider that is missing or denied (`ProviderFallback.ServedIff`). The shipped
  registry lists at most two providers for a capability, so nobody is skipped there
  (`ProviderFallback.ShippedServedIff`); with three a provider that would answer can be
  (`ProviderFallback.LongerListSkips`).
- `update_swarm_definition` guards the status column in one spelling only, while column names do not
  distinguish case in SQL. The log tells the status exactly as long as no update respells that column to
  another value (`GovernanceRuns.LogFollowsThroughoutIff`, `GovernanceRuns.RespelledStatusMoves`), and what
  is live is what was submitted as long as none respells it to a live one; the separation of roles holds
  all the same.
- A second repair round never changes a job (`JobCompile.CompileTakesTwoAttempts`).
- `get_actor_roles_for_swarm` counts the creator of a swarm as its author; the separation of roles holds
  with that count as well.

## Model

| member | source | states |
|---|---|---|
| CronSearch.SearchNext | process-swarm-gen2/swarm/scheduler/evaluator.py:126-154 | The search loop with its month, day, hour and minute jumps terminates and returns what the minute-by-minute scan returns, for every parsed specification with a non-empty set of real months. |
| CronSearch.EarliestMatchIsEarliest | process-swarm-gen2/swarm/scheduler/evaluator.py:105-154 | That scan is the declarative specification: the least whole minute strictly after `after` and within 366 days whose month, day of month, weekday, hour and minute are all selected, or nothing if and only if there is none. |
| CronSearch.EarliestIsUnique | process-swarm-gen2/swarm/scheduler/evaluator.py:105-154 | The specification has one answer, so it is an independent reference for the search. |
| CronSearch.Jump | process-swarm-gen2/swarm/scheduler/evaluator.py:130-150 | Whichever field fails first decides the jump; the jump goes forward and passes over non-matching minutes only. |
| CronSearch.MonthJump | process-swarm-gen2/swarm/scheduler/evaluator.py:130-132 | From a minute in an unselected month to the first of the next selected month no minute matches. |
| CronSearch.DayJump | process-swarm-gen2/swarm/scheduler/evaluator.py:134-142 | No minute before the next midnight matches when the day of month or the weekday (Monday is 0) is not selected. |
| CronSearch.HourJump | process-swarm-gen2/swarm/scheduler/evaluator.py:144-146 | No minute before the next full hour matches when the hour is not selected. |
| CronSearch.AdvanceToNextMonth | process-swarm-gen2/swarm/scheduler/evaluator.py:208-221 | Returns the first day of the next selected month at midnight, at most twelve months on; the fallback on the last line is unreachable for non-empty sets of real months. |
| CronSearch.TwelveMonthsCoverAll | process-swarm-gen2/swarm/scheduler/evaluator.py:208-221 | Any twelve consecutive months include every month number: why the twelve-step loop always finds one. |
| CronSearch.NextCronTime | process-swarm-gen2/swarm/scheduler/evaluator.py:105-154 | From the text: nothing unless there are five fields, each non-empty once parsed; an exception when a field raises; otherwise the earliest match. `CronText.NextTimeOfLine` says which minute that is, from what the fields mean. |
| CronSearch.StarsMatchEveryMinute | process-swarm-gen2/swarm/scheduler/evaluator.py:105-154 | From the text to the answer: five stars give the next whole minute. |
| CronField.ParseCronField | process-swarm-gen2/swarm/scheduler/evaluator.py:157-205 | The parser's loops collect the field's value set or raise where `int` or `range` would; a bare `*` ends the reading. `CronText.FieldMeansItsTerms` says what that set is for written fields. |
| CronField.FieldMeaning | process-swarm-gen2/swarm/scheduler/evaluator.py:157-205 | A field raises exactly when its deciding part does, and otherwise holds exactly the in-range values that some part up to the deciding one selects. |
| CronField.CollectSpan | process-swarm-gen2/swarm/scheduler/evaluator.py:157-205 | The loop over `range(start, end + 1, step)` collects exactly the in-range values of the arithmetic progression, also for negative steps. |
| CronText.FieldMeansItsTerms | process-swarm-gen2/swarm/scheduler/evaluator.py:157-205 | For every list of terms `*`, `a`, `a-b`, `*/n`, `a/n` and `a-b/n` in decimal, with n positive, the field made of them never raises and holds exactly the in-range values that one of them means: v = a, a <= v <= b, those from the lower bound, from a, or from a up to b in steps of n. |
| CronText.NextTimeOfLine | process-swarm-gen2/swarm/scheduler/evaluator.py:105-154 | For every line of five such fields the next time is the earliest minute within 366 days whose minute, hour, day, month and weekday the fields mean, and there is none exactly when no such minute comes. |
| CronText.NextTimeOnWeekdays | process-swarm-gen2/swarm/scheduler/evaluator.py:105-154 | For `m h * * a-b` that is the next minute m of hour h on a day a to b of the week. |
| Text.ParseDecimal | process-swarm-gen2/swarm/scheduler/evaluator.py:157-205 | Reading back a natural number written in decimal gives that number. |
| Calendar.YearsClosedForm | process-swarm-gen2/swarm/scheduler/evaluator.py:126-151 | The days before a year, defined year by year, are the Gregorian closed form with its 4, 100 and 400 rules. |
| Calendar.StepsAreExact | process-swarm-gen2/swarm/scheduler/evaluator.py:126-151 | Adding a day, an hour or a minute by fields moves the proleptic Gregorian count by exactly that much, over month ends and leap years. |
| Calendar.WeekdayCycles | process-swarm-gen2/swarm/scheduler/evaluator.py:138-142 | Consecutive days have consecutive weekdays modulo seven. |
| Calendar.WeekdayAnchor | process-swarm-gen2/swarm/scheduler/evaluator.py:138-142 | 2026-03-09 has weekday 0: Monday is 0, as the code counts. |
| Calendar.StampOrder | process-swarm-gen2/swarm/scheduler/evaluator.py:126-151 | Field-by-field order of two valid times is the order of their minute counts, in both directions. |
| Scheduler.GetDueSchedules | process-swarm-gen2/swarm/registry/repository.py:582-594 | Returns each enabled schedule of an enabled swarm with `next_run_at` not after now exactly once, ordered by `next_run_at`. |
| Scheduler.ComputeNextRun | process-swarm-gen2/swarm/scheduler/evaluator.py:87-102 | The next run is the cron match after the current `next_run_at`, or after the clock when there is none; no cron text, no next run. |
| Scheduler.ScheduleEvaluator.FireOne | process-swarm-gen2/swarm/scheduler/evaluator.py:60-83 | One schedule's transaction takes effect whole or not at all: run record and next time. `ScheduleRuns.RunsFollowDueList` says whose run, and `ScheduleRuns.RecurringEnumeratesMatches` which time. |
| Scheduler.ScheduleEvaluator.EvaluateDueSchedules | process-swarm-gen2/swarm/scheduler/evaluator.py:37-85 | The registry afterwards is the due list fired in order up to the first schedule that raises, and the returned ids are those of the new runs. `ScheduleRuns.RunsAreOwed` says which runs these are. |
| Scheduler.FireAllPerSchedule | process-swarm-gen2/swarm/scheduler/evaluator.py:37-85 | Of a due list in which the first n fire, each of those gets exactly one run and its next state, and every other schedule stays as it is. |
| ScheduleRuns.RunsFollowDueList | process-swarm-gen2/swarm/scheduler/evaluator.py:57-66 | The k-th run queued was triggered by the k-th due schedule and belongs to that schedule's swarm. |
| ScheduleRuns.RunsAreOwed | process-swarm-gen2/swarm/scheduler/evaluator.py:37-85 | An evaluation queues runs only for enabled schedules of enabled swarms whose time has come, at most one each and for their own swarm; when none of those raises, each of them gets its run. |
| ScheduleRuns.EveryRunWasOwed | process-swarm-gen2/swarm/scheduler/evaluator.py:37-85 | Over any sequence of evaluations no schedule changes its swarm, and every run queued names its schedule's swarm and was owed, in that sense, in the evaluation that queued it. |
| ScheduleRuns.DueOldestFirst | process-swarm-gen2/swarm/registry/repository.py:582-594 | In a due list whoever has waited longer comes first. |
| ScheduleRuns.StopsAtFirstRaising | process-swarm-gen2/swarm/scheduler/evaluator.py:55-85 | An evaluation fires the due list up to, and not including, its first schedule whose cron text raises. |
| ScheduleRuns.AllFireIff | process-swarm-gen2/swarm/scheduler/evaluator.py:55-85 | Every due schedule fires exactly when no due schedule is a recurring one whose cron text raises. |
| ScheduleRuns.ZeroStepStopsEvaluation | process-swarm-gen2/swarm/scheduler/evaluator.py:157-205 | A failing input: cron text with a zero step is due and raises, and the schedule due with it does not fire. |
| ScheduleRuns.WaitsBehindRaising | process-swarm-gen2/swarm/scheduler/evaluator.py:37-85 | In every sequence of evaluations a schedule due later than a raising one that is due each time gets no run and is not changed. |
| ScheduleRuns.EvaluationIsTick | process-swarm-gen2/swarm/scheduler/evaluator.py:37-85 | One evaluation of the whole registry is, for each schedule, one visit of that schedule alone, with one run if and only if it fires. |
| ScheduleRuns.RunsMatchLife | process-swarm-gen2/swarm/scheduler/evaluator.py:37-85 | Over any sequence of evaluations of the whole registry each schedule ends as its own visits alone leave it, with exactly one run record for each value it fired for. |
| ScheduleRuns.RecurringEnumeratesMatches | process-swarm-gen2/swarm/scheduler/evaluator.py:37-102 | Over any sequence of evaluations the values a recurring schedule fires for strictly increase, start with its first `next_run_at`, are cron matches from then on, and miss no match up to the value now waited for; it stops waiting only when 366 days hold no match. |
| ScheduleRuns.RaisingCronNeverFires | process-swarm-gen2/swarm/scheduler/evaluator.py:60-83 | A recurring schedule whose cron text raises is never fired and never changed, whatever evaluations come: its transaction is rolled back every time. |
| ScheduleRuns.EmptyCronFiresOnce | process-swarm-gen2/swarm/scheduler/evaluator.py:87-124 | A recurring schedule with no cron text, without five fields or with an empty field fires at most once, stays enabled and has no next time after that. |
| ScheduleRuns.NonRecurringFiresOnce | process-swarm-gen2/swarm/scheduler/evaluator.py:68-83 | A deferred, immediate or unknown trigger fires at most once over any sequence of evaluations, and is then disabled with no next time. |
| Kahn.Drain | process-swarm-gen2/swarm/definer/action_table.py:209-224 | Over duplicate edges and in any queue order, the nodes left with a positive in-degree are exactly those on or reachable from a directed cycle, and fewer nodes are popped than exist exactly when some are left. |
| Kahn.TakingDecrements | process-swarm-gen2/swarm/definer/action_table.py:215-221 | Popping a node lowers every pending count by the number of parallel edges from that node, so counting edges and decrementing agree. |
| Kahn.CycleShowsInNodes | process-swarm-gen2/swarm/definer/action_table.py:194-230 | A graph over known nodes is acyclic exactly when none of its nodes is on or behind a cycle. |
| Digraph.TopologicalIsBehindNoCycle | process-swarm-gen2/swarm/definer/action_table.py:194-230 | A node in a topological order is neither on a cycle nor reachable from one. |
| Digraph.WalkBackFindsCycle | process-swarm-gen2/swarm/definer/action_table.py:194-230 | In a finite set whose nodes all have predecessors inside it, every node is on or behind a cycle: the other direction. |
| ActionTable.DetectCycles | process-swarm-gen2/swarm/definer/action_table.py:194-230 | Reports nothing exactly when the graph over the known steps is acyclic; otherwise one report that lists, sorted, exactly the steps on or behind a cycle. |
| ActionTable.EdgeMeaning | process-swarm-gen2/swarm/definer/action_table.py:200-207 | The graph has an edge exactly where an action declares a dependency on a known step. |
| ActionTable.RulesMeanWellFormed | process-swarm-gen2/swarm/definer/action_table.py:133-191 | The rule checks find nothing exactly on tables with steps 1 to n in order, no blank text, and dependencies on earlier steps only. |
| ActionTable.CycleComesWithOtherErrors | process-swarm-gen2/swarm/definer/action_table.py:165-191 | Every cyclic table also breaks another rule, so the cycle search never rejects a table alone. |
| ActionTable.ValidateActionTable | process-swarm-gen2/swarm/definer/action_table.py:133-191 | Valid exactly on well-formed tables; the errors are the rule errors in order, then the cycle report. |
| ActionTable.Table.MarkValidated | process-swarm-gen2/swarm/definer/action_table.py:238-259 | Succeeds exactly on a well-formed draft and otherwise changes nothing. |
| ActionTable.Table.MarkAccepted | process-swarm-gen2/swarm/definer/action_table.py:262-276 | Succeeds exactly on a validated table and keeps its earlier timestamp. |
| ActionTable.Table.MarkCompiled | process-swarm-gen2/swarm/definer/action_table.py:279-296 | Succeeds exactly on an accepted table and keeps its earlier timestamps. |
| DependencyStage.ValidateDependencies | process-swarm-gen2/swarm/definer/pipeline.py:847-893 | With unknown ids skipped and edges repeated, returns nothing exactly on acyclic graphs, and otherwise the names of exactly the actions on or behind a cycle. |
| DependencyStage.KnownEdgeMeaning | process-swarm-gen2/swarm/definer/pipeline.py:847-893 | An edge is in the graph exactly when both its ends are known and the dependency is declared. |
| DependencyStage.AssignDependencies | process-swarm-gen2/swarm/definer/pipeline.py:722-787 | Records the table's dependencies when any row declares one and the linear chain otherwise, and raises exactly when what was recorded is cyclic. |
| DependencyStage.TableMeaning | process-swarm-gen2/swarm/definer/pipeline.py:743-764 | A dependency is recorded exactly when some table row declares it between steps that have actions. |
| DependencyStage.BackwardRowsAreAcyclic | process-swarm-gen2/swarm/definer/pipeline.py:743-776 | Over actions with distinct ids, a table whose rows depend on earlier steps only is never rejected. |
| DependencyStage.WellFormedTableIsAccepted | process-swarm-gen2/swarm/definer/pipeline.py:743-776 | In particular every table that the action table's own validation accepts. |
| Digraph.RankedIsAcyclic | process-swarm-gen2/swarm/definer/pipeline.py:847-893 | A graph whose edges all lead to a higher rank has no cycle. |
| DependencyStage.ChainIsAcyclic | process-swarm-gen2/swarm/definer/pipeline.py:722-787 | The fallback chain over distinct actions is never rejected. |
| DependencyStage.ChainMeaning | process-swarm-gen2/swarm/definer/pipeline.py:765-776 | Without a table exactly the pairs of neighbouring actions are recorded, in order, the later depending on the earlier. |
| ScopePath.ScopeTestsCompared | process-swarm-gen2/runtime/gate/toolgate.py:170-188 | The ToolGate's path test admits what the validator's admits, and besides only paths that equal the scope up to final slashes. |
| ScopePath.ScopeMeaning | process-swarm-gen2/runtime/gate/toolgate.py:170-188 | Both tests cover a scope itself and what continues it with a slash, and no path that continues it with any other character, such as `docs2` for `docs`. |
| ScopePath.ValidatorImpliesToolGate | process-swarm-gen2/runtime/validation/validator.py:82-118 | A path within the validator's scope is within the ToolGate's. |
| Validator.CheckScopeContainment | process-swarm-gen2/runtime/validation/validator.py:82-118 | No violation exactly when every path has no `..`, lies under an allowed path and under no denied one; each violation is that of some modification. |
| Validator.CheckUndeclaredSideEffects | process-swarm-gen2/runtime/validation/validator.py:121-138 | No violation exactly when every modified path is a target path or a declared side effect. |
| Validator.ValidateProposal | process-swarm-gen2/runtime/validation/validator.py:178-208 | The verdict is passed exactly when all five checks pass, whatever the order in which violations accumulate. |
| Compiler.CompilePlan | process-swarm-gen2/runtime/compiler/compiler.py:27-103 | Refuses exactly on a failed validation, a foreign validation or an unusable key; the plan holds the modifications and then the tests, and requires exactly the capabilities its steps name. |
| Compiler.StepIdsDistinct | process-swarm-gen2/runtime/compiler/compiler.py:56-76 | No two modification steps of a plan have the same id, however many there are. |
| LeaseManager.BuildCapabilities | process-swarm-gen2/runtime/lease/lease_manager.py:179-215 | The dictionary filled in place grants exactly what the plan requires: reads and writes share one grant that is writable only if writing is required. |
| LeaseManager.IssueLease | process-swarm-gen2/runtime/lease/lease_manager.py:20-57 | The lease carries those grants, the plan's scope and the window from now. |
| LeaseManager.IsValidLease | process-swarm-gen2/runtime/lease/lease_manager.py:60-87 | Valid exactly when active and within both bounds, inclusive. |
| ExecutionGate.Check | process-swarm-gen2/runtime/gate/execution_gate.py:47-159 | The failures are exactly those that apply, none masking another, and allowed means none. |
| ExecutionGate.CheckCapabilities | process-swarm-gen2/runtime/gate/execution_gate.py:103-122 | A required capability fails exactly when it is unknown, not granted, or explicitly denied. |
| ExecutionGate.CheckScope | process-swarm-gen2/runtime/gate/execution_gate.py:124-140 | A plan path fails exactly when the lease has a scope that does not cover it. |
| ToolGate.Gate.BindLease | process-swarm-gen2/runtime/gate/toolgate.py:55-72 | Binds exactly active leases within their window and otherwise keeps what was bound. |
| ToolGate.Gate.RequestCapability | process-swarm-gen2/runtime/gate/toolgate.py:86-150 | Allows exactly what the bound lease authorizes within its window; a request outside the window unbinds. `ToolGate.DefaultDeny` and `ToolGate.ScopeDecides` say what that is, in terms of grants, denials and paths. |
| ToolGate.ScopeDecides | process-swarm-gen2/runtime/gate/toolgate.py:118-188 | A file capability is allowed only on a non-empty path at or below one of the lease's scope paths or filesystem grant paths, under a lease with a scope of its own; and where it is allowed on one path it is allowed on every such path, and refused on all others. |
| ToolGate.OthersNeedNoPath | process-swarm-gen2/runtime/gate/toolgate.py:118-150 | Test execution and artifact generation are allowed or refused whatever path comes with the request. |
| ToolGate.DefaultDeny | process-swarm-gen2/runtime/gate/toolgate.py:86-168 | A permission needs a bound lease in its window and an entry for one of the five capabilities that allows it and is not denied, and writing a grant that says write; for the capabilities without a path nothing else is needed. |
| ToolGate.LeaseNeverChangesHands | process-swarm-gen2/runtime/gate/toolgate.py:86-150 | Over any sequence of requests a gate holds the lease it held or none, never allows more than before, and nothing after an expiry. |
| Workspace.FoldPerFile | process-swarm-gen2/runtime/executor/executor.py:97-154 | The tree after a list of successful steps holds, file by file, what only that file's own steps make of it. |
| Workspace.UnnamedFileUnchanged | process-swarm-gen2/runtime/executor/executor.py:97-154 | A file that no step names keeps its content. |
| Workspace.EffectKeepsWellFormed | process-swarm-gen2/runtime/executor/executor.py:97-154 | Every operation keeps files and directories apart and parents present. |
| Workspace.FoldKeepsWellFormed | process-swarm-gen2/runtime/executor/executor.py:97-154 | So does every list of steps; the executor, the runner and the sequence carry it to their workspaces. |
| Executor.GovernedExecutor.ExecuteStep | process-swarm-gen2/runtime/executor/executor.py:97-154 | A step takes effect exactly when it is permitted and the file system can carry it out, and otherwise fails and changes nothing. |
| Executor.GovernedExecutor.RunModifications | process-swarm-gen2/runtime/executor/executor.py:49-67 | The action log is completed steps, then at most one failed, then skipped; the tree is exactly the completed steps folded in order. |
| Executor.GovernedExecutor.RunTests | process-swarm-gen2/runtime/executor/executor.py:69-82 | Tests run in order until the first that does not pass; after a halt every remaining test is recorded as not passed. |
| Executor.GovernedExecutor.Execute | process-swarm-gen2/runtime/executor/executor.py:42-95 | The verdict is completed exactly when every action completed and every test passed, partial when some action completed, failed otherwise. |
| Admission.CompiledPlanPassesGate | process-swarm-gen2/runtime/gate/execution_gate.py:47-159 | For a passed validation, the compiled plan and the lease built from it pass every gate check while signatures verify and the window is open. |
| Admission.LeaseAuthorizesSteps | process-swarm-gen2/runtime/gate/toolgate.py:86-188 | The lease built from a plan authorizes every modification with a path that the validator admitted, and every test. |
| Admission.AdmittedRunIsNotRefused | process-swarm-gen2/runtime/executor/executor.py:42-154 | Admission implies no later refusal: in an open window a modification stops the run only where the file system cannot carry it out, and a test fails only through its own command. |
| Admission.RunChangesOnlyItsScope | process-swarm-gen2/runtime/executor/executor.py:42-154 | Whatever happens in a run, a file whose content changed is the target of a completed modification, under an allowed path and no denied one, and holds exactly what its own modifications leave. |
| Admission.LeasePermitsRequired | process-swarm-gen2/runtime/lease/lease_manager.py:179-215 | The lease of a plan permits exactly the capabilities the plan requires, reading also where it may write, and files exactly in the plan's scope; repository modification is never permitted. |
| Admission.ChangesStayInScope | process-swarm-gen2/runtime/executor/executor.py:97-154 | Whatever the steps, admitted or not, a file changes only under a lease and only in its scope, unless a step names it under a capability that is no file capability. |
| Admission.CompiledPlanStaysInScope | process-swarm-gen2/runtime/executor/executor.py:97-154 | A compiled plan has no such steps: it changes nothing outside the scope of the lease it runs under, though nobody validated it. |
| Admission.TestCapabilityEscapesScope | process-swarm-gen2/runtime/executor/executor.py:99-113 | The exception is real: under any lease that allows tests, a step that names the test capability creates any file that can be created. |
| PipelineRunner.Runner.Run | process-swarm-gen2/runtime/pipeline/runner.py:51-137 | Executes and records exactly the admitted proposals; every other one raises before workspace or ledger is touched. |
| Sequencer.StepTransforms | process-swarm-gen2/runtime/bridge/sequencer.py:114-165 | A successful step applies its whole proposal to the workspace, a failed one at most a first part of it. |
| Sequencer.CarriedOutTransforms | process-swarm-gen2/runtime/bridge/sequencer.py:133-139 | An executed proposal changes every file by its completed modifications, and by all of them when it completed. |
| Sequencer.SequencePipeline.RunStep | process-swarm-gen2/runtime/bridge/sequencer.py:114-179 | A step that is not admitted changes nothing; any other is executed under its own lease and succeeds exactly when it completes. |
| Sequencer.SequencePipeline.RunSequence | process-swarm-gen2/runtime/bridge/sequencer.py:92-189 | Results are successes followed by at most one failure, which decides the status; the output path is the last successful target; an unsupported operation class raises after the steps before it. |
| Sequencer.DocumentStepEffect | process-swarm-gen2/runtime/bridge/translator.py:129-173 | Translated, a document step sets or extends the target's text and leaves every other file alone. |
| Sequencer.DocumentIsExact | process-swarm-gen2/runtime/bridge/sequencer.py:192-284 | From any workspace, a completed document sequence leaves the target holding exactly title, byline and body, and every other file unchanged. |
| Sequencer.DocumentStepAdmissibleIff | process-swarm-gen2/runtime/bridge/sequencer.py:251-278 | A document step is admissible exactly when its target is given and lies outside the source directories and the policy has nothing against the step: its scope covers its target by construction. |
| Sequencer.DocumentCompletes | process-swarm-gen2/runtime/bridge/sequencer.py:192-284 | Such a sequence does complete wherever the target can be written, when its steps are admitted in their windows and their tests succeed. |
| Governance.LifecycleManager.DoTransition | process-swarm-gen2/swarm/governance/lifecycle.py:86-235 | The in-place update of status, warnings, assurance events and event log is one step of the transition function, refusals included. `RoleCollapse.UnwarnedMove` and `RoleCollapse.WarnedMove` say what that step does, from the log. |
| Governance.LifecycleManager.Persist | process-swarm-gen2/swarm/governance/warnings.py:730-766 | A persisted warning is appended with its decision and mirrored by one event. |
| Governance.LifecycleManager.CollectFingerprints | process-swarm-gen2/swarm/governance/lifecycle.py:149-155 | The provided fingerprints are exactly those of the cited records that exist. |
| SkillAbi.SwarmSkillAbi.UpdateSwarmDefinition | process-swarm-gen2/swarm/abi/api.py:139-160 | Refused for the status column as spelled in the guard, outside drafting and rejected, and for keys that name no column; otherwise sets the columns that the keys name in whatever letters, the later of two keys for one column, and records an update. |
| SkillAbi.SwarmSkillAbi.Configure | process-swarm-gen2/swarm/abi/api.py:82-108 | Links a new schedule or delivery in whatever state, and touches nothing else. |
| SkillAbi.SwarmSkillAbi.CreateSwarmDefinition | process-swarm-gen2/swarm/abi/api.py:42-80 | Adds a drafting swarm with a fresh id unless the name is blank. |
| SkillAbi.SwarmSkillAbi.ArchiveSwarm | process-swarm-gen2/swarm/abi/api.py:162-167 | Archiving is the publisher's transition to revoked, with no acknowledged warnings. |
| GovernanceRuns.RunKeepsInvariant | process-swarm-gen2/swarm/governance/lifecycle.py:86-235 | Every run of gateway and lifecycle operations keeps the registry invariant: publishers last, separated roles, accounted warnings. |
| GovernanceRuns.NoActorHoldsAllThreeRoles | process-swarm-gen2/swarm/governance/lifecycle.py:40-64 | In every run no actor acts on one swarm as author, reviewer and publisher, even when creating the swarm counts as authorship. |
| GovernanceRuns.LogFollowsIff | process-swarm-gen2/swarm/abi/api.py:139-160 | One operation keeps log and status together exactly when it is no accepted update that gives the status column another value under another spelling. |
| GovernanceRuns.LogFollowsThroughoutIff | process-swarm-gen2/swarm/governance/lifecycle.py:212-235 | The log is legal and replays to every status at every point of a run exactly when each update of the run keeps the status. |
| GovernanceRuns.PlainKeysKeepStatus | process-swarm-gen2/swarm/abi/api.py:139-160 | An update that never spells the status column in other letters keeps the status, whatever the registry. |
| GovernanceRuns.RespelledStatusMoves | process-swarm-gen2/swarm/abi/api.py:142-156 | A failing input: an upper-case status key passes the guard and moves a drafting swarm to enabled with neither event nor submission. |
| GovernanceRuns.EventsReplayToStatus | process-swarm-gen2/swarm/governance/lifecycle.py:212-235 | In every run whose updates keep the status the recorded transitions replay, by allowed moves in their roles, to each swarm's current status. |
| GovernanceRuns.CollapseIsAccounted | process-swarm-gen2/swarm/governance/lifecycle.py:131-210 | A transition made despite a role-collapse warning was deferred earlier under the same fingerprint, and the step adds an acknowledged record and an assurance event that names it. |
| GovernanceRuns.CitedWasDeferred | process-swarm-gen2/swarm/governance/lifecycle.py:149-169 | A cited warn-level record means the same warning was once deferred. |
| GovernanceRuns.RefusalMovesNothing | process-swarm-gen2/swarm/governance/lifecycle.py:86-210 | A refused transition changes no swarm and no replayed status; it can only add warnings and their events. |
| GovernanceRuns.ThirdRoleBlocks | process-swarm-gen2/swarm/governance/warnings.py:349-394 | Someone who was author and reviewer gets a blocking warning at every checked target. |
| RoleCollapse.AcceptedMoves | process-swarm-gen2/swarm/governance/lifecycle.py:38-64 | Status, target and role pass the tables exactly when they are one of twelve moves. |
| RoleCollapse.UnwarnedMove | process-swarm-gen2/swarm/governance/lifecycle.py:131-235 | An actor without another role on the swarm, and anyone moving it to a state that is not approved, enabled, paused or revoked, moves it at once and is never asked for a warning. |
| RoleCollapse.WarnedMove | process-swarm-gen2/swarm/governance/lifecycle.py:131-235 | An actor who held another role is stopped by a recorded warning of its severity and kind, for good when both other roles were held; citing a record of that warning, whoever it had warned, the move succeeds and adds the acknowledgment, its assurance event and the three log events. |
| RoleCollapse.RolesOfMoves | process-swarm-gen2/swarm/governance/lifecycle.py:51-64 | In every run each recorded move is one of the twelve: an approval is always a reviewer's, enabling, pausing and revoking always a publisher's, a submission always an author's. |
| RoleCollapse.CollapseIsAcknowledged | process-swarm-gen2/swarm/governance/lifecycle.py:131-210 | In every run, behind each recorded move to approved, enabled, paused or revoked by an actor recorded earlier in another role on that swarm stand the acknowledgment for that swarm, target, actor and role and its assurance event, and the warning was deferred before. |
| RoleCollapse.CreatorCollapseIsAcknowledged | process-swarm-gen2/swarm/governance/lifecycle.py:131-210 | The same after any run of the creator acting in another role than author. |
| GovernanceRuns.OperationKeepsDefinition | process-swarm-gen2/swarm/abi/api.py:82-167 | No operation other than a submission, or an update that itself sets a live status, changes the definition of a swarm that is afterwards under review, approved, enabled or paused. |
| GovernanceRuns.LiveDefinitionWasSubmitted | process-swarm-gen2/swarm/governance/lifecycle.py:40-64 | In every run in which no accepted update sets a live status itself, a swarm under review, approved, enabled or paused has exactly the definition of its last submission, schedule and delivery links aside. |
| GovernanceRuns.NeverSubmittedIff | process-swarm-gen2/swarm/abi/api.py:139-160 | On a swarm that was never submitted an accepted update breaks that exactly when it sets a live status. |
| GovernanceRuns.KeptStatusStaysOffLive | process-swarm-gen2/swarm/abi/api.py:139-160 | An update that keeps the status, as every one that does not respell its column, sets no live status. |
| ImprovementLedger.Ledger.Latest | process-swarm-gen2/swarm/adaptive/improvement_ledger.py:77-81 | The backward search returns the last entry of the branch's history, or nothing when the history is empty. |
| ImprovementLedger.Ledger.Record | process-swarm-gen2/swarm/adaptive/improvement_ledger.py:44-75 | Appends one entry computed from the branch's latest one. |
| ImprovementLedger.Ledger.Redecide | process-swarm-gen2/swarm/adaptive/orchestrator.py:113-117 | Replaces the decision of the branch's latest entry and nothing else, and keeps the ledger well recorded. |
| ImprovementLedger.StagnationIsTrailingRun | process-swarm-gen2/swarm/adaptive/improvement_ledger.py:53-62 | For any interleaving of branches the latest stagnation count is the length of the branch's maximal trailing run of sub-threshold deltas. |
| ImprovementLedger.DeltasTelescope | process-swarm-gen2/swarm/adaptive/improvement_ledger.py:53-58 | A branch's deltas add up to its last score minus its first. |
| AdaptiveScheduler.StagnantMeaning | process-swarm-gen2/swarm/adaptive/improvement_ledger.py:86-90 | A branch is stagnant exactly when its last `consecutive` score changes were all below the threshold. |
| AdaptiveScheduler.RerouteMeaning | process-swarm-gen2/swarm/adaptive/adaptive_scheduler.py:31-84 | A branch is rerouted exactly when it is the speech branch, below target, with cycles left and barely moving, while the written branch's last change was a real gain. |
| AdaptiveScheduler.DecisionMeaning | process-swarm-gen2/swarm/adaptive/adaptive_scheduler.py:31-84 | Exactly when a branch is terminated, deprioritized or given more budget, from its score, its last changes and the cycle; at the target it always continues. |
| Orchestrator.AdaptiveOrchestrator.RunAdaptive | process-swarm-gen2/swarm/adaptive/orchestrator.py:64-158 | The loop over branch objects leaves the list, the ledger and the cycle count that the run function gives. `AdaptiveRuns.NextCycleRuns` and `AdaptiveRuns.RunStopsWhenConverged` say who runs in each cycle and when the run ends. |
| Orchestrator.AdaptiveOrchestrator.RunActive | process-swarm-gen2/swarm/adaptive/orchestrator.py:84-124 | Each active branch is recorded as pending, decided on the grown ledger and rewritten, in list order. |
| Orchestrator.AdaptiveOrchestrator.ApplyDecisions | process-swarm-gen2/swarm/adaptive/orchestrator.py:126-136 | The walk that deactivates branches while a reroute reactivates or appends one behind or ahead of it does what the walk over values does. `AdaptiveRuns.UnretiredStays` and `AdaptiveRuns.SpeechActiveIff` say who is active afterwards. |
| Orchestrator.AdaptiveOrchestrator.InjectSpeechScriptPrep | process-swarm-gen2/swarm/adaptive/orchestrator.py:186-193 | Reactivates the first speech-script branch, or appends one when there is none. |
| Orchestrator.AdaptiveOrchestrator.AllConvergedOrTerminated | process-swarm-gen2/swarm/adaptive/orchestrator.py:214-221 | True exactly when no active branch has a latest score below the target. |
| AdaptiveRuns.RunBranchesAdds | process-swarm-gen2/swarm/adaptive/orchestrator.py:84-124 | A cycle appends one entry for each active branch in order, each the latest of its branch, judged by the rules and carrying the decision taken. |
| AdaptiveRuns.AppliedKeeps | process-swarm-gen2/swarm/adaptive/orchestrator.py:126-136 | Applying decisions keeps the branches and gains at most a speech branch; who is active afterwards was active and not retired, or is the speech branch after a reroute. |
| AdaptiveRuns.UnretiredStays | process-swarm-gen2/swarm/adaptive/orchestrator.py:126-136 | A branch that was active and is neither terminated nor rerouted stays active, whatever happens to the others. |
| AdaptiveRuns.SpeechActiveIff | process-swarm-gen2/swarm/adaptive/orchestrator.py:126-136 | The speech-script branch is active afterwards exactly when it was or a reroute injected it, unless the walk terminates it at its own place; then exactly when a reroute follows further down. |
| AdaptiveRuns.NextCycleRuns | process-swarm-gen2/swarm/adaptive/orchestrator.py:76-136 | The branches of the next cycle are exactly those that ran and were neither terminated nor rerouted, and after a reroute the injected one, unless it is terminated later in the walk. |
| AdaptiveRuns.RunStopsWhenConverged | process-swarm-gen2/swarm/adaptive/orchestrator.py:76-144 | A run ends with the first cycle after which every active branch has reached the target, in the state that so many cycles lead to. |
| AdaptiveRuns.LastCycleSettles | process-swarm-gen2/swarm/adaptive/adaptive_scheduler.py:46-52 | In the last allowed cycle every branch that ran converged or was terminated and none is rerouted, so the convergence check holds. |
| AdaptiveRuns.RunEndsSettled | process-swarm-gen2/swarm/adaptive/orchestrator.py:76-144 | With at least one allowed cycle and distinct ids a run uses at most that many cycles, and on exit every branch is inactive, has its latest score at target, or is a speech-script branch that never ran and that a reroute written in the run's last cycle injected. |
| LateReroute.EndsWithBranchWaiting | process-swarm-gen2/swarm/adaptive/orchestrator.py:129-144 | With the default thresholds and concrete scores a run ends in its third cycle of five with the injected branch active and without an entry. |
| AdaptiveRuns.RunKeepsWell | process-swarm-gen2/swarm/adaptive/orchestrator.py:76-144 | A run keeps every ledger entry what recording makes of the entries before it. |
| AdaptiveRuns.RunLedgerMeaning | process-swarm-gen2/swarm/adaptive/improvement_ledger.py:44-90 | After any run each branch's stagnation count is its trailing run of small deltas and its deltas telescope. |
| AdaptiveRuns.RunLedgerGrows | process-swarm-gen2/swarm/adaptive/orchestrator.py:76-144 | A run only appends to the ledger: at most one entry a branch a cycle, cycles increasing, and none for a branch once retired unless it is the speech branch. |
| AdaptiveRuns.AtMostOneReroute | process-swarm-gen2/swarm/adaptive/orchestrator.py:126-136 | At most one reroute happens in a run. |
| HashChain.VerifyChain | process-swarm-gen2/swarm/argus_hold/ledger_writer.py:83-115 | The loop with its running hash reports exactly the violations of each line against the hash before it, and raises when a line does not parse. |
| HashChain.CleanMeansChained | process-swarm-gen2/swarm/argus_hold/ledger_writer.py:83-115 | A file verifies without violations exactly when it parses and its records are the one chain over their own data. |
| HashChain.SameHeadSameRecords | process-swarm-gen2/swarm/argus_hold/ledger_writer.py:73-115 | Two chains with one head are equal record by record, or an explicit break is found among the very texts hashed to make them: a collision, two data with one canonical text, or a preimage of the genesis value. |
| HashChain.HeadDecidesLedger | process-swarm-gen2/swarm/argus_hold/ledger_writer.py:73-115 | The same for two whole files that verify cleanly and end in one hash. |
| HashChain.EditIsLocated | process-swarm-gen2/swarm/argus_hold/ledger_writer.py:98-113 | Editing one entry's data under a different digest is reported exactly once, at its own line, and leaves the head as it was. |
| LedgerWriter.LedgerWriter.RecoverState | process-swarm-gen2/swarm/argus_hold/ledger_writer.py:20-33 | Memory is rebuilt from the last line that is not blank: its chain hash and its sequence number plus one, with the code's defaults for missing fields. |
| LedgerWriter.LedgerWriter.Append | process-swarm-gen2/swarm/argus_hold/ledger_writer.py:35-71 | Appends the link from the remembered hash and number, and moves both on. |
| LedgerWriter.EveryRunInStep | process-swarm-gen2/swarm/argus_hold/ledger_writer.py:20-71 | After any interleaving of appends and restarts nothing has raised, the file is exactly the chain over the appended commands numbered from 0, and memory is what a restart would recover. |
| LedgerWriter.EveryRunVerifies | process-swarm-gen2/swarm/argus_hold/ledger_writer.py:83-115 | Such a file verifies without violations. |
| LedgerWriter.SequencedFromZero | process-swarm-gen2/swarm/argus_hold/ledger_writer.py:40-49 | The k-th record has sequence number k. |
| LedgerWriter.EveryRunTells | process-swarm-gen2/swarm/argus_hold/ledger_writer.py:35-71 | After any appends and restarts the file has one line for each appended command in order; it holds each field of the command under its own key, the number of the line, and for each stage that reported its last verdict. |
| LedgerWriter.AppendVerifiesIff | process-swarm-gen2/swarm/argus_hold/ledger_writer.py:35-71 | An append keeps a clean file clean exactly when the remembered hash is still the head: a stale second writer breaks it. |
| SessionWatcher.SessionWatcher.ProcessSessionFile | process-swarm-gen2/swarm/bridge/session_watcher.py:73-173 | Reading a file from its cursor records the turns of that window, in order, and moves the cursor to the end; a file that cannot be opened changes nothing. |
| SessionWatcher.SessionWatcher.ScanSessions | process-swarm-gen2/swarm/bridge/session_watcher.py:56-71 | Files are processed in listing order and the cursors saved exactly when something was recorded. |
| SessionWatcher.SessionWatcher.StopWatching | process-swarm-gen2/swarm/bridge/session_watcher.py:261-264 | Stopping saves the cursors. |
| SessionWatcher.EveryRunSafe | process-swarm-gen2/swarm/bridge/session_watcher.py:41-71 | Over any interleaving of appends, scans, stops and restarts everything recorded lies before the saved cursors, which never overtake those in memory. |
| SessionWatcher.RecordedOnceAndAsWhole | process-swarm-gen2/swarm/bridge/session_watcher.py:41-173 | No assistant entry is recorded twice, and what is recorded for it is what one scan of the whole file records there. |
| SessionTurns.TurnsMeaning | process-swarm-gen2/swarm/bridge/session_watcher.py:73-173 | A scan records exactly the replies for which the last earlier line to speak in the window was the user's, each with that user text, its own text and id, and the provider and model of its place. |
| SessionTurns.PendingMeaning | process-swarm-gen2/swarm/bridge/session_watcher.py:125-173 | What waits for a reply is the text of the last line that spoke, if that was the user's, and nothing otherwise. |
| SessionTurns.ProviderMeaning | process-swarm-gen2/swarm/bridge/session_watcher.py:98-122 | The provider of a place is that of the last line that names it, and unknown when none does. |
| SessionTurns.ModelMeaning | process-swarm-gen2/swarm/bridge/session_watcher.py:98-122 | The same for the model. |
| SessionScan.JoinedInOrder | process-swarm-gen2/swarm/bridge/session_watcher.py:131-153 | Content given in parts reads as its text parts in order, joined by newlines. |
| SessionScan.WindowIsPartOfWider | process-swarm-gen2/swarm/bridge/session_watcher.py:73-173 | Whatever a window records, a scan of any wider window records at the same line with the same texts. |
| SessionScan.SplitLosesOne | process-swarm-gen2/swarm/bridge/session_watcher.py:73-173 | Splitting a window loses at most one exchange: exactly the reply the second part opens with when the first ends in a pending message. |
| SessionScan.SplitIsExactIff | process-swarm-gen2/swarm/bridge/session_watcher.py:73-173 | Two windows record what one scan would exactly when no user message is pending at the boundary or the next line that speaks is not an assistant's. |
| SessionScan.ProviderAgreesIff | process-swarm-gen2/swarm/bridge/session_watcher.py:98-122 | A window attributes the provider that a wider one attributes exactly when some line of its own names it, by a model change or a snapshot with that key, or the lines before the window leave it unknown. |
| SessionScan.ModelAgreesIff | process-swarm-gen2/swarm/bridge/session_watcher.py:98-122 | The same for the model. |
| SessionScan.TurnIsSameIff | process-swarm-gen2/swarm/bridge/session_watcher.py:73-173 | A window records a turn exactly as a wider one does, attribution included, if and only if provider and model are settled before its line in that sense. |
| SessionScan.ModelForgotten | process-swarm-gen2/swarm/bridge/session_watcher.py:78-79 | A failing input: a concrete file whose second window attributes an unknown provider and model. |
| ProviderPolicy.Evaluate | process-swarm-gen2/swarm/integration/policy.py:61-119 | Allowed exactly when the provider supports the capability, is local if required and encrypted if sensitive; the number of checks performed tells at which rule it stopped. |
| Retry.ExecuteSingle | process-swarm-gen2/swarm/integration/acds_client.py:299-353 | Calls a provider until its first success or until the strategy's attempts are used up, and waits the doubling back-off in between; a negative limit makes no call. |
| ProviderFallback.AcdsClient.SelectProvider | process-swarm-gen2/swarm/integration/acds_client.py:137-196 | Picks an eligible provider of highest score, the earliest in the registry among equals; unavailable exactly without capable providers, denied only when none is eligible. |
| ProviderFallback.PreferenceCounts | process-swarm-gen2/swarm/integration/acds_client.py:167-187 | The preferred provider, when eligible, loses with equal latencies only to one whose priority number is at least 20 lower. |
| ProviderFallback.BreakingCosts | process-swarm-gen2/swarm/integration/acds_client.py:177-187 | One whose average breaks the latency limit is chosen over one that keeps it only when preferred or of a priority number at least 30 lower. |
| ProviderFallback.SpeedCounts | process-swarm-gen2/swarm/integration/acds_client.py:177-187 | Of two equally ranked providers within the limit, the other one faster than two seconds, the chosen one is slower by less than 100 milliseconds on average. |
| ProviderFallback.AcdsClient.BuildFallbackChain | process-swarm-gen2/swarm/integration/acds_client.py:206-217 | The capable providers not yet tried, in registry order. |
| ProviderFallback.AcdsClient.ExecuteWithFallback | process-swarm-gen2/swarm/integration/acds_client.py:223-297 | The loop ends as the walk over the selected provider and then the others in registry order does, and only a served request touches the latency history. |
| ProviderFallback.FallbackMeaning | process-swarm-gen2/swarm/integration/acds_client.py:223-297 | The loop ends at the first provider that answers, or before the first that is missing or denied, or at the end; those tried are a prefix of the order, all before the last failed, and the calls stay within one strategy a provider. |
| ProviderFallback.ServedIff | process-swarm-gen2/swarm/integration/acds_client.py:266-297 | Someone serves the request exactly when some provider would answer, all before it fail, and all from the second up to it are registered and allowed; an inadmissible one ends the loop whoever comes after. |
| ProviderFallback.ChainIsRestOfOrder | process-swarm-gen2/swarm/integration/acds_client.py:206-217 | What the chain leaves after a prefix of the order is the rest of the order. |
| ProviderFallback.AcdsClient.Request | process-swarm-gen2/swarm/integration/acds_client.py:71-108 | Each refusal comes exactly from its own stage, and an answer is the fallback's answer from a best provider. |
| ProviderFallback.RequestIsSound | process-swarm-gen2/swarm/integration/acds_client.py:71-360 | An answer comes from a registered, allowed provider that answered after every earlier one failed; nobody is tried twice; `fallback_used` means more than one was tried; calls are at most capable providers times attempts. |
| ProviderPolicy.ShippedLists | process-swarm-gen2/swarm/integration/policy.py:24-31 | The shipped registry lists at most two providers for any capability, none twice. |
| ProviderFallback.ShippedServedIff | process-swarm-gen2/swarm/integration/acds_client.py:266-297 | With the shipped registry the early end skips nobody: a request is served exactly when the selected provider, or an admissible other one, would answer. |
| ProviderFallback.LongerListSkips | process-swarm-gen2/swarm/integration/acds_client.py:274-289 | With a list of three it may skip one: the second is missing, and the third, who would answer, is not asked. |
| ProviderFallback.AcdsClient.RecordLatency | process-swarm-gen2/swarm/integration/acds_client.py:355-360 | Appends a latency and keeps the last twenty. |
| ProviderFallback.RememberedIsLastOfAll | process-swarm-gen2/swarm/integration/acds_client.py:355-360 | Cutting the history after every latency leaves the last twenty of everything ever recorded. |
| JobRepair.RepairJob | process-swarm-gen2/process_swarm/scripts/repair_job.py:27-110 | The repair in place computes the repair function, including where Python would raise on unhashable values or a first agent without an id. |
| RepairProperties.RepairedIsWellShaped | process-swarm-gen2/process_swarm/scripts/repair_job.py:36-108 | A repaired job has its three sections in shape, every enumeration in range and, when some agent has an id, every producer reference resolved. |
| RepairProperties.FixedPointIsWellShaped | process-swarm-gen2/process_swarm/scripts/repair_job.py:27-110 | Repair changes nothing exactly on jobs of that shape. |
| RepairProperties.RepairIsIdempotent | process-swarm-gen2/process_swarm/scripts/repair_job.py:27-110 | Repairing twice is repairing once. |
| RepairProperties.RepairKeepsRest | process-swarm-gen2/process_swarm/scripts/repair_job.py:27-33 | The objective, the agents and every field but seven are as they were. |
| RepairProperties.RepairKeepsArtifacts | process-swarm-gen2/process_swarm/scripts/repair_job.py:84-108 | No artifact is added or dropped, and inside one only its type and producer may change. |
| RepairValues.RepairedValues | process-swarm-gen2/process_swarm/scripts/repair_job.py:36-108 | Every value that repair may set is kept where it is valid and otherwise becomes the default of its own place, whatever else is repaired: mode, retry policy, both failure actions, the four lineage flags, the lists, each constraint's severity, each artifact's type and producer. |
| JobCompile.ValidateJob | process-swarm-gen2/process_swarm/scripts/validate_job.py:6-41 | The schema errors followed by one error for each artifact that names an unknown producer. |
| JobCompile.NoBadProducers | process-swarm-gen2/process_swarm/scripts/validate_job.py:26-37 | The semantic layer finds nothing exactly when every named producer is a known agent. |
| JobCompile.RepairMendsReferences | process-swarm-gen2/process_swarm/scripts/repair_job.py:98-108 | A repaired job passes the semantic layer unless an artifact names a producer although no agent has an id. |
| JobCompile.CompileJob | process-swarm-gen2/process_swarm/scripts/compile_job.py:7-37 | The loop of validation and repair computes the attempt-by-attempt recursion. |
| JobCompile.CompileTakesTwoAttempts | process-swarm-gen2/process_swarm/scripts/compile_job.py:7-37 | With one repair or more a job is accepted at attempt 1, or at attempt 2, or never; more repairs change only the attempt count of a rejection. |
| JobCompile.CompileWithoutRepairs | process-swarm-gen2/process_swarm/scripts/compile_job.py:7-37 | Without repairs the job is judged as it is; with a negative limit it is rejected unjudged. |

## Left out

- CronField.ParseCronField: `int` also reads underscores and non-ASCII digits; the model reads ASCII digits with an optional sign.
- CronSearch.NextCronTime: years are unbounded, so the overflow near year 9999 is not modelled.
- Scheduler.ComputeNextRun: `next_run_at` is a time in one time zone, so malformed or mixed ISO texts and the clock fallback for them are not modelled.
- Scheduler.ScheduleEvaluator.FireOne: the `run_queued` event recorded with the run is not modelled.
- PipelineRunner.Runner.Run: requires canonical relative paths or an empty one; symbolic links, `Path.resolve` and disk errors are not modelled, nor revocation and completion of the lease after the run.
- Executor.GovernedExecutor.RunTest: a command is an oracle that leaves the workspace alone; the allowlist of commands, timeouts and output capture are part of it.
- Validator.ValidateProposal: JSON Schema beyond what later stages rely on, and the pattern lists for commands and self-certification, are predicates.
- ExecutionGate.Check: a signature is unsigned, verifying or failing; keys, canonical signing bytes and the texts of failures are not modelled.
- Sequencer.SequencePipeline.RunStep: requires a canonical relative target or an empty one, as the runner does.
- Sequencer.SequencePipeline.RunSequence: requires the same of every proposal.
- Translator.Translate: missing keys take the code's defaults, but values of a wrong JSON type are not modelled.
- Governance.Transition: the fingerprint hash is its structured input (which does not include the actor), so a collision of fingerprints is not modelled; warning families other than role collapse never arise in transitions.
- SkillAbi.SwarmSkillAbi.UpdateSwarmDefinition: keys are plain names, so a quoted column name or other SQL text in a key is not modelled, and a respelled `swarm_id`, which renames the row, is refused here; system swarm definitions that set the status directly are outside the reachable states.
- ImprovementLedger.Ledger.Redecide: entries are values, so an alias of an entry held by a caller is not modelled; scores are reals, without rounding.
- Orchestrator.AdaptiveOrchestrator.RunAdaptive: the branch objects are distinct; execution and evaluation of a branch are one score for each branch and cycle; artifacts, decision reasons, cycle events and the final report are not modelled.
- HashChain.VerifyChain: a hash field holding JSON other than text, and the wording of violations, are not modelled.
- LedgerWriter.LedgerWriter.Append: a line is written whole; a crash in the middle of a write is not modelled.
- SessionWatcher.SessionWatcher.ProcessSessionFile: cursors count whole lines and files only grow; a read error in the middle of a file, an entry that is not a JSON object, and a crash between recording and saving cursors are not modelled. The text extraction with its regular expressions and the hash that names unnamed entries are parameters.
- ProviderFallback.AcdsClient.SelectProvider: latencies are integers and their mean is compared exactly, without floating-point rounding; the first element of the stable sort is found by one pass.
- Retry.ExecuteSingle: a provider's replies depend on the attempt number only within one request; a reply of `None` is not modelled.
- JobRepair.RepairJob: the job is JSON without shared substructure; NaN is not modelled.
- JobCompile.ValidateJob: JSON Schema validation is a function from jobs to messages.
- Revocation of leases, the ingestion of proposals from the defining layer, and result metadata of bridge records: bookkeeping.
- HTTP clients, the proof user interface, delivery adapters and mail: plumbing.
- Classification of archetypes, constraint extraction, templates, tool matching, the other warning families and evaluation reports: table look-ups that would only add easy members.
- The stages of ARGUS-Hold other than its ledger: checks over configuration.
- TypeScript and Swift sources: configuration and examples.
