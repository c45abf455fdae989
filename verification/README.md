# Check-in bot: verified model

A Dafny model of the logic of the check-in bot in `src/tg_botx`, with proofs of its properties. `dafny verify
dfyconfig.toml` checks everything.

The model follows four large cores and the smaller ones that support them.

**The durable command queue** (`CommandQueue.dfy`, `QueueRuns.dfy`, `Leases.dfy`, `Redelivery.dfy`). The
repository of command executions is a table of rows changed by transactions: enqueue, claim with recovery,
complete, claim delivery, finish delivery, prune. The class `Repository` performs them; functions say what
they compute; events put them in any order, with any owners, a monotone clock, crashes (an owner that never
reports again) and late completions. The webhook and polling gates in front of the queue are composed with it,
including commits whose success was never reported. `Leases.dfy` says in clock times how long an owner keeps
what it was handed, and what becomes of it afterwards.

**The workflow language** (`Workflow.dfy`, `Checker.dfy`, `Validator.dfy`, `WellFormed.dfy`, `Acceptance.dfy`,
`Interpreter.dfy`, `Executor.dfy`). A workflow is a tree of steps with nested conditions. The validator is a
data-flow analysis over that tree; the executor runs it over a mutable context. Each is written twice: as
functions, over which induction is possible, and as a class with loops and assigned fields, as in the program,
proved equal to the functions. `WellFormed.dfy` says what a workflow should be, without a scope or a pass;
`Acceptance.dfy` proves that exactly these are accepted. The outside world (the lookup of the chat, replies,
HTTP responses, regular expressions, text normalization, date parsing, whether a legacy condition can be
normalized, cancellation) is an arbitrary `World`. `SourceSoundness.dfy`, `Provenance.dfy`,
`TypeSoundness.dfy` and `Strictness.dfy` prove what acceptance guarantees about runs; `RuleMeaning.dfy`,
`ExtractionMeaning.dfy`, `Judgement.dfy` and `StepMeaning.dfy` say what rules, extractions, conditions and
steps mean and exactly when they fail; for this a run keeps notes of what it received, read, extracted and
evaluated, which nothing in the run depends on. `Progress.dfy`, `Accounting.dfy`, `Blame.dfy` and
`Tracker.dfy` prove that the progress list tells the truth about a run, through retries to finalisation.

**The message library** (`MessageGroups.dfy`, `MessageLibrary.dfy`, `LibraryHistory.dfy`, `Substitution.dfy`).
Message groups are edited behind the back of the tasks that refer to them; the references stay alive over any
sequence of operations, each of which is accepted exactly when it should be and does what it says, while a
workflow stays acceptable exactly if it is with each of the new messages.

**The planner** (`Zones.dfy`, `Calendar.dfy`, `Schedule.dfy`, `Planner.dfy`, `Listings.dfy`). Instants are
integers, days are ordinals with a proleptic Gregorian calendar, a zone has two offsets and one transition.
The search over a horizon of 3660 days is characterized without reference to the search.

**Incremental forms** (`LogTail.dfy`, `Sessions.dfy`, `Numbers.dfy`). The chunked log reader agrees with
splitting the whole file, the session cache with a store-only manager, and the number parser with a grammar of
grouped numbers.

Where a guarantee ends, the end is stated too, by an explicit input and, where the guarantee is an exact one,
by an if-and-only-if: a run that fails with no step to blame (`Blame.UnknownChatBlamesNobody`,
`Blame.UnnormalizedConditionBlamesNobody`, exactly when in `Blame.FailuresAreBlamedOnOneStep`), a fixed time
that a clock change carries over midnight (`Planner.JumpOverMidnight`, exactly when in
`Planner.NothingIsMissedExactly`), an update delivered after its row was pruned
(`Redelivery.LateDeliveryIsHandedOutAgain`), dates in the hour that repeats (`RuleMeaning.NovemberNight`,
exactly when in `RuleMeaning.DatesCompareByTheClock`), a group edited under a published workflow
(`Substitution.EditIsNotChecked`, exactly when in `Substitution.EditedGroupStaysValid`), a node id that reads
like a path (`Provenance.LookalikeIsRead`), legacy conditions (`Strictness.LegacyConditionsEscapeTheChecks`)
and a clock that steps back (`Sessions.BackwardClockBreaksRefinement`, exactly when in
`Sessions.StepRefines`). `SourceSoundness.SharedIdsWouldBreakTheMerge` shows that the second pass of the
validator is sound only because the first one makes node ids unique.

## Model

| member | source | states |
|---|---|---|
| `CommandQueue.Repository.Enqueue` | src/tg_botx/infrastructure/persistence/repositories/command_executions.py:44-88 | admission: an earlier row with the dedupe key, else busy at the queue limit, else rate limited at the 60-second limit, else exactly one new row; the table is otherwise unchanged |
| `CommandQueue.AdmissionIsDecided` | src/tg_botx/infrastructure/persistence/repositories/command_executions.py:44-88 | the answer in terms of the rows: which requests are duplicates, how many rows of the bot are queued or running, how many of the actor are at most 60 seconds old |
| `CommandQueue.Repository.Recover` | src/tg_botx/infrastructure/persistence/repositories/command_executions.py:91-126 | one pass of recovery over the rows of this bot: interrupted executions, expired waits, abandoned deliveries; what that means over runs is stated in `Leases` |
| `CommandQueue.Repository.Claim` | src/tg_botx/infrastructure/persistence/repositories/command_executions.py:128-172 | after recovery, the row picked (if any) starts under this owner with a fresh lease and nothing else changes |
| `CommandQueue.Repository.Choose` | src/tg_botx/infrastructure/persistence/repositories/command_executions.py:132-171 | the scan of the limited, ordered candidates finds the row that the caps and busy actors allow |
| `CommandQueue.Repository.NextFree` | src/tg_botx/infrastructure/persistence/repositories/command_executions.py:155-171 | the loop over the candidates stops at the first that is not held back |
| `CommandQueue.FirstFreeIsLeast` | src/tg_botx/infrastructure/persistence/repositories/command_executions.py:144-171 | of ordered candidates the first free one precedes every other free one, and there is none exactly when all are blocked |
| `CommandQueue.PickIsWorkConserving` | src/tg_botx/infrastructure/persistence/repositories/command_executions.py:128-172 | while no more rows wait than the limit, nothing is picked if and only if the workers are used up or every waiting row is held back; otherwise the oldest free row is picked |
| `CommandQueue.Repository.Complete` | src/tg_botx/infrastructure/persistence/repositories/command_executions.py:174-218 | only the current owner of a running row settles it; late or foreign completions change nothing |
| `CommandQueue.Repository.ClaimDelivery` | src/tg_botx/infrastructure/persistence/repositories/command_executions.py:220-245 | the oldest deliverable row is leased for sending and its attempts counted |
| `CommandQueue.Repository.FinishDelivery` | src/tg_botx/infrastructure/persistence/repositories/command_executions.py:247-263 | only the owner of a row being sent ends the delivery, as sent or to be retried later |
| `CommandQueue.Repository.Prune` | src/tg_botx/infrastructure/persistence/repositories/command_executions.py:312-321 | exactly the terminal rows of this bot older than the retention are deleted |
| `QueueRuns.RowStep` | src/tg_botx/infrastructure/persistence/repositories/command_executions.py:91-263 | what one transaction can do to one row: nothing, recovery, recovery and hand-out, completion or delivery end by its owner, or removal if terminal |
| `QueueRuns.RowsAppear` | src/tg_botx/infrastructure/persistence/repositories/command_executions.py:44-88 | rows appear only by a successful admission |
| `QueueRuns.InvRun` | src/tg_botx/infrastructure/persistence/repositories/command_executions.py:44-321 | in every reachable state all rows are well formed, deduplicated, timely and within every limit |
| `QueueRuns.HandedOutAtMostOnce` | src/tg_botx/infrastructure/persistence/repositories/command_executions.py:128-172 | along any run, crashes and late completions included, a row is handed to a worker at most once |
| `QueueRuns.EveryRowQuiesces` | src/tg_botx/infrastructure/persistence/repositories/command_executions.py:91-263 | a row changes status at most twice and delivery state at most six times, and is dispatched at most three times |
| `QueueRuns.SettledRowsStaySettled` | src/tg_botx/infrastructure/persistence/repositories/command_executions.py:90-263 | no row returns to queued; a terminal row keeps status and result whoever reports later; sent stays sent |
| `QueueRuns.LiveRowsAreKept` | src/tg_botx/infrastructure/persistence/repositories/command_executions.py:312-321 | pruning never deletes a queued or running row |
| `QueueRuns.PrunedRowsStayPruned` | src/tg_botx/infrastructure/persistence/repositories/command_executions.py:312-321 | a pruned id never comes back while ids are not reused |
| `QueueRuns.OwnershipIsExclusive` | src/tg_botx/infrastructure/persistence/repositories/command_executions.py:165-263 | in every reachable state owner and lease are set exactly while a row runs or its reply is being sent, never both |
| `QueueRuns.LimitsHold` | src/tg_botx/infrastructure/persistence/repositories/command_executions.py:58-172 | in every reachable state and for every bot: running, running Python, queued plus running within the policy, and one running row per actor |
| `QueueRuns.RateLimitSurvivesPruning` | src/tg_botx/infrastructure/persistence/repositories/command_executions.py:72-84 | right after an admission the actor has at most the permitted number of rows created in the last minute, pruned ones included |
| `QueueRuns.ClaimsAreWorkConserving` | src/tg_botx/infrastructure/persistence/repositories/command_executions.py:128-172 | in every reachable state a claim returns nothing exactly when the caps forbid it or every waiting row is held back, and else the first in (created_at, id) order |
| `QueueRuns.RivalsStartInOrder` | src/tg_botx/infrastructure/persistence/repositories/command_executions.py:144-171 | rows of one actor and one class start in (created_at, id) order, along any run |
| `Leases.HandedOutForNinetySeconds` | src/tg_botx/infrastructure/persistence/repositories/command_executions.py:128-172 | a row handed to an owner stays running under that owner for 90 seconds, whatever else happens, while that owner reports nothing |
| `Leases.CompletionInTimeCounts` | src/tg_botx/infrastructure/persistence/repositories/command_executions.py:174-218 | a report of that owner within the 90 seconds is what is stored, status, result, error and times, whatever comes in between and afterwards |
| `Leases.ReportSettles` | src/tg_botx/infrastructure/persistence/repositories/command_executions.py:174-218 | success is stored as succeeded, failure as failed, an interruption as unknown, for as long as the row is kept |
| `Leases.ExpiredLeaseIsEnded` | src/tg_botx/infrastructure/persistence/repositories/command_executions.py:91-126 | the first claim or delivery claim of its bot after the lease ends a running row as interrupted, and it never runs again |
| `Leases.WaitingIsLeftAlone` | src/tg_botx/infrastructure/persistence/repositories/command_executions.py:91-126 | a queued row waits on unchanged, or is started, while its deadline has not passed |
| `Leases.ExpiredWaitIsEnded` | src/tg_botx/infrastructure/persistence/repositories/command_executions.py:91-126 | the first claim or delivery claim of its bot after the deadline cancels a row that still waits, for good |
| `Leases.DispatchIsLeased` | src/tg_botx/infrastructure/persistence/repositories/command_executions.py:220-245 | a delivery that is claimed is leased to that owner for 30 seconds and counted |
| `Leases.SendingIsLeftAlone` | src/tg_botx/infrastructure/persistence/repositories/command_executions.py:220-245 | a row being sent stays with its owner until the lease is over, while that owner reports nothing |
| `Leases.SendingStep` | src/tg_botx/infrastructure/persistence/repositories/command_executions.py:91-126 | the first claim after the lease takes the delivery back, or dispatches it anew, at most three times in all |
| `Leases.DeliveryReportCounts` | src/tg_botx/infrastructure/persistence/repositories/command_executions.py:247-263 | a delivery reported in time is sent, or is to be tried again 5 seconds later |
| `Leases.RetryWaits` | src/tg_botx/infrastructure/persistence/repositories/command_executions.py:220-245 | nothing is dispatched before the time set for it, nor a fourth time |
| `Redelivery.ManagementBot.ClaimWebhookUpdate` | src/tg_botx/interfaces/telegram/runtime.py:279-299 | an unseen update id is remembered and the oldest ids beyond the limit are forgotten; a seen one is refused |
| `Redelivery.ManagementBot.DiscardWebhookUpdate` | src/tg_botx/interfaces/telegram/runtime.py:308-312 | discarding remembers the id |
| `Redelivery.ManagementBot.HandleWebhookUpdate` | src/tg_botx/interfaces/telegram/runtime.py:314-341 | an update is processed once; when its admission is unconfirmed the id is forgotten and the failure reported |
| `Redelivery.ManagementBot.PollRound` | src/tg_botx/interfaces/telegram/runtime.py:393-412 | one polling round, over updates in any order and with or without an integer id, handles those before the first unconfirmed one and leaves the offset the program leaves |
| `Redelivery.OffsetSeparates` | src/tg_botx/interfaces/telegram/runtime.py:395-412 | when ids ascend from the offset on, as Telegram returns them, the new offset separates exactly the handled updates from those to be returned again |
| `Redelivery.GateAfterIsOk` | src/tg_botx/interfaces/telegram/runtime.py:279-341 | seen set and recency queue agree, without duplicates and at most 2048 long, after every delivery |
| `Redelivery.RecentUpdatesAreRefused` | src/tg_botx/interfaces/telegram/runtime.py:279-341 | an update that was claimed is refused as long as fewer than 2048 other updates have been delivered since, whatever became of them |
| `Redelivery.CrowdedOutUpdatesAreNew` | src/tg_botx/interfaces/telegram/runtime.py:279-299 | and no longer: after 2048 new updates, each accepted, whatever was remembered before is new again |
| `Redelivery.OneRowPerUpdate` | src/tg_botx/features/bot/execution.py:150-159 | under any schedule of deliveries, retries, restarts and storage failures the gate stays consistent and each update has at most one row |
| `Redelivery.RedeliveryAddsNothing` | src/tg_botx/infrastructure/persistence/repositories/command_executions.py:50-57 | an update whose row is stored adds no row when delivered again |
| `Redelivery.UnconfirmedUpdatesAreRetried` | src/tg_botx/interfaces/telegram/runtime.py:326-341 | an unconfirmed update is not remembered; and if a lost commit left a row, then whatever happens in between, every later delivery that is processed while the row is stored is answered with it and adds none |
| `Redelivery.HandoffsAreBounded` | src/tg_botx/features/bot/execution.py:214-246 | along any run, pruning included, an update is handed to a worker at most once more than it is admitted anew after its rows were pruned |
| `Redelivery.ReadmissionIsLate` | src/tg_botx/infrastructure/persistence/repositories/command_executions.py:312-321 | an update is admitted anew only later than the retention of every row it has had |
| `Redelivery.UpdateHandedOutAtMostOnce` | src/tg_botx/features/bot/execution.py:357-367 | along any run, whatever is pruned and however often the update is delivered, it is handed to a worker at most once, if no delivery comes later than the retention of its row |
| `Redelivery.LateDeliveryIsHandedOutAgain` | src/tg_botx/features/bot/execution.py:357-367 | where that ends: a run in which a row is completed and pruned and its update, delivered once more, is handed out again |
| `Validator.WorkflowValidator.ValidateNodeId` | src/tg_botx/features/checkin/validation.py:64-71 | a node id is new and of 1 to 100 characters, or the workflow is rejected |
| `Validator.WorkflowValidator.ValidateExtracts` | src/tg_botx/features/checkin/validation.py:309-318 | the loop over the extractions declares exactly the checked variables |
| `Validator.WorkflowValidator.MergeScopes` | src/tg_botx/features/checkin/validation.py:355-365 | merging the branches: union of possible variables without type conflicts, intersection of definite ones, waits on all branches |
| `Validator.WorkflowValidator.ValidateSequence` | src/tg_botx/features/checkin/validation.py:368-503 | the loop over the steps accepts and computes exactly what the recursive check does, node ids included |
| `Validator.WorkflowValidator.ValidateStep` | src/tg_botx/features/checkin/validation.py:387-503 | one step: depth and kind of a condition, or id and shape of a plain step |
| `Validator.WorkflowValidator.ValidateVersion2` | src/tg_botx/features/checkin/validation.py:290-365 | a version-2 condition: id, extractions after a wait, 2 to 20 branches checked in the extended scope, merge |
| `Validator.WorkflowValidator.ValidateBranches` | src/tg_botx/features/checkin/validation.py:322-354 | the loop over the branches of a version-2 condition |
| `Validator.WorkflowValidator.ValidateLegacy` | src/tg_botx/features/checkin/validation.py:251-287 | a legacy condition: branches checked in an empty scope, their results dropped |
| `Validator.WorkflowValidator.ValidateSources` | src/tg_botx/features/checkin/validation.py:506-547 | the pass over data sources, conditions merged by intersection |
| `Validator.WorkflowValidator.ValidateBranchSources` | src/tg_botx/features/checkin/validation.py:518-526 | the data sources of each branch |
| `Validator.WorkflowValidator.Validate` | src/tg_botx/schemas.py:133-145 | a definition is accepted if and only if it is well formed: a condition on every step of the tree and on what precedes it, without reference to the checks |
| `Acceptance.AcceptedIsWellFormed` | src/tg_botx/features/checkin/validation.py:368-547 | both passes accept a workflow if and only if ids are distinct and of 1 to 100 characters, conditions nest at most three deep, every template name, rule variable and operand is declared by an extraction that precedes it on some way (in a legacy branch: within that branch), every rule, extraction, condition and step has the shape required of it, and the data source of every extract step precedes it on every way |
| `Acceptance.StepsChecked` | src/tg_botx/features/checkin/validation.py:368-503 | the first pass, from any scope and depth: it accepts exactly the steps that fit what precedes them, and its scope is then what those declare and whether they certainly wait |
| `Acceptance.SourcesChecked` | src/tg_botx/features/checkin/validation.py:506-547 | the second pass, from any sources: it accepts exactly the steps whose extractions find their source on every way |
| `SourceSoundness.StepsRegisterIds` | src/tg_botx/features/checkin/validation.py:64-71 | acceptance makes the node ids of the whole tree distinct, and registers exactly them |
| `SourceSoundness.CommonKindIsUniform` | src/tg_botx/features/checkin/validation.py:527-529 | for distinct ids, a source common to all branches has in each the kind read off the first |
| `SourceSoundness.StepsFindSources` | src/tg_botx/features/checkin/steps/extract_variable.py:30-72 | from any context holding the promised sources, running checked steps never misses a source and keeps the promise |
| `SourceSoundness.SourcesAreAlwaysFound` | src/tg_botx/features/checkin/validation.py:506-547 | no run of an accepted workflow, legacy conditions included, fails because a data source has not been stored |
| `SourceSoundness.SharedIdsWouldBreakTheMerge` | src/tg_botx/features/checkin/validation.py:527-529 | why uniqueness is needed: with a shared id the source pass accepts a workflow whose run fails |
| `Provenance.StepsAreTraced` | src/tg_botx/features/checkin/steps/extract_variable.py:30-93 | from any context that stores what the history says, running checked steps stores what it then says, each step receiving at most once |
| `Provenance.ExtractionsReadTheirSource` | src/tg_botx/features/checkin/steps/http_request.py:50-51 | every extraction reads what the step it names received in this run, or what was received last, unless a wait or request without an id is stored under the id of another step (keys are `node_id or resolved_path`) |
| `Provenance.LookalikeIsRead` | src/tg_botx/features/checkin/steps/wait_message.py:52-53 | where that ends: a wait whose id is the path of another wait without one, and an extraction that names the first and reads the second |
| `TypeSoundness.RuleIsClean` | src/tg_botx/features/checkin/conditions/rules.py:38-112 | a checked rule never fails by type, operator, operand count or operand type, for any typed variables |
| `TypeSoundness.ExtractAllIsTyped` | src/tg_botx/features/checkin/conditions/variables.py:49-104 | extraction keeps every variable within its declared type, also when it drops one |
| `TypeSoundness.StepsAgree` | src/tg_botx/features/checkin/validation.py:368-503 | from any context that agrees with the scope, running checked steps agrees with the scope the checker computes |
| `TypeSoundness.AcceptedRunsAreTyped` | src/tg_botx/features/checkin/validation.py:290-503 | runs of accepted version-2 workflows record no type, operator, operand-count or missing-wait failure, and end with variables of the checked types |
| `Strictness.StrictOnlyPromotesErrors` | src/tg_botx/features/checkin/conditions/rules.py:115-147 | whenever the strict form selects a branch, the non-strict one selects the same with the same variables |
| `Strictness.NonStrictAlwaysPicks` | src/tg_botx/features/checkin/conditions/rules.py:115-147 | on accepted version-2 conditions the non-strict form absorbs every condition error and picks a branch |
| `Strictness.LegacyConditionsEscapeTheChecks` | src/tg_botx/features/checkin/validation.py:279-287 | why the typing theorems need version 2: an accepted legacy condition, in its normal form, takes its last branch, where a version-2 condition fails for want of a wait |
| `RuleMeaning.TextOrder` | src/tg_botx/features/checkin/conditions/rules.py:22-35 | texts compare by their first difference |
| `RuleMeaning.TextOrderIsTransitive` | src/tg_botx/features/checkin/conditions/rules.py:22-35 | the order of texts is transitive |
| `RuleMeaning.ComparisonIsTotal` | src/tg_botx/features/checkin/conditions/rules.py:22-35 | of two values of one type exactly one of less, equal, greater holds; the other operators are their combinations; dates compare by the clock of their zone |
| `RuleMeaning.OppositesExclude` | src/tg_botx/features/checkin/conditions/rules.py:22-35 | of two opposite comparisons of values of one type - of numbers, dates, lengths or texts - exactly one holds |
| `RuleMeaning.DatesCompareByTheClock` | src/tg_botx/features/checkin/conditions/values.py:106-135 | dates of one zone compare by what its clock shows, ignoring the fold: exactly when before and equals differ from the order of the instants |
| `RuleMeaning.NovemberNight` | src/tg_botx/features/checkin/conditions/values.py:106-135 | such a pair: 05:50 and 06:10 UTC on 3 November 2024 in New York |
| `RuleMeaning.BetweenIncludesBothEnds` | src/tg_botx/features/checkin/conditions/rules.py:98-109 | between includes both ends |
| `RuleMeaning.ContainsFindsEveryPosition` | src/tg_botx/features/checkin/conditions/rules.py:76-91 | contains holds exactly if the text occurs at some position |
| `RuleMeaning.MagnitudeRulesMeanWhatTheySay` | src/tg_botx/features/checkin/conditions/rules.py:92-112 | a decided rule about a number or a date holds exactly if its operator holds of the magnitudes, that of a date being its clock time |
| `RuleMeaning.LengthRulesMeanWhatTheySay` | src/tg_botx/features/checkin/conditions/rules.py:64-75 | a decided rule about a length compares the grapheme count with its operands |
| `RuleMeaning.TextRulesMeanWhatTheySay` | src/tg_botx/features/checkin/conditions/rules.py:57-91 | a decided rule about a text, without regular expression, holds exactly if its operator holds of the normalized texts |
| `RuleMeaning.RegexRulesMeanWhatTheySay` | src/tg_botx/features/checkin/conditions/rules.py:86-88 | a decided regex rule holds exactly if the engine, asked with the resolved operand as it stands, the flags of the rule and the normalized text, finds a match |
| `RuleMeaning.RuleSays` | src/tg_botx/features/checkin/conditions/rules.py:38-112 | any rule evaluates to true exactly if what it says is so, regular expressions included |
| `RuleMeaning.RuleCharges` | src/tg_botx/features/checkin/conditions/regex.py:44-82 | a rule costs the budget what the engine took, and nothing if the engine is not asked |
| `RuleMeaning.RulesMeaning` | src/tg_botx/features/checkin/conditions/rules.py:127-146 | a branch that is decided matches exactly if all, or any, of its rules hold, each judged with the budget that those before it left |
| `RuleMeaning.FirstMatchIsTaken` | src/tg_botx/features/checkin/conditions/rules.py:115-147 | the selected branch, strict or not, is the first else branch or branch whose rules hold, each rule judged with the budget that the extractions and rules before it left, and no other |
| `ExtractionMeaning.OperandsStandFor` | src/tg_botx/features/checkin/conditions/variables.py:107-124 | the operands of a rule resolve to exactly the values that they stand for: a variable of the type asked for, or what a literal is read as |
| `ExtractionMeaning.OperandsTooFar` | src/tg_botx/features/checkin/conditions/variables.py:107-124 | which operands end the run: the first that stands for nothing is a date too far away |
| `ExtractionMeaning.ExtractionObtains` | src/tg_botx/features/checkin/conditions/variables.py:57-91 | an extraction yields exactly the value that its source, mode and type say: field or text; all, the first number or the captured group; read as text, number or date |
| `ExtractionMeaning.ExtractionsGoThrough` | src/tg_botx/features/checkin/conditions/variables.py:92-104 | in strict mode exactly if every one obtains something, else exactly if none is a date too far away; and what they leave of the budget |
| `ExtractionMeaning.ExtractionSetsItsVariable` | src/tg_botx/features/checkin/conditions/variables.py:82-93 | afterwards the variable of an extraction is what it obtained, and gone if it obtained nothing, whatever it was |
| `ExtractionMeaning.OtherVariablesStay` | src/tg_botx/features/checkin/conditions/variables.py:49-104 | variables that no extraction names stay as they were |
| `ExtractionMeaning.HttpExtractionObtains` | src/tg_botx/features/checkin/steps/extract_variable.py:63-93 | from status, headers, body or a path in the body of the response of the named step, or of the last: success exactly if there is a value, and the variable is then that value |
| `ExtractionMeaning.WaitExtractionObtains` | src/tg_botx/features/checkin/steps/extract_variable.py:32-62 | from text or metadata of the named wait, or of the last message: likewise |
| `Judgement.RuleIsDecided` | src/tg_botx/features/checkin/conditions/rules.py:38-112 | a rule of an accepted workflow is decided exactly if its variable is there with its type, its operands stand for something, lengths are lengths and the engine answers; and it ends the run exactly if a length cannot be measured or an operand is a date too far away |
| `Judgement.BranchIsReached` | src/tg_botx/features/checkin/conditions/rules.py:124-147 | a branch is selected exactly if it is the first match and the rules judged up to it go through - in strict mode all decided, else none fatal |
| `Judgement.ConditionSelects` | src/tg_botx/features/checkin/conditions/rules.py:115-147 | a condition selects a branch exactly if its extractions from the last message go through and that branch is then reached; strict and non-strict, with a budget of 200 milliseconds |
| `Judgement.AcceptedRulesFit` | src/tg_botx/features/checkin/validation.py:135-200 | the rules of accepted conditions are of the form that this needs |
| `StepMeaning.RequestIsMade` | src/tg_botx/features/checkin/steps/http_request.py:16-56 | a request is made if every variable in URL, headers and body is set, and its response is then the last one and that of the step; without an answer the run was cancelled or the step fails |
| `StepMeaning.ReplyIsStored` | src/tg_botx/features/checkin/steps/wait_message.py:15-73 | a wait likewise; text and metadata of the reply are then those of the last message and of the step |
| `StepMeaning.ButtonIsClicked` | src/tg_botx/features/checkin/steps/click_button.py:17-51 | a click likewise, if there is a message |
| `StepMeaning.CallbackCanBeRead` | src/tg_botx/features/checkin/steps/click_button.py:17-51 | after a click its callback data can be extracted, as text and in base64, where the button has any, and no other metadata changes |
| `StepMeaning.OneCandidateIsSent` | src/tg_botx/features/checkin/steps/send_message.py:22-57 | a send succeeds exactly if there is a candidate, every variable of the one chosen is set, and it can be sent |
| `StepMeaning.SkippingGoesThrough` | src/tg_botx/features/checkin/executor.py:170-190 | marking steps as skipped gets to the end exactly if every legacy condition among them, at any depth, can be normalized |
| `StepMeaning.SelectedBranchIsRun` | src/tg_botx/features/checkin/steps/condition.py:16-60 | a condition that selects a branch runs exactly its steps, unless a legacy condition in another branch cannot be normalized; then it fails and runs none |
| `Executor.ExecutionContext.ExtractVariables` | src/tg_botx/features/checkin/conditions/variables.py:49-104 | the loop sets, drops or stops as the extraction semantics says |
| `Executor.ExecutionContext.EvaluateBranch` | src/tg_botx/features/checkin/conditions/rules.py:127-146 | the loop over the rules with its early exits |
| `Executor.ExecutionContext.SelectBranch` | src/tg_botx/features/checkin/conditions/rules.py:115-147 | extraction, then the loop over the branches; the context changes in variables and notes only; which branch that is is stated by `Judgement.ConditionSelects` |
| `Executor.ExecutionContext.SendMessage` | src/tg_botx/features/checkin/steps/send_message.py:22-57 | fixed, manual or live group text, rendered and sent |
| `Executor.ExecutionContext.WaitMessage` | src/tg_botx/features/checkin/steps/wait_message.py:15-73 | what a received message stores in the context |
| `Executor.ExecutionContext.ClickButton` | src/tg_botx/features/checkin/steps/click_button.py:17-51 | a click needs a message and replaces the callback data in the metadata, by nothing if there is none |
| `Executor.ExecutionContext.HttpRequest` | src/tg_botx/features/checkin/steps/http_request.py:16-56 | the response is stored as the last one and under the step |
| `Executor.ExecutionContext.ExtractFromWait` | src/tg_botx/features/checkin/steps/extract_variable.py:32-64 | which wait an extraction reads and when it fails |
| `Executor.ExecutionContext.ExtractFromHttp` | src/tg_botx/features/checkin/steps/extract_variable.py:65-93 | which response an extraction reads and when it fails |
| `Executor.ExecutionContext.MarkStepsSkipped` | src/tg_botx/features/checkin/executor.py:170-190 | the nested steps, at any depth, are reported skipped in order, up to a legacy condition that cannot be normalized |
| `Executor.ExecutionContext.MarkBranchesSkipped` | src/tg_botx/features/checkin/steps/condition.py:50-55 | the steps of all branches but the selected one are reported skipped |
| `Executor.ExecutionContext.ExecuteCondition` | src/tg_botx/features/checkin/steps/condition.py:16-60 | selection, success report, skips, which may raise, then the steps of the selected branch |
| `Executor.ExecutionContext.ExecuteStep` | src/tg_botx/features/checkin/executor.py:219-337 | normalization of a legacy condition, which may raise, cancellation check, running report, handler, and the failed or success report |
| `Executor.ExecutionContext.ExecuteSteps` | src/tg_botx/features/checkin/executor.py:210-337 | the loop over the steps is the step-by-step semantics, ending at the first failure |
| `Executor.ExecutionContext.Execute` | src/tg_botx/features/checkin/executor.py:192-208 | one attempt: the chat and its latest message are looked up, which may fail or be cancelled, and then the steps run |
| `Progress.EntriesDescribeNodes` | src/tg_botx/features/checkin/progress.py:66-104 | the list of entries describes the nodes of the tree one by one |
| `Progress.NodesAreSeparate` | src/tg_botx/features/checkin/progress.py:66-104 | with distinct node ids no two nodes share a path or an id |
| `Progress.ReportsLandOnTheirEntry` | src/tg_botx/features/checkin/progress.py:200-215 | a report about a node updates the entry of that node and no other |
| `Accounting.StepsKeepBooks` | src/tg_botx/features/checkin/executor.py:210-337 | in any stretch of a run, whatever its outcome, no node is started and skipped or twice, nothing succeeds or fails unstarted, nothing is left running |
| `Accounting.EveryStepIsAccounted` | src/tg_botx/features/checkin/executor.py:170-337 | after any run every entry shows the last status of its own node and none is running; after a successful run each node was executed or skipped, exactly one and exactly once, and is shown so |
| `Blame.StepsBlame` | src/tg_botx/features/checkin/executor.py:219-337 | any stretch of a run reports failed, once and last, exactly a step and the conditions around it; or nobody, exactly if it ended before one of its own steps was reported running |
| `Blame.FailuresAreBlamedOnOneStep` | src/tg_botx/features/checkin/executor.py:192-330 | when a run fails or is cancelled, the list shows as failed exactly one step and the conditions around it, or nothing: exactly if the chat was not found, or the run ended before a top-level step by cancellation or because that step could not be normalized |
| `Blame.UnknownChatBlamesNobody` | src/tg_botx/features/checkin/executor.py:192-203 | where nobody is blamed: the lookup of the chat fails |
| `Blame.UnnormalizedConditionBlamesNobody` | src/tg_botx/features/checkin/executor.py:221-225 | where nobody is blamed: an accepted legacy condition that cannot be normalized, since validation does not look inside its rules |
| `Accounting.NoReportIsLost` | src/tg_botx/features/checkin/progress.py:200-216 | every report of a run reaches the entry of the step that sent it |
| `Accounting.FinalisationSettles` | src/tg_botx/features/checkin/progress.py:249-279 | finalisation leaves nothing pending or running and changes nothing after a successful run |
| `Tracker.ProgressTracker.InitializeRun` | src/tg_botx/features/checkin/progress.py:106-124 | a new run starts with all entries pending |
| `Tracker.ProgressTracker.BeginAttempt` | src/tg_botx/features/checkin/progress.py:165-182 | a new attempt resets every entry, of the tracked run only |
| `Tracker.ProgressTracker.FindEntry` | src/tg_botx/features/checkin/progress.py:200-215 | the first entry matching id or path, else the first with the index |
| `Tracker.ProgressTracker.UpdateStep` | src/tg_botx/features/checkin/progress.py:184-216 | exactly the entry a report names changes |
| `Tracker.ProgressTracker.FinalizeRun` | src/tg_botx/features/checkin/progress.py:249-279 | the final status of each entry |
| `Tracker.RetriesStopInTime` | src/tg_botx/features/checkin/executor.py:360-381 | attempts end with the first success, the first cancellation or the last permitted one, within the bounds |
| `Tracker.RunIsExplained` | src/tg_botx/features/checkin/executor.py:360-381 | there is a list of attempts, each made right after a check that found the run not cancelled, each but the last failed, of which the result is that of the last: success of it, failure of all permitted ones, or the place where the run was cancelled |
| `Tracker.RetryIsExplained` | src/tg_botx/features/checkin/executor.py:360-381 | so it is from any point of the loop on: a failed attempt before the last permitted one is followed by another |
| `Tracker.ResultIsDetermined` | src/tg_botx/features/checkin/executor.py:360-381 | nothing is left to choice: two results that attempts explain are the same |
| `Tracker.RunWithRetries` | src/tg_botx/features/checkin/executor.py:360-381 | the retry loop: its result is explained by the attempts made, and the list then shows the last started attempt alone |
| `Tracker.NothingReportedIsSkipped` | src/tg_botx/features/checkin/progress.py:249-279 | in both cases every step is shown as skipped in the end |
| `Tracker.ExecuteRun` | src/tg_botx/features/checkin/progress.py:106-286 | a whole run from empty list to finalisation: every node has settled; after success the list says what the successful attempt did; otherwise it blames the step at which the last attempt ended and the conditions around it, or nobody, exactly if no attempt started or the last one ended outside its steps |
| `MessageGroups.WalkFindsEveryDepth` | src/tg_botx/features/message_library/service.py:21-36 | the flat walk finds a group exactly if the tree names it at any depth |
| `MessageLibrary.LibraryService.Uses` | src/tg_botx/features/message_library/service.py:29-36 | the search of one workflow for a group |
| `MessageLibrary.LibraryService.IsUnreferenced` | src/tg_botx/features/message_library/service.py:43-52 | no draft and no latest version of any task, archived ones included, uses the group |
| `MessageLibrary.LibraryService.GetMessages` | src/tg_botx/infrastructure/persistence/repositories/messages.py:48-52 | the messages of an existing, non-empty group, or the error |
| `MessageLibrary.LibraryService.CreateGroup` | src/tg_botx/infrastructure/persistence/repositories/messages.py:54-67 | a new group at revision 1, exactly if its id was never used and its name is free; no reference is broken |
| `MessageLibrary.LibraryService.UpdateGroup` | src/tg_botx/features/message_library/service.py:54-60 | the group becomes what was written, at the next revision, exactly if it is at the revision read, the name is free and, where it is emptied, nothing names it; no reference is broken |
| `MessageLibrary.LibraryService.DeleteGroup` | src/tg_botx/features/message_library/service.py:62-65 | the group is gone, exactly if it is at the revision read and nothing names it; no reference is broken |
| `MessageLibrary.LibraryService.ValidateGroups` | src/tg_botx/features/message_library/service.py:68-94 | every group named is live, and the workflow with the messages filled in is accepted |
| `MessageLibrary.LibraryService.CreateTask` | src/tg_botx/features/checkin/tasks.py:60-69 | a new unpublished draft, exactly if its name is free, its account known and its groups usable; no reference is broken |
| `MessageLibrary.LibraryService.EditTask` | src/tg_botx/features/checkin/tasks.py:71-120 | the draft of the task is the new definition, exactly if the task is not archived, the name is free, the account known and the groups usable; nothing else changes and no reference is broken |
| `MessageLibrary.LibraryService.PublishTask` | src/tg_botx/features/checkin/workflows.py:39-80 | the draft becomes the latest version after the earlier ones, exactly if the task is not archived, the draft is well formed and usable and, when enabled, has a future run; no reference is broken |
| `MessageLibrary.LibraryService.EnableTask` | src/tg_botx/features/checkin/tasks.py:122-138 | the task is enabled, exactly if it is not archived, is published and has a future run; no reference is broken |
| `MessageLibrary.LibraryService.DisableTask` | src/tg_botx/features/checkin/tasks.py:140-148 | only the flag changes; no reference is broken |
| `MessageLibrary.LibraryService.ArchiveTask` | src/tg_botx/features/checkin/tasks.py:221-231 | archiving disables and keeps draft and versions; no reference is broken |
| `MessageLibrary.LibraryService.RestoreTask` | src/tg_botx/features/checkin/tasks.py:233-243 | restoring leaves the task disabled; no reference is broken |
| `LibraryHistory.AcceptedExactly` | src/tg_botx/features/checkin/tasks.py:60-148 | which operations are accepted, in terms of tasks, groups and the well-formedness of workflows; a refused one changes nothing |
| `LibraryHistory.OperationsSettle` | src/tg_botx/features/checkin/workflows.py:39-80 | every operation has its effect on the task or group that it is about, and no other |
| `LibraryHistory.TasksFollowTheirHistory` | src/tg_botx/features/checkin/tasks.py:60-243 | after any operations a task is what the accepted ones about it made of it, in order: its draft the last definition written, its versions the drafts published, each as it was then |
| `LibraryHistory.GroupsFollowTheirHistory` | src/tg_botx/infrastructure/persistence/repositories/messages.py:54-111 | after any operations a group is what the last accepted write of it said, at its revision |
| `MessageGroups.GroupsStayIntact` | src/tg_botx/features/message_library/service.py:43-94 | after any sequence of operations every group-sourced send at any depth in every draft and latest version names an existing, non-empty group; enabled tasks are unarchived and published |
| `MessageGroups.SendsHaveCandidates` | src/tg_botx/features/checkin/steps/send_message.py:31-48 | such a send always has a message to choose |
| `MessageGroups.RevisionsTrackWrites` | src/tg_botx/infrastructure/persistence/repositories/messages.py:75-111 | along any run a group whose revision has not moved has not been touched |
| `MessageGroups.StaleWritesAreRefused` | src/tg_botx/infrastructure/persistence/repositories/messages.py:75-111 | no lost updates: a write with the revision read earlier succeeds only if nobody wrote in between |
| `Substitution.SubstitutionKeepsRuns` | src/tg_botx/features/checkin/steps/send_message.py:31-48 | as long as the groups it reads keep their messages, a run equals, report by report, the run of the workflow with the messages filled in |
| `Substitution.AcceptedMessageByMessage` | src/tg_botx/features/message_library/service.py:68-94 | a workflow is accepted with the messages of a group filled in exactly if it is accepted with each of them alone |
| `Substitution.EditedGroupStaysValid` | src/tg_botx/features/message_library/service.py:54-60 | after the messages of a group have been edited, a workflow that was valid is so exactly if it is acceptable with each new message; the edit does not check it |
| `Substitution.EditIsNotChecked` | src/tg_botx/features/message_library/service.py:54-60 | an edit that no check refuses and that keeps every reference intact, after which the published workflow is not valid |
| `Substitution.EditStopsTheNextRun` | src/tg_botx/features/checkin/steps/send_message.py:31-57 | and its next run fails at the send, for a variable that is not set |
| `Zones.LocalizeMeaning` | src/tg_botx/features/checkin/schedule.py:21-31 | localizing gives the first occurrence of a wall time; skipped ones move forward by the gap |
| `Zones.AttachMeaning` | src/tg_botx/features/checkin/conditions/values.py:97-106 | a date without an offset is accepted exactly if one instant shows it and no other does: it is that instant |
| `Calendar.DateOfDay` | src/tg_botx/features/checkin/schedule.py:131-139 | the date computed for a day exists and is the date of that day |
| `Calendar.DayOfDate` | src/tg_botx/features/checkin/schedule.py:131-139 | and conversely; so days and dates correspond one to one |
| `Calendar.DatesAscend` | src/tg_botx/features/checkin/schedule.py:131-139 | in order |
| `Calendar.WeekdayMeans` | src/tg_botx/features/checkin/schedule.py:138-138 | a day has weekday k exactly if d - k is a multiple of seven |
| `Schedule.OffsetsAreExact` | src/tg_botx/features/checkin/schedule.py:65-86 | fast range and filtered scan both consider exactly the real first-occurrence seconds of the day inside the window |
| `Schedule.RandomPlanIsExact` | src/tg_botx/features/checkin/schedule.py:65-97 | the plan is empty if the window has too few seconds, else exactly that many real ones, ascending in UTC |
| `Schedule.RandomPlanAscendsOnTheWall` | src/tg_botx/features/checkin/schedule.py:65-97 | and ascending on the wall clock |
| `Schedule.CandidatesAreAnchored` | src/tg_botx/features/checkin/schedule.py:100-115 | the candidates of a day ascend and are first occurrences of its planned times |
| `Schedule.DaysAreOrdered` | src/tg_botx/features/checkin/schedule.py:100-115 | the instants of an earlier day come first |
| `Schedule.OnlySkippedTimesAreCarried` | src/tg_botx/features/checkin/schedule.py:21-31 | a run is carried over midnight only if the clock skips its wall time, on the day on which the skipped stretch begins or ends |
| `Planner.AppendDay` | src/tg_botx/features/checkin/schedule.py:158-169 | one day adds its later candidates until enough are found |
| `Planner.Search` | src/tg_botx/features/checkin/schedule.py:154-170 | the loop over the days of the horizon |
| `Planner.NextRuns` | src/tg_botx/features/checkin/schedule.py:142-170 | the search from cutoff, anchor and first day; what it finds is stated by `Planner.RunsInPlainTerms` |
| `Planner.NextRunFor` | src/tg_botx/features/checkin/schedule.py:173-182 | the first of them, or none |
| `Planner.DaysMean` | src/tg_botx/features/checkin/schedule.py:131-139 | on which days a schedule runs, by arithmetic alone: every n-th from the start on, those with (d - k) % 7 == 0 for a chosen weekday k, or those whose date has a chosen day of the month |
| `Planner.RunsInPlainTerms` | src/tg_botx/features/checkin/schedule.py:131-170 | the result is the ordered first `count` of all instants on such days, after now and the given time, up to the end date and horizon, complete for every such day in the search |
| `Planner.FixedTimeInPlainTerms` | src/tg_botx/features/checkin/schedule.py:21-31 | on a day with a fixed time there is one run: the first instant at which the clock shows that time, or shifted by the gap if none does |
| `Planner.SingleDrawInPlainTerms` | src/tg_botx/features/checkin/schedule.py:106-115 | a run in a random window is the first instant of a clock time inside the window that exists that day |
| `Planner.NewYearMonday` | src/tg_botx/features/checkin/schedule.py:138-138 | dated: of a Monday schedule the run after 00:00 on Sunday 31 December 2023 is at 08:00 on Monday 1 January 2024 |
| `Planner.RunsStartAtFirstDay` | src/tg_botx/features/checkin/schedule.py:131-170 | for every schedule, the result is the ordered first `count` of all planned instants after the cutoff from the first day of the search on |
| `Planner.RunsAreFirstUpcoming` | src/tg_botx/features/checkin/schedule.py:131-170 | and from the start date on, if no run of the schedule is carried over midnight by a clock change: eligible days, within horizon and end date |
| `Planner.NothingIsMissedExactly` | src/tg_botx/features/checkin/schedule.py:131-170 | exactly when the search misses nothing, whatever the cutoff and count: there is no start date, or no run of the schedule from it on is carried over midnight |
| `Planner.FirstUpcomingIsUnique` | src/tg_botx/features/checkin/schedule.py:142-170 | there is only one such list |
| `Planner.SteppingRepeatsAndLosesNothing` | src/tg_botx/features/checkin/schedule.py:142-209 | n successive single searches return the n instants of one search, whatever the clock changes do; only a schedule for every n days needs a start date, which every stored task has |
| `Planner.HorizonSuffices` | src/tg_botx/features/checkin/schedule.py:154-182 | for fixed times without end date, daily, weekly, every n days or on monthly dates, every count up to 10 is filled |
| `Planner.CarriedRunIsMissed` | src/tg_botx/features/checkin/schedule.py:142-170 | any carried run is missed by the search that starts one second before it |
| `Planner.JumpOverMidnight` | src/tg_botx/features/checkin/schedule.py:142-170 | such a schedule: daily at 23:45 where the clock jumps from 23:30 to 00:30; daily at 08:00 in the same zone misses nothing |
| `LogTail.SplitIsExact` | src/tg_botx/infrastructure/observability/log_stream.py:79-80 | splitting loses nothing and no part holds a newline |
| `LogTail.SplitResumes` | src/tg_botx/infrastructure/observability/log_stream.py:79-80 | splitting can be resumed from the incomplete line |
| `LogTail.IncrementalLogReader.Prime` | src/tg_botx/infrastructure/observability/log_stream.py:43-47 | each readable file, followed already or not, is followed from its current end, and the cursors of other files stay |
| `LogTail.IncrementalLogReader.Read` | src/tg_botx/infrastructure/observability/log_stream.py:49-101 | one reading: chunk, carried line, discarding, cursors of vanished files dropped |
| `LogTail.FilesDoNotInterfere` | src/tg_botx/infrastructure/observability/log_stream.py:49-101 | each file is read once per reading, from its own cursor |
| `LogTail.FeedTracks` | src/tg_botx/infrastructure/observability/log_stream.py:63-86 | one more chunk emits exactly the newly completed lines, except one that was given up |
| `LogTail.FollowingAgreesWithSplitting` | src/tg_botx/infrastructure/observability/log_stream.py:63-86 | however the reads fall, the lines emitted are those of the whole file: all up to the cap, none of twice the cap, no fragment, bounded pending; and n reads have read n times the cap or all there was |
| `LogTail.ShortLinesAreAllEmitted` | src/tg_botx/infrastructure/observability/log_stream.py:63-86 | if no line exceeds the cap, exactly the lines |
| `LogTail.ChosenLines` | src/tg_botx/infrastructure/observability/log_stream.py:63-86 | every emitted line is a line of the file, and every short line is emitted |
| `LogTail.ReadingsAgreeWithSplitting` | src/tg_botx/infrastructure/observability/log_stream.py:49-101 | for the reader over all files, whatever the others hold and however they come and go: from a reading that finds a file new, back again or cut short, its lines are emitted from the beginning |
| `LogTail.FoundFilesAreFollowed` | src/tg_botx/infrastructure/observability/log_stream.py:49-101 | after a reading exactly the files that it found are followed |
| `Sessions.SessionManager.CreateSession` | src/tg_botx/interfaces/admin/security/sessions.py:89-114 | a session is cached and stored with its expiry |
| `Sessions.SessionManager.AuthenticateSession` | src/tg_botx/interfaces/admin/security/sessions.py:116-166 | prune, load, check, and extend on a throttled schedule |
| `Sessions.SessionManager.RevokeSession` | src/tg_botx/interfaces/admin/security/sessions.py:168-175 | the session leaves cache and store |
| `Sessions.SessionManager.RevokeAllSessions` | src/tg_botx/interfaces/admin/security/sessions.py:177-181 | all sessions leave |
| `Sessions.SessionManager.PruneLocked` | src/tg_botx/interfaces/admin/security/sessions.py:199-218 | pruning at most once per interval |
| `Sessions.StepRefines` | src/tg_botx/interfaces/admin/security/sessions.py:89-218 | one operation, whatever the clock says: same answer as the store-only manager exactly if it does not ask for an unexpired session that is no longer stored; and then agreement is kept |
| `Sessions.CacheRefinesStore` | src/tg_botx/interfaces/admin/security/sessions.py:89-218 | any sequence of operations and restarts gets the answers of a store-only manager with rolling expiry, unless the clock steps back over the expiry of a session that is then used |
| `Sessions.NewManagerRefinesStore` | src/tg_botx/interfaces/admin/security/sessions.py:89-218 | so it does for a new manager over any store while the clock does not step back |
| `Sessions.SessionsLastFromTheirLastUse` | src/tg_botx/interfaces/admin/security/sessions.py:89-218 | over any operations and restarts a session is accepted exactly while less than its lifetime has passed since it was opened or last accepted, unless revoked since, and with its CSRF token where that is asked for; else the failure is the one that says so |
| `Sessions.CacheAloneRefines` | src/tg_botx/interfaces/admin/security/sessions.py:89-218 | without a store the cache alone gives the same answers up to a restart |
| `Sessions.StoreStaysTidy` | src/tg_botx/interfaces/admin/security/sessions.py:199-218 | along any run, after every cleanup that is due nothing is stored that expired a prune interval ago or earlier |
| `Sessions.ExpiredSessionsAreCleanedUp` | src/tg_botx/interfaces/admin/security/sessions.py:199-218 | so for each operation; a forced cleanup leaves nothing expired, and none is made within an interval of the last |
| `Sessions.BackwardClockBreaksRefinement` | src/tg_botx/interfaces/admin/security/sessions.py:199-218 | where that ends: a session that was pruned, and a clock that steps back over its expiry |
| `Numbers.ParseIsExact` | src/tg_botx/features/checkin/conditions/values.py:42-84 | a text is accepted if and only if it is well formed, with the value of its digits |
| `Numbers.RenderedNumbersParseBack` | src/tg_botx/features/checkin/conditions/values.py:42-84 | every integer grouped in threes, signed, with any fraction, parses back to itself |

## Left out

- Telegram and HTTP clients, FastAPI routes, the command line, notifications, the Docker sandbox, configuration loading: input and output only.
- SQL: every repository method and every service call is one atomic step with one clock reading; the gate row that serializes transactions, connection failures inside a transaction and audit rows are not modelled. Reading and writing a task or a group is therefore not interleaved with other calls.
- Identifiers: execution ids are naturals in their order, random ids never repeat, update ids are non-negative integers or absent.
- Redelivery.UpdateHandedOutAtMostOnce: a delivery later than the retention of the update's row may be handed out again (`Redelivery.LateDeliveryIsHandedOutAgain`); `Redelivery.HandoffsAreBounded` counts that case.
- Delivery workers share one owner name per service, so exclusivity is stated for rows, not for workers.
- Session tokens are their own digests, the store never fails, and stored times are not rounded.
- Log lines are bytes: decoding, redaction, parsing and the grouping of continuation lines are not modelled; the read bound of 1 MiB is a parameter.
- Numbers.ParseIsExact: digits are the ASCII digits, and numeric (non-text) inputs are not modelled.
- Time zones have one transition of less than a day. Seconds are the finest unit of the planner, years are unbounded, and seeded sampling is any choice of distinct positions.
- Planner.SteppingRepeatsAndLosesNothing: excludes schedules for every n days without a start date, where each call counts from its own cutoff; stored tasks always have a start date (`src/tg_botx/features/checkin/schedule.py:207-208`).
- Planner.HorizonSuffices: random windows and end dates are excluded, since with them a period need not have a run.
- The regular expression engine, grapheme counting, text normalization, date parsing, the search for a first number, JSON paths and template token syntax are oracles. Regular expressions may fail, time out and use up the budget of a condition in any way.
- Provenance.ExtractionsReadTheirSource: assumes that no wait or request without an id has a path that reads like the id of another step, since the program stores under `node_id or resolved_path`; `Provenance.LookalikeIsRead` is the counterexample. Of the last wait only the text is traced, because clicks change its metadata.
- TypeSoundness.AcceptedRunsAreTyped: needs version-2 conditions, since the validator checks legacy branches in an empty scope; `Strictness.LegacyConditionsEscapeTheChecks` is the counterexample.
- Legacy conditions appear in their normalized form; the rewriting itself is not modelled, and whether it raises on a condition is answered by the `World`.
- The JSON shape of steps, unsupported fields, titles and branch names, HTTP methods and header syntax, identifier grammar and message length limits are answered by `Workflow.Grammar` or left out; error texts are not modelled, error kinds are.
- Metadata values are texts, a value that is None counts as absent, and the metadata of a reply includes what the program adds to it about earlier clicks.
- Bot responses, buttons, durations, logs and change notifications of a run are not modelled. A response report also sets the status running once more: on a step that is running, and, when a nested step fails after a response, on the condition around it after its success report and before its failure report (`src/tg_botx/features/checkin/executor.py:288-305`). The pause between attempts is left out, and the reports of an attempt are delivered to the tracker in order when the attempt has ended.
- MessageLibrary.LibraryService.ValidateGroups: the program rewrites a copy of the payload in place while it walks; here the walk collects the messages and the copy is a function of them.
- Substitution.SubstitutionKeepsRuns: the groups that a run names keep their messages before and during it; what an edit does is the subject of `Substitution.EditedGroupStaysValid`.
- Task schedules, next-run bookkeeping and revision counters of tasks are left out of the message library model; whether a schedule has a future run is a parameter.
- `ClientPool` leases and the run-once claims of the run coordinator.
