# OmniClaw: a verified model

OmniClaw runs a company of agents: a manager tree with a daily budget flowing
down it, forms that walk a workflow from holder to holder as files are routed
between agents' queues and inboxes, and a scheduler that retries failed model
calls. This project models the parts of it that carry state or arithmetic and
proves what they are for. `dafny verify dfyconfig.toml` checks all of it.

The modules follow the program's components:

| file | models |
|---|---|
| `prelude.dfy`, `text.dfy` | options and results, counting; stripping, lines, decimal digits |
| `forest.dfy` | hierarchy rows, who descends from whom, the tree below a node |
| `access.dfy` | the queue walk behind skill and instruction authorisation |
| `waterfall.dfy` | rounding, splitting an inflow among children, the grants of a whole pass |
| `budget_engine.dfy` | budget rows, the recursive pass, cycles, allocation changes |
| `budget_runs.dfy` | any sequence of cycles, recalculations and usage updates |
| `budget_rows.dfy` | what passes leave in single rows: mode, place, spend, and when a cost is deducted |
| `team_budgets.dfy` | a manager's allocation change with its review flags |
| `form_ledger.dfy` | the ledger transaction and workers under optimistic locking |
| `directory.dfy` | looking nodes up by id or unique name |
| `stage_graph.dfy`, `stage_validator.dfy` | stage graphs, what a valid one is, the validator |
| `projection.dfy` | compiling a stage graph to edges, looking edges up, decision normalisation |
| `router.dfy` | the router's guards and target resolution against the ledger's transition |
| `routes.dfy` | what a routed file asks for, whose form it is, who it goes to |
| `registry.dfy` | form-type versions, their lifecycle, the workspace sync |
| `publishing.dfy` | which version the router steps files on after each registry action |
| `frontmatter.dfy` | the frontmatter printer and parser |
| `routing_files.dfy` | moving a form's file, with an I/O error possible at every step |
| `handover.dfy` | the text handed from one holder to the next, and what the router makes of it |
| `form_ids.dfy` | normalising and numbering new form ids |
| `retry_policy.dfy`, `retry_scheduler.dfy` | backoff arithmetic; retry records, failure handlers, the scheduler, operator actions |
| `retry_runs.dfy` | any interleaving of handlers, scheduler passes and operators |
| `retry_outcomes.dfy` | what becomes of a record after a failure, a retry or an operator's action |
| `counterexamples.dfy` | definitions, files and registry runs at which a routing property fails |

Conventions. Money is an integer number of micro-dollars and a percentage an
integer number of hundredths, which is what the columns hold; half-up rounding
is written out. Instants and dates are integers. Text is a sequence of
characters, and JSON objects keep their members in order. What the program gets
from outside is a parameter: the clock, the outcome of every file operation and
of every invocation, which due records the database returned, whether skill
files could be distributed. Code that changes state is a class whose methods
equal a function of the old state; the theorems are about those functions, over
all runs. Code that only branches is a function.

Where the code does not keep what it seems to promise, the model follows the
code and states exactly when the promise holds:

* Linking a manager checks for a second manager but not for cycles
  (`Forest.LinkKeepsAcyclicIff`), and the budget recursion and the access walk
  end exactly when the starting node is not its own descendant
  (`Forest.FiniteBelowIff`).
* A forced cycle rolls the same date over a second time
  (`BudgetRuns.ForcedRerunRollsOverAgain`). A directly written limit does not last:
  a recalculation replaces it and only the reserve it wiped out stays gone, a reset
  carries what is unspent of it over (`BudgetRuns.LimitWriteOutcome`).
* A recalculation sets a metered row's spend to everything ever recorded for its
  node. So between two resets it brings costs back that the first one had deducted,
  and the second deducts them again (`BudgetRows.CostsCountAgain`); the limits grow by
  the whole budget exactly when there are no such costs (`BudgetRows.FullBudgetIff`).
* A commit rechecks the status a form was read with, not its holder; this is
  enough exactly when, on every round of the workflow, the edges all clear the
  holder, or all keep it, or keep it or take the actor on a round where the form is
  never without a holder (`FormLedger.HolderCheckSoundIff`). For stage graphs: when
  no round passes through a stage that names a holder (`Router.StageHolderCheckIff`).
* The router strips the next stage's name and the ledger does not, and the
  ledger compares stripped decision keys where the router compares raw ones;
  they agree exactly when the name needs no stripping and no two decisions of the
  stage strip to the same key (`Router.RouterAndLedgerAgreeIff`, and a definition
  at which they do not: `Counterexamples.RouterAndLedgerDisagree`).
* The router strips the names of stages and decisions where the validator takes
  them as written, and it refuses a skill name that leaves the skills directory
  where the validator only looks for the file. So a published definition can have
  stages no file ever enters (`Counterexamples.AcceptedButNeverRouted`), or a start
  stage at which no form ever begins (`Counterexamples.AcceptedButNeverStarted`).
  `Router.DefinitionBlamedIff` says for which files a definition is at fault, and
  `Router.NeverBlamedIff` for which definitions there is none.
* Normalising a stage whose `decisions` is neither absent nor an object brings
  hidden legacy transitions back (`Projection.NormalizePreservesEdgesIff`).
* A body of nothing but newlines does not grow from hop to hop, and other line
  breaks than "\n" are replaced (`Frontmatter.HopsPrependIff`). Values with outer
  blanks or quotes come back without them (`Frontmatter.RoundTripIff`).
* The router writes the next stage's name into the file it delivers and strips quotes
  when it reads it again. So a stage, a type or an id written in quotes is not found
  again at the next hop (`Handover.HandedFormIsCurrentIff`).
* A refused form is lost if its archive copy shares a path with its inbox or
  backup copy, which separate directories rule out (`RoutingFiles.FormSurvivesIff`).
* A failed copy is not taken back, so an undelivered form can leave its inbox or
  backup copy behind (`RoutingFiles.LeftBehindIff`).
* A form id near the length limit can be numbered in few ways, so the search for
  a free one need not end (`FormIds.SearchEndsIff`).
* A scheduled retry that is deferred again is left without a next attempt and is
  never due again on its own (`RetryRuns.DeferredRetryIsForgotten`,
  `RetryRuns.ScheduledIff`). One whose pass ends in an exception can stay claimed,
  with the same effect (`RetryRuns.AbortedRetryIsStranded`).
* Cancelling a retry lasts exactly when no pass is running it, because the pass's
  write-back overwrites the status (`RetryOutcomes.CancelledStaysIff`).
* A failure handler reads the attempt count, writes the record and logs the event
  in three calls. The count is right exactly while no handler's write is overtaken
  by another's (`RetryRuns.AttemptsAreCountedIff`), and then the limit of eight
  retries holds (`RetryRuns.AtMostEightDeferrals`); overlapping handlers can all be
  granted a retry, however many there are (`RetryRuns.OverlappingHandlersAllDefer`).

## Model

| member | source | states |
|---|---|---|
| Forest.FiniteBelowIff | src/omniclaw/budgets/engine.py:423-439 | the recursion below a node is finite if and only if the node is not its own descendant, given one manager per child |
| Forest.TreeUnique | src/omniclaw/budgets/engine.py:423-439 | there is only one tree of reports below a node |
| Forest.IdsAreDescendants | src/omniclaw/budgets/engine.py:423-439 | the recursion meets its root and exactly the root's descendants |
| Forest.IdsDistinct | src/omniclaw/budgets/engine.py:423-439 | no node is met twice, so merging result maps overwrites nothing |
| Forest.KidsDisjoint | src/omniclaw/db/models.py:62-79 | subtrees of two reports of one manager share no node |
| Forest.ChildrenInOrder | src/omniclaw/db/repository.py:219-233 | of two reports of one manager the one created earlier comes first, so the one created last takes what rounding leaves |
| Forest.HierarchyStore.LinkManager | src/omniclaw/db/repository.py:1754-1781 | links exactly when both nodes exist and the child has no other manager; keeps one manager per child; a refusal changes nothing |
| Forest.LinkKeepsAcyclicIff | src/omniclaw/db/repository.py:1762-1781 | a link keeps the forest free of cycles if and only if the new manager is neither the child nor below it |
| Access.ListDescendants | src/omniclaw/skills/service.py:544-560 | the queue walk ends, visits each descendant once, and collects exactly the deployed agents below the actor |
| Access.PopAndExtend | src/omniclaw/skills/service.py:555-558 | popping a node and queueing its reports leaves one node fewer to visit, losing none |
| Access.AuthorizeTarget | src/omniclaw/skills/service.py:536-560 | under either scope, a target is allowed exactly when it is a deployed agent directly or transitively managed by the actor |
| Waterfall.RoundHalfUpNearest | src/omniclaw/budgets/engine.py:21-24 | quantising moves a quotient by at most half a unit, ties upward |
| Waterfall.SplitConserves | src/omniclaw/budgets/engine.py:381-396 | child pools and self-allowance add up to the inflow, no pool is negative, and 100 percent given away leaves exactly nothing |
| Waterfall.SplitAt | src/omniclaw/budgets/engine.py:383-394 | a child gets its rounded share capped by what the earlier ones left, and the last one takes the rest when shares total 100 percent |
| Waterfall.PrefixDrift | src/omniclaw/budgets/engine.py:383-394 | after i children the total handed out is within i/2 of exact, unless the pool ran dry |
| Waterfall.ShareNearExact | src/omniclaw/budgets/engine.py:381-395 | the i-th child is within max(1, i)/2 micro-dollars of its exact share, cap and remainder included |
| Waterfall.NodeConserves | src/omniclaw/budgets/engine.py:371-396 | at every node the children's pools and its own allowance add up to its inflow, whoever holds an allocation |
| Waterfall.PlanConserves | src/omniclaw/budgets/engine.py:371-439 | for every tree and allocation table the self-allowances total exactly the company budget |
| Waterfall.PlanIds | src/omniclaw/budgets/engine.py:422-439 | a pass serves the tree's nodes, in the tree's order |
| Waterfall.BranchNearExact | src/omniclaw/budgets/engine.py:381-439 | rounding error carried down a branch grows by at most B/2 a level |
| Waterfall.InflowNearExact | src/omniclaw/budgets/engine.py:381-439 | at depth d the inflow is within d*B/2 of the exact product of shares |
| Waterfall.BranchIsGranted | src/omniclaw/budgets/engine.py:423-438 | the inflow at the end of a branch is the inflow the pass records for that node |
| BudgetRuns.InflowNearExactAfterAnyRun | src/omniclaw/budgets/engine.py:261-283 | the d*B/2 bound holds after any run in which allocations were only changed by accepted proposals, without assuming percentages total at most 100 |
| BudgetEngine.Engine.EnsureBudget | src/omniclaw/budgets/engine.py:441-455 | the row exists afterwards under the given parent, metered by default for agents only |
| BudgetEngine.Engine.SplitInflow | src/omniclaw/budgets/engine.py:371-395 | the loop over allocated children computes the waterfall's pools and what remains |
| BudgetEngine.Engine.ServeNode | src/omniclaw/budgets/engine.py:352-421 | one node's row after reconciliation or rollover, and its snapshot |
| BudgetEngine.Engine.BuildSnapshotTree | src/omniclaw/budgets/engine.py:342-439 | the recursion rewrites rows and reports snapshots exactly as the pass's list of grants says |
| BudgetEngine.Engine.BuildChildren | src/omniclaw/budgets/engine.py:422-439 | serving the children one after the other equals serving their grants in order |
| BudgetEngine.Engine.Recalculate | src/omniclaw/budgets/engine.py:152-169 | a recalculation is one pass without rollover from the company budget |
| BudgetEngine.Engine.RunBudgetCycle | src/omniclaw/budgets/engine.py:92-150 | a date's first or forced cycle rolls over, any other only recalculates, and the date is recorded |
| BudgetEngine.Engine.SetNodeBudgetMode | src/omniclaw/budgets/engine.py:252-259 | sets one row's mode, creating a missing row under the node's manager |
| BudgetEngine.Engine.UpdateNodeAllowance | src/omniclaw/budgets/service.py:194-225 | writes limit and allowance of one row and clears its reserve exactly when the row exists and is outside the hierarchy or the glass is broken |
| BudgetEngine.Engine.ValidateDirectChildren | src/omniclaw/budgets/engine.py:463-485 | accepts exactly distinct direct reports with non-negative percentages totalling at most 100 |
| BudgetEngine.Engine.ReplaceTeamAllocations | src/omniclaw/budgets/engine.py:261-283 | an accepted proposal replaces one manager's rows and clears its review flag, a refused one changes nothing |
| BudgetEngine.WithRowsReplaces | src/omniclaw/db/repository.py:456-480 | after replacing, the manager's percentages are exactly the proposal and all others are kept |
| BudgetEngine.ProposalKeepsHundred | src/omniclaw/budgets/engine.py:463-485 | an accepted proposal keeps every manager's positive percentages, over any distinct children, at or below 100 percent in total |
| BudgetRuns.EveryNodeReportedOnce | src/omniclaw/budgets/engine.py:422-439 | a pass reports each node at or below the root allocator exactly once |
| BudgetRuns.ReportAt | src/omniclaw/budgets/engine.py:408-439 | every snapshot is taken from the final row of its node |
| BudgetRuns.PassSettles | src/omniclaw/budgets/engine.py:360-408 | after any pass each limit is allowance plus reserve, and limits total the budget plus the reserves carried in |
| BudgetRuns.StepConserves | src/omniclaw/budgets/engine.py:92-150 | each step changes the total of limits only by a reset's budget minus what was spent up to the limits, by a directly written limit, or by what a pass without rollover takes back of one |
| BudgetRuns.RunConserves | src/omniclaw/budgets/engine.py:92-150 | over any run, direct writes of limits included, total limits equal the initial total plus one budget per reset minus all spend counted up to limits plus what those writes come to |
| BudgetRuns.RunStaysSettled | src/omniclaw/budgets/engine.py:92-169 | without direct writes the allowances keep totalling the company budget and that last term is nothing |
| BudgetRuns.LimitWriteOutcome | src/omniclaw/budgets/service.py:194-225 | after a directly written limit, a recalculation leaves the total of limits short by exactly the reserve it wiped out, and a reset carries the written limit over less what was spent up to it |
| BudgetRuns.RecalculationIdempotent | src/omniclaw/budgets/engine.py:152-169 | recalculating again changes nothing |
| BudgetRuns.OneResetPerDate | src/omniclaw/budgets/engine.py:99-142 | an unforced run resets exactly once per date that had no cycle yet |
| BudgetRuns.RerunsKeepReserves | src/omniclaw/budgets/engine.py:103-123 | reruns for dates that had their cycle move no reserve but those of rows whose limit is written directly |
| BudgetRuns.DueUntilRunIff | src/omniclaw/budgets/engine.py:203-212 | over any run, forced cycles included, a date is due exactly from its reset minute until its first cycle and never after; while due, its cycle resets |
| BudgetRuns.ForcedRerunRollsOverAgain | src/omniclaw/budgets/engine.py:99-131 | a forced rerun with nothing spent raises the limits by another company budget |
| BudgetRows.PassSpend | src/omniclaw/budgets/engine.py:357-369 | after a reset every row's spend is nothing; after any other pass a metered row's is its recorded cost and a free row's is what it was |
| BudgetRows.PassPlaces | src/omniclaw/budgets/engine.py:352-408 | any pass files each row under the node's manager with the percentage that manager gives it, keeps its review mark, and changes no mode but the root's; a new row is metered for agents only |
| BudgetRows.RootMode | src/omniclaw/budgets/engine.py:92-131 | exactly a cycle that resets, or a recalculation asked to, makes the root allocator free |
| BudgetRows.ModeIsSet | src/omniclaw/budgets/engine.py:252-259 | a mode that was set decides every later pass until the next mode change, whatever runs between |
| BudgetRows.SpendIsRecorded | src/omniclaw/budgets/engine.py:361-366 | after any run, a recalculation finds a metered row's spend in all calls ever recorded for its node |
| BudgetRows.ReportedSpendIsDeducted | src/omniclaw/budgets/engine.py:367-369 | a spend reported for a row is what the next reset deducts from the limit the row then has, if no pass or report comes between |
| BudgetRows.NextResetAddsBudget | src/omniclaw/budgets/engine.py:367-408 | from one reset to the next the limits grow by exactly one company budget, whatever was spent before the first, if no pass ran and no spend was reported between them |
| BudgetRows.CostsCountAgain | src/omniclaw/budgets/engine.py:361-369 | a recalculation between two resets makes the second deduct each metered row's whole recorded cost again, up to its limit |
| BudgetRows.FullBudgetIff | src/omniclaw/budgets/engine.py:361-369 | the limits then grow by the whole budget if and only if no metered row with a limit ever had a cost |
| BudgetRows.SnapshotAtBranch | src/omniclaw/budgets/engine.py:409-439 | each node is reported with the inflow that the rounding bound is about and with the figures its row is left with |
| TeamBudgets.BudgetsService.SetTeamAllocations | src/omniclaw/budgets/service.py:41-77 | only the manager itself, with an acceptable non-empty proposal, changes anything; then allocations, rows and flags are as specified |
| TeamBudgets.BudgetsService.NotifyDirectReports | src/omniclaw/budgets/service.py:286-334 | the loop flags the reports whose figures moved |
| TeamBudgets.ReviewsFlaggedIff | src/omniclaw/budgets/service.py:286-334 | the manager's flag is cleared, and a node is newly flagged exactly when it is a direct report with reports of its own whose allowance or limit changed |
| TeamBudgets.TeamUpdateSettles | src/omniclaw/budgets/service.py:41-77 | the action leaves limits and allowances settled |
| TeamBudgets.TeamUpdateTakesEffect | src/omniclaw/budgets/service.py:51-69 | each report's row names the manager and the percentage proposed for it, and the root allocator is free |
| TeamBudgets.ResendIsQuiet | src/omniclaw/budgets/service.py:51-69 | sending the same allocations again changes nothing and flags nobody |
| FormLedger.FormStore.TransitionFormInstance | src/omniclaw/db/repository.py:1502-1573 | commits exactly when the status is the expected one; then row, history and one appended event are as specified, otherwise nothing changes |
| FormLedger.EveryInterleavingIsLinear | src/omniclaw/db/repository.py:1481-1573 | in every interleaving of workers the log is one gap-free chain over the workflow from the creation by its actor on, never rewritten, and replaying it gives the row |
| FormLedger.CommitKeepsInv | src/omniclaw/db/repository.py:1526-1568 | a commit under the version check extends the chain by one event |
| FormLedger.UninterruptedCommit | src/omniclaw/db/repository.py:1515-1568 | a lone worker's load, count and commit amount to the single transaction |
| FormLedger.HopOutcome | src/omniclaw/db/repository.py:1502-1573 | an uninterrupted request moves the form along its edge exactly when the edge leaves its status and nobody but the actor holds it: the new holder by the edge's rule, one event with who did what, the row in step; otherwise nothing happens |
| FormLedger.RoundAdmitsStaleActor | src/omniclaw/db/repository.py:1526-1530 | every other kind of round lets someone commit who does not hold the form, starting from a form created with a holder if all are |
| FormLedger.HolderCheckSoundIff | src/omniclaw/forms/service.py:795-833 | every committed move was made by its holder, in all interleavings, if and only if on every round of the workflow the holder rules all clear the holder, all keep it, or keep it or take the actor while the form is never on the round without one; for creations with a holder, as both services make them, and for any creation the repository accepts |
| FormLedger.AcyclicActorsHeld | src/omniclaw/forms/service.py:563-570 | in particular without any round |
| Directory.GetNodeById | src/omniclaw/db/repository.py:192-201 | looking a node up by its id finds that node |
| Directory.UuidIff | src/omniclaw/db/repository.py:1783-1784 | a reference is taken for an id exactly if it is 8, 4, 4, 4 and 12 hexadecimal digits with dashes between them |
| Directory.NodeResolvesIff | src/omniclaw/db/repository.py:192-208 | every node resolves by its own id; by its name if and only if that is its id, or it is trimmed, not shaped like an id and no other node's |
| StageValidator.ReachableFrom | src/omniclaw/forms/service.py:1341-1354 | the worklist ends with exactly the stages reachable from the start |
| StageValidator.ValidateDecisions | src/omniclaw/forms/service.py:1303-1331 | no problem exactly when every decision is named once and leads to a defined stage; collects where they lead |
| StageValidator.ValidateStage | src/omniclaw/forms/service.py:1254-1331 | no problem exactly when target, skill and decisions of a stage are in order |
| StageValidator.ValidateAllowlist | src/omniclaw/forms/service.py:1499-1520 | accepts exactly an absent list or a non-empty one of resolvable references |
| StageValidator.ValidateStageGraph | src/omniclaw/forms/service.py:1205-1366 | reports no problem exactly for well-formed graphs whose every stage is reachable by a path of decisions |
| StageValidator.ReachabilityAgrees | src/omniclaw/forms/service.py:1333-1354 | reachability over the collected adjacency is reachability over the stages' own decisions |
| Projection.ProjectStage | src/omniclaw/forms/service.py:908-926 | the loop over decisions yields the edges of the usable entries |
| Projection.ProjectWorkflow | src/omniclaw/forms/service.py:886-926 | the loop over stages yields the projected edge list |
| Projection.ResolvesIff | src/omniclaw/forms/service.py:759-793 | a request is resolved to an edge if and only if that is the only edge with its status and its decision, target or both |
| Projection.DecisionsResolve | src/omniclaw/forms/service.py:759-793 | on a valid graph a declared decision resolves to its one edge and rule, no other resolves, none is ambiguous |
| Projection.StuckIffTerminal | src/omniclaw/forms/service.py:1205-1331 | a form has no way on exactly at terminal stages |
| Projection.ProjectedEdgesStayInside | src/omniclaw/forms/service.py:908-926 | every edge of a published workflow runs between defined stages, as the stage says |
| Projection.NormalizeIdempotent | src/omniclaw/forms/service.py:841-873 | normalising decisions twice is normalising once |
| Projection.NormalizePreservesEdgesIff | src/omniclaw/forms/service.py:841-926 | projecting after normalisation gives the same edges if and only if no stage hides legacy transitions behind a malformed `decisions` |
| Router.IsAllowedInitiator | src/omniclaw/ipc/service.py:1034-1069 | the loop permits exactly whom the allowlist permits |
| Router.AdmitsIff | src/omniclaw/ipc/service.py:1042-1069 | reading the list in order admits through an early `{{any}}` or by a name on a fully usable list |
| Router.TargetsAgree | src/omniclaw/ipc/service.py:1071-1131 | for every form of target the ledger's holder rule finds the node the router delivers to |
| Router.RawStepIsEdgeIff | src/omniclaw/forms/service.py:759-793 | a step found on the raw stage is the one edge the ledger finds if and only if no other decision of the stage strips to its key; otherwise the ledger calls it ambiguous |
| Router.RawStepMatchesProjection | src/omniclaw/ipc/service.py:303-338 | on a trimmed stage, raw step and projected edge give the same next stage for every key, in both directions |
| Router.RouterAndLedgerAgreeIff | src/omniclaw/ipc/service.py:289-497 | for every file that passes the guards, whatever the definition, the ledger moves to the routed stage and gives the form to the node delivered to if and only if the next stage's name is trimmed and no other decision strips to the same key |
| Router.AgreeOnAcceptedIff | src/omniclaw/ipc/service.py:289-497 | for a definition some validation accepted, the next stage's name alone decides |
| Counterexamples.RouterAndLedgerDisagree | src/omniclaw/ipc/service.py:303-338 | a definition stored as active and a file routed by it on which router and ledger disagree, while by the definition's other decision they agree |
| Router.DefinitionBlamedIff | src/omniclaw/ipc/service.py:246-382 | a definition the validator accepts is why a file is refused if and only if the file's stage or decision is in it only with blanks around, or its step leads to a stage missing under its stripped name or with a skill name that leaves the skills directory; a file that names no stage counts as naming the start stage |
| Router.NeverBlamedIff | src/omniclaw/forms/service.py:1205-1366 | a published definition is never why a file is refused, whatever the file, if and only if every stage's stripped name is a stage and every trimmed stage has trimmed decisions, none leading to a stage with an unsafe skill name |
| Counterexamples.AcceptedButNeverRouted | src/omniclaw/ipc/service.py:984-996 | a valid definition whose last stage names the skill ../s, and a file refused for it |
| Counterexamples.AcceptedButNeverStarted | src/omniclaw/ipc/service.py:906-915 | a valid definition whose start stage has a blank in front of its name: no new form of the type is ever routed |
| Router.AcceptedChangeIsWorkflowStep | src/omniclaw/forms/service.py:555-599 | whatever the ledger accepts is a step along an edge of the bound workflow and under its holder rule, by the holder, to an existing node |
| Router.StageHolderCheckIff | src/omniclaw/forms/service.py:563-570 | for stage graphs, every committed move was made by its holder, in all interleavings, if and only if no round passes through a stage that names a holder, with or without creations that have no holder |
| Routes.RoutedAsAsked | src/omniclaw/ipc/service.py:875-950 | a routed file is stepped from the stage it names, else the start stage, along the decision it names, on the active version of the type it names, the newer field before the legacy one |
| Routes.NewOrTakenUp | src/omniclaw/ipc/service.py:379-456 | a file without a form id starts a form at the start stage, by a permitted sender who then holds it, bound to the active version; one with an id moves that known form, at the file's stage and not held by anyone else |
| Routes.TypeRefusedIff | src/omniclaw/ipc/service.py:231-259 | a file is refused for having no type, or no active version of it, if and only if that is so |
| Routes.RefusalIsJustified | src/omniclaw/ipc/service.py:379-456 | a file is refused for its stage or decision, its form, the form's stage or holder, the start stage or the allowlist only for that reason |
| Routes.DeliveredEquipped | src/omniclaw/ipc/service.py:346-377 | nobody is handed a form, and none enters a stage that goes on, unless the stage's skill is named, safe and installed for the form's type |
| Routes.DeliveredToMeant | src/omniclaw/ipc/service.py:1007-1131 | a routed file goes to the one node its stage's target means: the stored starter before the one the file names before the sender, the id field before the name field, a fixed reference as it resolves, nobody for a none word; the ledger is told the starter |
| Routes.VariableIff | src/omniclaw/ipc/service.py:1105-1105 | a target is a variable exactly if it is an identifier in double braces |
| Routes.TransitionIff | src/omniclaw/forms/service.py:555-599 | the ledger commits a decision if and only if a known node not shut out by another holder makes it, on a form bound to a stored stage graph in which it describes one edge, and the edge's rule gives the form to a known node or to nobody; the change goes along that edge |
| Routes.RuleIsUsableIff | src/omniclaw/forms/service.py:795-833 | the workflow over which interleavings are studied has exactly the edges whose holder rule can be followed |
| Routes.AcceptedAllowlistPermits | src/omniclaw/forms/service.py:1499-1520 | an allowlist the validator accepts lets anyone in exactly with an `{{any}}` anywhere in it, and otherwise exactly the nodes its references mean |
| Routes.AcceptedAllowlistAdmits | src/omniclaw/forms/service.py:1499-1520 | and always lets somebody start a form |
| Routes.AcceptedTargetFound | src/omniclaw/forms/service.py:1254-1290 | an accepted target fails only for what a file says in its variable, and leaves nobody only at a terminal stage |
| Routes.AcceptedStartAndEnd | src/omniclaw/forms/service.py:1213-1240 | an accepted definition is of its type, begins at the stage it names, or the first one when it names none, and ends at a stage it names from which no decision leads on |
| Routes.LeftOnlyAtTheEnd | src/omniclaw/ipc/service.py:458-497 | on a published definition a routed form is left with nobody only where it ends |
| Routes.LoadsIff | src/omniclaw/ipc/service.py:895-925 | the router steps on exactly the graphs with stages, a start and an end, each named or else the first stage and the first terminal stage |
| Routes.EveryStageIsAlive | src/omniclaw/forms/service.py:1333-1354 | every stage of an accepted definition is the start or lies at the end of a walk of the ledger's workflow from it, so no stage is dead and no holder a target fixes is missing |
| Handover.HandedFormIsCurrentIff | src/omniclaw/ipc/service.py:565-602 | the text handed on leaves decision, target and starter open, and names the form's type, id and new stage if and only if these three, already trimmed, are clean: not quoted at an end and no block marker |
| Handover.NextHopIsNotStale | src/omniclaw/ipc/service.py:379-456 | so the holder who adds a decision to the file and queues it moves that form from the stage the ledger has it at, or is refused for another reason than stage, form or turn |
| Registry.FormRegistry.SetFormTypeLifecycle | src/omniclaw/db/repository.py:1005-1039 | sets one version's state and, when activating alone, demotes the other active versions of its type |
| Registry.FormRegistry.UpsertFormType | src/omniclaw/forms/service.py:349-398 | an invalid or undistributable definition cannot be stored active; otherwise it is stored normalised |
| Registry.FormRegistry.ValidateFormType | src/omniclaw/forms/service.py:400-423 | validation moves a version to validated or back to draft |
| Registry.FormRegistry.ActivateFormType | src/omniclaw/forms/service.py:425-463 | activates exactly existing, valid, distributable versions |
| Registry.FormRegistry.DeprecateFormType | src/omniclaw/forms/service.py:465-477 | marks an existing version deprecated and touches no other |
| Registry.FormRegistry.DeleteFormTypeDefinition | src/omniclaw/db/repository.py:1041-1053 | removes one version and says whether it existed |
| Registry.FormRegistry.EnsureBuiltinMessageFormType | src/omniclaw/db/repository.py:1065-1107 | installs the built-in message type only when no version of it exists |
| Registry.FormRegistry.SyncPackage | src/omniclaw/forms/service.py:86-186 | one workspace workflow: validated, stored if changed, activated, counted as synced only when nothing failed |
| Registry.FormRegistry.PruneMissing | src/omniclaw/forms/service.py:200-216 | the pruning loop keeps exactly what was synced or is referenced |
| Registry.FormRegistry.SyncWorkspaceFormTypes | src/omniclaw/forms/service.py:65-234 | the whole sync, package by package, then pruning |
| Registry.EveryRunIsSound | src/omniclaw/forms/service.py:349-463 | after any run of actions, each with the nodes and skills of its own time, each type has at most one active version, and what is active was accepted by validation when it became so |
| Registry.OneActiveVersion | src/omniclaw/db/repository.py:1005-1039 | after any run the registry determines which version of each type the router reads |
| Registry.SyncKeepsReferenced | src/omniclaw/forms/service.py:200-216 | a sync never deletes a definition a ledger form is bound to; a pruning one keeps nothing else it did not sync |
| Registry.RoutingAfterAnyRun | src/omniclaw/ipc/service.py:243-338 | after any run of registry actions, the built-in message type included, routing by an active definition agrees with the ledger exactly for trimmed next stages and unambiguous decisions; for all other types the second always holds |
| Publishing.ActivatePublishesIff | src/omniclaw/forms/service.py:425-463 | an activation makes a known, accepted, distributed version the only active one of its type and the one every reader of the registry steps files on, demotes the others to validated, and touches nothing else; otherwise it changes nothing |
| Publishing.UpsertPublishesIff | src/omniclaw/forms/service.py:349-398 | storing as active publishes likewise or stores nothing; storing otherwise normalises, records whether validation accepted, and leaves other versions alone |
| Publishing.StoredIsModern | src/omniclaw/forms/service.py:841-873 | every stored stage keeps its name, target and skill and has its decisions under one name: its own if they are an object, else the legacy ones |
| Publishing.CheckedIff | src/omniclaw/forms/service.py:400-423 | validation makes a version validated or a draft by its verdict and changes no other |
| Publishing.DeprecatedIsUnread | src/omniclaw/forms/service.py:465-477 | once its published version is deprecated, the router refuses every file of the type |
| Publishing.DeletedIsGone | src/omniclaw/db/repository.py:1041-1053 | likewise once it is deleted; every other version stays |
| Publishing.BuiltinIsPublished | src/omniclaw/db/repository.py:1065-1107 | the built-in message type is published exactly when no version of it existed |
| Publishing.CountedIff | src/omniclaw/forms/service.py:86-186 | a package counts as synced if and only if it is named and accepted, was saved if new or different, and, in an activating sync, is distributed and was activated; an unaccepted one changes nothing |
| Publishing.CountedIsDraft | src/omniclaw/forms/service.py:118-186 | a sync that does not activate stores what is new or different as a draft and leaves other versions alone |
| Publishing.SyncPublishes | src/omniclaw/forms/service.py:65-234 | what an activating sync counts as synced is what the router steps files on afterwards, pruned or not, unless a later package has its type |
| Publishing.StoredKeysArePlain | src/omniclaw/forms/service.py:1997-2000 | after any run every stored form type's key starts with a lower-case letter and has only such letters, digits and underscores |
| Frontmatter.RenderFrontmatter | src/omniclaw/ipc/service.py:1615-1636 | the printing loop yields the printed text |
| Frontmatter.ParseLines | src/omniclaw/ipc/service.py:1576-1611 | the parsing loop with its open block equals feeding the lines one by one |
| Frontmatter.ParseFrontmatter | src/omniclaw/ipc/service.py:1556-1613 | finding the delimiters and parsing between them |
| Frontmatter.ReadsBack | src/omniclaw/ipc/service.py:1556-1636 | parsing a printed dictionary returns its keys in order, each with its value stripped and unquoted as the parser does |
| Frontmatter.RoundTripIff | src/omniclaw/ipc/service.py:1556-1636 | it returns exactly the same pairs if and only if every value is clean: on one line without outer blanks or quotes and no block marker, on several without outer newlines |
| Frontmatter.LaterEntryWins | src/omniclaw/ipc/service.py:1576-1611 | whatever was parsed before, an entry gives its key its own value and leaves every other key alone |
| Frontmatter.BlockEntryReads | src/omniclaw/ipc/service.py:1576-1611 | each of the three block markers opens a block, and the lines below it without their indentation are the key's value |
| Frontmatter.RendersShown | src/omniclaw/ipc/service.py:1615-1633 | printing ignores outer blanks of keys and leaves out entries whose key is blank |
| Frontmatter.ParseErrorsIff | src/omniclaw/ipc/service.py:1556-1571 | a text is refused for its opening if and only if it does not start with the delimiter line, and for its closing if and only if it does and no later line is a delimiter |
| Frontmatter.ParsedIsPrintable | src/omniclaw/ipc/service.py:1556-1613 | whatever text the parser accepts, the dictionary it returns can be printed and parsed again, and the body has no line break but newlines |
| Frontmatter.BodyReturnsIff | src/omniclaw/ipc/service.py:1612-1635 | a non-empty body returns as one newline and itself without trailing newlines if and only if "\n" is its only line break |
| Frontmatter.HopsExist | src/omniclaw/ipc/service.py:1556-1636 | files with printable dictionaries are parsed at every hop |
| Frontmatter.HopsPrependIff | src/omniclaw/ipc/service.py:1612-1635 | n hops prepend exactly n newlines if and only if "\n" is the only break and, beyond one hop, the body is more than newlines |
| RoutingFiles.ResolveUniquePath | src/omniclaw/ipc/service.py:1670-1681 | the search ends within one more try than there are files, with an unused path in the same directory |
| RoutingFiles.RouterFiles.Copy | src/omniclaw/ipc/service.py:649-660 | delivery, archive and backup are written in turn and then the source removed, stopping at the first error |
| RoutingFiles.RouterFiles.RollbackRoutingFiles | src/omniclaw/ipc/service.py:1395-1418 | the copies are taken back and the archived file returned to the queue, each regardless of the others |
| RoutingFiles.RouterFiles.UndeliverSource | src/omniclaw/ipc/service.py:1440-1454 | a source still there is moved to an unused dead-letter path |
| RoutingFiles.RouterFiles.RouteSource | src/omniclaw/ipc/service.py:617-725 | one routing attempt under any pattern of I/O errors and transition outcomes |
| RoutingFiles.NothingOverwritten | src/omniclaw/ipc/service.py:617-725 | whatever goes wrong, no other file that was there is overwritten or removed |
| RoutingFiles.FormSurvivesIff | src/omniclaw/ipc/service.py:617-725 | wherever errors strike the form survives in queue, archive or dead letters, if and only if the archive copy has a path of its own |
| RoutingFiles.SeparateDirectoriesSuffice | src/omniclaw/ipc/service.py:617-647 | separate archive, inbox and backup directories give it one |
| RoutingFiles.BodySurvives | src/omniclaw/ipc/service.py:565-725 | for every form the parser accepts, what survives still parses to the form's body, if the fields the router assigns can be printed |
| RoutingFiles.RollbackRestores | src/omniclaw/ipc/service.py:1395-1418 | after a rollback without I/O error no inbox, archive or backup copy is left and the routed text is back in the queue |
| RoutingFiles.RefusedFormIsDeadLetter | src/omniclaw/ipc/service.py:700-725 | a refused form then ends in the dead letters with every other file as before |
| RoutingFiles.LeftBehindIff | src/omniclaw/ipc/service.py:649-673 | with the paths apart, an undelivered form leaves its inbox copy, or its backup copy, behind exactly after the listed errors: a copy step that failed later than it, or an undo that failed |
| RoutingFiles.RoutedIff | src/omniclaw/ipc/service.py:617-725 | an attempt ends as routed if and only if nothing failed and the ledger committed, in an exception if and only if a directory could not be made or the ledger crashed; routed, the inbox, archive and backup copies carry the routed text, the source is gone and nothing else has changed |
| RoutingFiles.UniquePathIs | src/omniclaw/ipc/service.py:1670-1681 | a taken name gets the least free number, in front of its suffix |
| FormIds.NormalizeValid | src/omniclaw/db/repository.py:1741-1752 | a normalised hint is a non-empty id over the alphabet, without double dashes, of at most 64 characters |
| FormIds.NormalizeKeeps | src/omniclaw/db/repository.py:1741-1752 | a hint keeps exactly its letters in lower case, digits, underscores and dashes, and its blanks as dashes, in order, and loses a `.md` or `.markdown` at its end, unless that leaves two dashes in a row or is too long |
| FormIds.NothingKept | src/omniclaw/db/repository.py:1747-1751 | a hint with none of these becomes "form" |
| FormIds.CandidateForm | src/omniclaw/db/repository.py:1736-1738 | a numbered candidate is the base, a dash and the number, cut at 64 characters |
| FormIds.NextAvailableFormId | src/omniclaw/db/repository.py:1725-1739 | the loop returns the first unused candidate, a valid id |
| FormIds.SearchIsShort | src/omniclaw/db/repository.py:1725-1739 | when the base with the needed number fits, the search ends within one more candidate than there are ids in use |
| FormIds.SearchEndsIff | src/omniclaw/db/repository.py:1725-1752 | for every hint, the search ends if and only if one of the first 10^(64 - length of the base) candidates is free |
| FormIds.FullLengthEndsIff | src/omniclaw/db/repository.py:1736-1752 | for a base of full length the search ends if and only if the base itself is free |
| FormIds.NearFullLengthEndsIff | src/omniclaw/db/repository.py:1736-1752 | one character shorter, if and only if the base or the base with a dash is free |
| RetryPolicy.NextResetIsNext | src/omniclaw/runtime/retry_policy.py:142-145 | the next reset is the first later instant at which the clock shows the reset time |
| RetryPolicy.BudgetDelayBounds | src/omniclaw/runtime/retry_policy.py:124-130 | a budget delay lies between 6 and 24 hours |
| RetryPolicy.BudgetDelayMonotone | src/omniclaw/runtime/retry_policy.py:124-130 | it never shrinks as attempts grow |
| RetryPolicy.GrantedIff | src/omniclaw/runtime/retry_policy.py:92-130 | a failure is granted another attempt exactly if it is not terminal and fewer than eight were counted, exactly its delay later: 60, 300, 900, 3600, then 21600 seconds for transient ones, 6, 12, then 24 hours or up to a further reset for budget ones |
| RetryPolicy.DelaysNeverShrink | src/omniclaw/runtime/retry_policy.py:101-130 | for either kind of failure |
| RetryPolicy.LandsOnResetIff | src/omniclaw/runtime/retry_policy.py:114-145 | the attempt lands on the reset or less than a second before it if and only if the reset is no nearer than the fallback delay |
| RetryPolicy.ChainTotal | src/omniclaw/runtime/retry_policy.py:80-122 | for any mix of failures, terminal ones leaving the count alone, at most eight retries are granted, totalling at most 8 days |
| RetryPolicy.ChainTotalReached | src/omniclaw/runtime/retry_policy.py:114-145 | the 8 days are reached |
| RetryScheduler.RetryStore.UpdateStatus | src/omniclaw/db/repository.py:702-732 | a status write sets what it is given and always overwrites the next attempt |
| RetryScheduler.RetryStore.ClaimAgentTaskRetry | src/omniclaw/db/repository.py:684-700 | claims exactly pending records |
| RetryScheduler.RetryStore.HandleFailedPromptInvocation | src/omniclaw/runtime/service.py:866-983 | an uninterrupted handler reads, writes and logs as the policy decides; a terminal failure only leaves an unlinked event |
| RetryScheduler.RetryStore.RetryTaskNow | src/omniclaw/runtime/service.py:743-765 | an operator's retry makes the record due now |
| RetryScheduler.RetryStore.CancelRetry | src/omniclaw/runtime/service.py:767-789 | an operator's cancellation |
| RetryScheduler.RetryStore.ProcessOne | src/omniclaw/runtime/service.py:796-861 | claim, retry and write-back of one due record |
| RetryScheduler.RetryStore.ProcessDueRetries | src/omniclaw/runtime/service.py:791-864 | a scheduler pass is a run of atomic steps, cut short by an exception, after which none of its keys is listed or being dealt with |
| RetryRuns.AttemptsAreCountedIff | src/omniclaw/runtime/service.py:885-929 | over every interleaving of failure handlers, passes and operators, a task's attempt count is the number of its failures, logged or written and about to be, if and only if no other write fell between a handler's read and its write |
| RetryRuns.GrantedIsChain | src/omniclaw/runtime/service.py:885-909 | in undisturbed runs the delays granted to a task are those of one chain of its failures, as many as the attempt count rose below eight, and the count never falls |
| RetryRuns.UninterruptedIsUndisturbed | src/omniclaw/runtime/service.py:885-929 | a handler that nothing interrupts overtakes none between its own read and write |
| RetryRuns.AtMostEightDeferrals | src/omniclaw/runtime/retry_policy.py:92-100 | in undisturbed runs at most eight retries are ever granted per task, totalling at most 8 days |
| RetryRuns.OverlappingHandlersAllDefer | src/omniclaw/runtime/service.py:885-909 | handlers of one task that all read before the first writes are all granted a retry, nine or any other number of them |
| RetryRuns.WrittenBackBetweenClaims | src/omniclaw/db/repository.py:684-700 | between two claims of a record it was written back to pending |
| RetryRuns.ScheduledIff | src/omniclaw/runtime/service.py:844-849 | a step keeps every pending record scheduled if and only if it is not the scheduler's write after a repeated deferral |
| RetryRuns.DeferredRetryIsForgotten | src/omniclaw/runtime/service.py:844-849 | such a record is never claimed again until the task fails anew or an operator asks for it |
| RetryRuns.AbortedRetryIsStranded | src/omniclaw/runtime/service.py:796-861 | an exception that ends a pass leaves the record claimed exactly when the invocation broke, failed terminally or counted as another task's; then it is never due again until the task fails anew or an operator acts |
| RetryRuns.RetryKeyIff | src/omniclaw/runtime/service.py:1069-1091 | a retry counts against its own record exactly when the session has a name |
| RetryRuns.KeyTextInjective | src/omniclaw/runtime/service.py:1069-1070 | tasks of nodes with generated ids have different task keys |
| RetryOutcomes.FailureIsRecorded | src/omniclaw/runtime/service.py:866-983 | an uninterrupted failure leaves in its task's record what went wrong, one attempt more, and a next attempt after its delay, or none after the eighth; a terminal one leaves every record alone; both are logged |
| RetryOutcomes.NotDueBeforeDelay | src/omniclaw/runtime/service.py:885-909 | over every interleaving a failed task is not due before its granted delay is over, unless it fails anew or an operator asks for it |
| RetryOutcomes.RetryEnds | src/omniclaw/runtime/service.py:796-842 | a claimed record whose node is gone, or with nothing to resume, is terminated with that reason; a success completes it; neither counts an attempt |
| RetryOutcomes.EveryDueIsListed | src/omniclaw/db/repository.py:670-682 | while a pass lists fewer than twenty records it lists every one that is due |
| RetryOutcomes.RetryNowIsDue | src/omniclaw/runtime/service.py:743-765 | an operator's retry makes a known task due from that instant on, as if never claimed or completed, and no other |
| RetryOutcomes.CancelledStaysIff | src/omniclaw/runtime/service.py:767-789 | a cancelled task is never due again until it fails anew or is asked for, and stays cancelled over every such run if and only if no pass was running it |

## Left out

- Web framework, database engine and migrations: only atomic transactions, unique keys, foreign keys and the version check are kept.
- Provider client, spending caps at the provider, gateways and subprocesses: an invocation is an outcome given as a parameter.
- Classifying a failure from its message: the failure class is a parameter.
- Parsing the configured reset time and clock reading: the reset time is given as hour and minute, or as none.
- The validators of the two older definition formats (node graphs and edge lists): which of those definitions are accepted is a parameter of the registry; the first of them uses the same worklist.
- Acknowledging a read message and recording a message delivery: they use the edge lookup and the ledger transaction modelled here.
- Projecting the two older definition formats to edges: the ledger's holder rules are all modelled, stage graphs project to three of them.
- `set_fields` in a ledger transition: the router's call leaves status and holder alone, and nothing else of the row is modelled.
- Which node names a skill or a definition could not be distributed to, and copying skill packages: distribution either works or does not.
- Real paths, permissions and file locks: a directory is a name, a file a text; writing the feedback message, a separate new file, is not modelled.
- Timestamps in a backup copy's name: the name is a parameter.
- Sorting of access lists and of reports, notification texts and prompts.
- Lower-casing of letters outside ASCII, and upper-casing to compare the legacy message type.
- Deleting nodes and the cascades that follow.
- BudgetEngine.Engine.UpdateNodeAllowance: the provider key a row must have and the provider's answer are not modelled; the step is what follows when both are in order.
- Forest.HierarchyStore.LinkManager: the order of an unknown node and an existing manager is kept, the relationship type is not modelled.
- BudgetEngine.Engine.SplitInflow: decimal columns are integers of their last digit, so overflow of a column's width is not modelled.
- RetryScheduler.RetryStore.HandleFailedPromptInvocation: the method runs uninterrupted; interleaved handlers are runs of its three steps (module RetryRuns).
- RetryScheduler.RetryStore.ProcessOne: likewise for a scheduler pass; its steps interleave with others only in runs.
- FormIds.NextAvailableFormId: requires that some candidate is free, because without one the loop of the source does not end; the lemmas beside it say when one is.
- Access.ListDescendants: requires that the actor is not its own descendant, because otherwise the loop of the source does not end (Forest.FiniteBelowIff).
- Router.RouterAndLedgerAgreeIff: the form is assumed bound to the definition the router stepped on, which the router does not check for a form that already exists.
