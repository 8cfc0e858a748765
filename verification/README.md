# RepoGauge in Dafny

RepoGauge turns commits into benchmark tasks, runs solvers on them and accounts for the results. This project models
the parts where a mistake would silently change a result, and proves what they are relied on for:

- **Judging** (`JudgeRows`, `JudgeBatches`, `JudgePool`, `JudgeAssembly`, `JudgeEvaluation`, `JudgeOrder`,
  `JudgeVerdicts`, `BatchMeaning`, with `MapMerge`): predictions are grouped into harness batches, the batches run in
  a thread pool and finish in any order, and their rows are merged into one list, two resolved slices and a summary.
  The pool is a transition system; the harness is an unknown function from a batch to a report, or an exception.
- **Image preparation** (`ImagePrep`): any number of solver threads, each with a program counter, share a lock
  registry and an image store. A schedule picks the thread that moves and whether its foreign call returns or raises.
- **Frontiers, cost floor, metrics** (`Frontier`, `CostFloor`, `Metrics`, `Percentiles`, `Groups`, `MetricsReport`,
  `MetricsOrder`, with `FrontierMeaning`, `CostMeaning`, `MetricsMeaning`): exact reals, a missing cost is infinite;
  attempts are grouped by any list of dimensions.
- **Patches** (`DiffBlocks`, `PatchExclusion`, `PatchNormalize`, `NormalizeResults`, `NormalizeMeaning`, `PatchText`,
  `SplitPatch`, `SplitMeaning`): diff text as header-led blocks, and trees as maps from path to content with a
  workspace class that is reset, patched, edited and staged in place.
- **Retries** (`RetryChain`, `RetryMeaning`, `RetryFamily`, `RetryResults`, `RunNames`, `FamilyMerge`): what a retry
  executes and how a family of runs is found by name and merged.
- **Diff judge** (`DiffJudge`, `JudgeReport`, `ScoreMeaning`): the rows file as a cache over any number of reruns, the
  weighted label, and the row per job that the report counts.
- **Dependency repair** (`ImportMarkdown`, `RepairPlan`, `RepairApply`, `RepairMeaning`): parsing the import markdown,
  planning by set difference, repairing an array of records in place.
- **Text canonicalization** (`Words`, `BlockText`, `BlockMeaning`).

`Text`, `Sorting` and `Wrappers` hold Python's string primitives, its stable sort, and `Option`/`Result`.

Loops that fill dictionaries or lists are methods with invariants, proved against a specification function or
predicate; the lemmas then speak about that function, and those of the `...Meaning` modules, `JudgeVerdicts` and
`Percentiles` say in terms of the inputs alone what it selects or computes. Unknown foreign functions (the harness,
the model, git, the shell-like header parser, file roles, path safety) are parameters, so the theorems hold for every
one of them. Six promises do not hold of the code as stated. Each has an input on which it fails and the exact
condition under which it holds, as a lemma with both directions:

- Completion order does not show in the final rows: iff no key of a prediction of a known instance is held by two
  batches (`JudgeOrder.OrderFreeIffHeldOnce`; for given batch results `JudgeOrder.OrderMattersOnlyOnConflict`; failing
  input `JudgeOrder.OrderCanMatter`).
- A budget winner is on the Pareto frontier: iff no row with the same rate and fewer resolved instances is at most as
  dear and slow and better in one of the two (`Frontier.WinnerIsParetoIff`; failing input
  `Frontier.WinnerCanBeDominated`).
- A rerun of the diff judge returns every scored row: iff the candidates that the file holds no scored row for have
  distinct pairs (`DiffJudge.RerunAlwaysKeepsIff`; failing input `DiffJudge.RerunCanLose`).
- Normalization of the leftover workspace keeps what the solver did: iff the HEAD it left agrees with base outside the
  excluded paths (`NormalizeResults.FallbackIsExact`; failing input `NormalizeResults.CommittedWorkIsLost`).
- Default retry names lead back to their base: iff the base holds no retry marker itself
  (`RunNames.DefaultNamesShareBase`; failing input `RunNames.RetryLosesItsBase`).
- A pruned repair is final: iff no extra edge is stored outside its issue's own record
  (`RepairApply.PruneReachesFixedPointIff`; failing input `RepairApply.StraySurvives`).

## Model

| member | source | states |
|---|---|---|
| `JudgeBatches.IterChunks` | repogauge/runner/judge.py:167-171 | chunking with the code's step (sizes below 1 act as 1) |
| `JudgeBatches.PrepareBatches` | repogauge/runner/judge.py:454-499 | the dictionary-driven loop yields the batches per key in first-appearance order and one skipped row per dataset row no prediction names |
| `JudgeBatches.BatchingIsPartition` | repogauge/runner/judge.py:454-499 | no batch is empty or larger than the batch size, the batches of a key join to that key's predictions in input order, and over all batches every known prediction occurs exactly as often as in the input |
| `BatchMeaning.BatchSizes` | repogauge/runner/judge.py:167-171 | batches are as large as asked, only the last of a key may be smaller; without a positive size each prediction is a batch of its own |
| `BatchMeaning.BatchIsUniform` | repogauge/runner/judge.py:221-228 | all predictions of a batch have its model, repository and version, unless one of these holds a bar |
| `BatchMeaning.KeysCanCollide` | repogauge/runner/judge.py:221-228 | with a bar in a name two environments can share a batch key |
| `BatchMeaning.ByIdMeans` | repogauge/runner/judge.py:460-464 | an instance is judged against the last dataset row with its id |
| `JudgeRows.ByInstance` | repogauge/runner/judge.py:798-884 | filling the dictionary list by list tabulates the verdict: unresolved overrides resolved, error and incomplete ids only fill gaps |
| `JudgeVerdicts.IdListVerdict` | repogauge/runner/judge.py:810-852 | from id lists: resolved iff listed as resolved and not as unresolved, unresolved iff listed so, an error iff only the error lists hold the id, else nothing |
| `JudgeVerdicts.RowListVerdict` | repogauge/runner/judge.py:853-884 | from a list of rows: the last row about the instance counts, with the status words the code knows in any case |
| `JudgeVerdicts.LowerMeans` | repogauge/runner/judge.py:735 | status words are lowered letter by letter |
| `JudgeRows.ParsedRows` | repogauge/runner/judge.py:886-916 | one row per dataset row carrying its instance's verdict, nothing when the report says nothing |
| `JudgeRows.AugmentInPlace` | repogauge/runner/judge.py:422-447 | rows changed in place: a row without solver takes that of the single prediction for its instance, all else untouched |
| `BatchMeaning.AugmentMeans` | repogauge/runner/judge.py:422-447 | what the solver fill-in does to one row, in terms of which prediction is the only one for its instance |
| `BatchMeaning.ParsedRowMeans` | repogauge/runner/judge.py:747-788 | the ids, version, reason and error message a row carries |
| `JudgeRows.RunBatch` | repogauge/runner/judge.py:502-569 | the rows of one batch, with an error row per dataset row when its report says nothing |
| `JudgePool.CompleteRunCollectsAll` | repogauge/runner/judge.py:1143-1181 | whatever the interleaving, a complete pool run fails iff some batch raises and otherwise has collected each batch exactly once |
| `JudgePool.RunsEnd` | repogauge/runner/judge.py:1143-1181 | no interleaving has more than three moves per batch |
| `JudgePool.RunsCanMove` | repogauge/runner/judge.py:1143-1181 | with at least one worker an incomplete run can always move |
| `MapMerge.OrderIrrelevantIff` | repogauge/runner/judge.py:1183-1197 | merging dictionaries gives the same result in every order iff no two of them disagree on a key |
| `JudgeAssembly.Merge` | repogauge/runner/judge.py:1183-1197 | the row-by-row merge by (solver, instance), later batches winning, each row marked with its batch |
| `JudgeAssembly.AssembleRows` | repogauge/runner/judge.py:1199-1234 | the final rows: one per prediction of a known instance in prediction order, then the skipped rows, then solver ids filled in |
| `JudgeVerdicts.EvaluationRows` | repogauge/runner/judge.py:1199-1234 | one row per prediction with ids and a known instance, in order and under its ids, then one skipped row per dataset row no prediction names; with neither, one error row per dataset row |
| `JudgeVerdicts.ResolvedRowsAreBacked` | repogauge/runner/judge.py:1143-1239 | for any dataset, predictions, batch size, reports and collection order, a resolved final row has a batch with its instance whose report calls it resolved |
| `JudgeAssembly.ResolvedSlices` | repogauge/runner/judge.py:182-218 | the resolved predictions and the dataset rows behind them, in prediction order |
| `JudgeAssembly.Summarize` | repogauge/runner/judge.py:1283-1309 | the counts, among them not_resolved computed by subtraction, each equal the number of rows with that status and add up to the total |
| `JudgeAssembly.SlicesLineUp` | repogauge/runner/judge.py:182-218 | for any predictions, dataset and batch results, the two resolved slices and the resolved rows are equally many and line up key by key |
| `JudgeEvaluation.CompletionOrderIrrelevant` | repogauge/runner/judge.py:1143-1239 | with distinct prediction keys and a dataset without solver or model names, every collection order of the batches gives the same final rows |
| `JudgeOrder.OrderMattersOnlyOnConflict` | repogauge/runner/judge.py:1183-1239 | for any dataset, predictions and batch results, the final rows are the same for every collection order iff no two batches return different rows under a key that a prediction of a known instance has |
| `JudgeOrder.OrderFreeIffHeldOnce` | repogauge/runner/judge.py:1143-1239 | for any dataset, predictions and batch size, with no hypotheses: order is irrelevant whatever the harness reports iff no such key is held by two batches |
| `JudgeOrder.NormalIsHeldOnce` | repogauge/runner/judge.py:454-499 | distinct prediction keys and a dataset without solver or model names meet that condition |
| `JudgeOrder.OrderCanMatter` | repogauge/runner/judge.py:1183-1239 | a concrete run whose final rows depend on order: two predictions of one solver for one instance, batches of one, one of them resolved |
| `JudgeEvaluation.EveryPredictionKeepsItsVerdict` | repogauge/runner/judge.py:1183-1239 | the final row under a prediction's key is what its own batch's report says about it, or the explicit no-result error |
| `JudgeVerdicts.PredictionStatus` | repogauge/runner/judge.py:1183-1239 | the status, flag and message of every prediction's final row: an error if its batch's report says nothing or its instance is not alone in the batch, else what the report says, unresolved if it says nothing about the instance |
| `JudgeEvaluation.RunsAgree` | repogauge/runner/judge.py:1143-1239 | any two complete pool runs, with any degrees of parallelism, both fail or both yield the same rows |
| `ImagePrep.OneLockPerKey` | repogauge/runner/container_exec.py:166-172 | in every reachable state threads wanting one key have one lock, threads wanting two keys two, and no two threads are inside one key's block |
| `ImagePrep.NeverTwoLocks` | repogauge/runner/container_exec.py:317-354 | no thread ever holds two image locks, and the thread inside the registry holds none |
| `ImagePrep.BuildsAreExclusive` | repogauge/runner/container_exec.py:317-354 | at most one successful build per key, none for a key already there, and an env build only after its base image exists |
| `ImagePrep.RunsAreBounded` | repogauge/runner/container_exec.py:286-361 | no schedule is longer than twelve moves per thread, whatever fails |
| `ImagePrep.NoDeadlock` | repogauge/runner/container_exec.py:286-361 | while a thread is unfinished, some thread can move |
| `ImagePrep.EveryRunEnds` | repogauge/runner/container_exec.py:286-361 | whatever raises, a run that cannot go on has ended for every thread: failed are exactly the threads one of whose own calls raised, the others are done and find both images, no lock is held, and the store holds the old images and those of the successful builds |
| `ImagePrep.CompleteRun` | repogauge/runner/container_exec.py:286-361 | if nothing raises, a run that cannot go on has served every thread, and the store holds exactly the old images and the requested ones |
| `ImagePrep.EnvKeyDeterminesBaseKey` | repogauge/runner/container_exec.py:644-653 | base and env keys never coincide, and an env key belongs to one base key |
| `ImagePrep.KeysEqualIff` | repogauge/runner/container_exec.py:644-653 | on one architecture base images are shared iff slugs and the first 12 digits agree, env images iff slugs and the first 22 do |
| `ImagePrep.LockRegistry.PrepLock` | repogauge/runner/container_exec.py:166-172 | the registered lock, or a fresh one registered under the key and nothing else changed |
| `ImagePrep.PrepLockIsRegistryStep` | repogauge/runner/container_exec.py:166-172 | calling the registry method is the registry step of the transition system: dictionary and returned lock are represented by the state after the step |
| `Frontier.DominanceIsStrictOrder` | repogauge/runner/analyze.py:515-536 | dominance is irreflexive, asymmetric and transitive, missing costs and latencies included |
| `Frontier.BuildPareto` | repogauge/runner/analyze.py:586-598 | the double loop selects the undominated rows and sorts them by cost |
| `Frontier.ParetoIsExact` | repogauge/runner/analyze.py:586-598 | a row is on the frontier iff it is listed and no listed row dominates it, as often as it is listed |
| `FrontierMeaning.ParetoMeans` | repogauge/runner/analyze.py:515-598 | a row is on the frontier iff it is listed and every row at least as good in rate, cost and latency has the same three figures |
| `FrontierMeaning.ParetoOrder` | repogauge/runner/analyze.py:506-512 | the frontier runs from cheap to dear, then by rate, latency and id |
| `Frontier.ParetoCovers` | repogauge/runner/analyze.py:586-598 | every row left out is dominated by a row on the frontier |
| `Frontier.ParetoNonEmpty` | repogauge/runner/analyze.py:586-598 | a non-empty list has a non-empty frontier |
| `Frontier.ParetoIdempotent` | repogauge/runner/analyze.py:586-598 | the frontier of a frontier is that frontier, order included |
| `Frontier.BuildBudgetFrontier` | repogauge/runner/analyze.py:539-583 | one sweep over cost buckets: budgets strictly increase, are exactly the eligible costs, and the winner at each is the ranking-least eligible row affordable there; the affordable ids are those of that cost only |
| `FrontierMeaning.WinnerMeans` | repogauge/runner/analyze.py:494-583 | the winner resolved something within the budget and ranks first among such rows by rate, resolved instances, cost, latency, total cost and id |
| `FrontierMeaning.BudgetMeans` | repogauge/runner/analyze.py:539-583 | budgets are exactly the known costs of rows that resolved something, and an entry lists exactly the solvers of its cost |
| `Frontier.RateNeverFalls` | repogauge/runner/analyze.py:539-583 | a bigger budget never has a lower winning resolution rate |
| `Frontier.WinnersAreDetermined` | repogauge/runner/analyze.py:495-583 | budgets and winners do not depend on the order of the rows |
| `Frontier.WinnerDominators` | repogauge/runner/analyze.py:495-536 | only a row that resolved strictly fewer instances can dominate a winner |
| `Frontier.WinnerIsParetoIff` | repogauge/runner/analyze.py:495-598 | a winner is on the Pareto frontier iff no row of its rate resolved fewer instances, is at most as dear and slow, and is better in one of the two |
| `Frontier.WinnersArePareto` | repogauge/runner/analyze.py:539-598 | with equal instance counts no row does that, so every winner is on the Pareto frontier |
| `Frontier.WinnerCanBeDominated` | repogauge/runner/analyze.py:495-536 | with unequal counts a winner can be dominated (10 of 20 at 5 against 1 of 2 at 1) |
| `CostFloor.CollectOffers` | repogauge/runner/analyze.py:722-765 | the loop's dictionaries hold, per instance and per solver and instance, a priced success that no other undercuts |
| `CostMeaning.CheapestMeans` | repogauge/runner/analyze.py:722-765 | an instance is priced iff it has a resolved attempt of a named solver at a positive cost, and its offer is the cheapest of these, then the fastest, then the smallest solver id |
| `CostFloor.BuildReport` | repogauge/runner/analyze.py:722-805 | the floor and, for exactly the listed solvers with a priced success, their spend figures |
| `CostMeaning.SolverRowMeans` | repogauge/runner/analyze.py:766-805 | spend, compatible spend, their difference, and the share that gives the difference back |
| `CostMeaning.ReportedIff` | repogauge/runner/analyze.py:766-805 | a solver is reported iff it is listed and has a success |
| `CostMeaning.OwnSuccesses` | repogauge/runner/analyze.py:766-775 | a solver's own successes are just its successes among all |
| `CostFloor.FloorIsLeast` | repogauge/runner/analyze.py:722-765 | the floor is at most the total of every way to pick one priced success per solved instance, and is such a total itself |
| `CostFloor.SpendBounds` | repogauge/runner/analyze.py:766-805 | cheapest-compatible spend is at most the solver's own spend and the floor, so the clamp at zero changes nothing and the avoidable share is in [0, 1) |
| `CostFloor.OrderIrrelevant` | repogauge/runner/analyze.py:718-805 | the figures are the same for any two listings of the same attempts |
| `Groups.GroupRows` | repogauge/runner/analyze.py:3787-3796 | for any list of dimensions, each group holds exactly its rows in order; a row's key pairs each dimension with the row's own field, else its metadata, else "unknown" |
| `MetricsMeaning.GroupReads` | repogauge/runner/analyze.py:144-150 | each part of a key is the dimension with the row's own field, else its metadata, else "unknown" |
| `Groups.SameGroupIff` | repogauge/runner/analyze.py:144-150 | two rows share a group iff every dimension reads the same on both, so the default `("solver_id",)` keeps solvers apart |
| `Groups.GroupingConserves` | repogauge/runner/analyze.py:3787-3926 | for every list of dimensions and every measure of rows, the group totals add up to the overall total |
| `Groups.GroupByIrrelevant` | repogauge/runner/analyze.py:3787-3926 | any two choices of group_by give the same grand totals |
| `Groups.RollUp` | repogauge/runner/analyze.py:3787-3926 | grouping by further dimensions splits every group into groups whose totals add up to its own |
| `Metrics.TotalCostIsMeasure` | repogauge/runner/analyze.py:3814-3926 | the per-instance cost lists hold every counted cost once, so total cost is such a measure |
| `Metrics.ResolvedCostAtMostTotal` | repogauge/runner/analyze.py:3814-3926 | resolved cost is at most total cost |
| `Metrics.RatesAreOrdered` | repogauge/runner/analyze.py:3814-3926 | exclusive-expensive rate <= expensive coverage <= 1, resolution rate <= 1 |
| `Metrics.MarginalCost` | repogauge/runner/analyze.py:3814-3926 | the mean of the sorted differences is (max - min)/(n - 1); none below two values |
| `Metrics.Summarize` | repogauge/runner/analyze.py:3814-3956 | the accumulator loop yields, for one group, every figure of its summary: counts, rates, costs, the three token counts and tool calls, percentiles of its durations, and the averages per attempt and per resolved instance |
| `MetricsMeaning.InstancesMean` | repogauge/runner/analyze.py:3829-3852 | which instances count as seen, resolved and resolved at or above the threshold |
| `MetricsMeaning.LeastCostMeans` | repogauge/runner/analyze.py:3856-3862 | a resolved instance is charged the least positive cost of any of its attempts |
| `MetricsMeaning.ExclusiveMeans` | repogauge/runner/analyze.py:3874-3884 | an exclusive win: resolved at or above the threshold, and no attempt on the instance cost less |
| `MetricsMeaning.WhatCounts` | repogauge/runner/analyze.py:3829-3848 | what one attempt adds to each column; without an instance id nothing but itself |
| `MetricsMeaning.WhichColumn` | repogauge/runner/analyze.py:3925-3956 | each column of the report is the figure it is named after |
| `MetricsMeaning.DurationsAddUp` | repogauge/runner/analyze.py:3829-3848 | the durations percentiles are taken of add up to the total duration |
| `MetricsMeaning.AveragesGiveBack` | repogauge/runner/analyze.py:3889-3903 | averages per attempt times the attempts give back the totals |
| `MetricsMeaning.PerResolvedGiveBack` | repogauge/runner/analyze.py:3863-3911 | figures per resolved instance times these give back the totals, missing iff nothing is resolved |
| `MetricsMeaning.RatesGiveBack` | repogauge/runner/analyze.py:153-156 | rates times what they are taken over give back the counts |
| `Metrics.PercentilesAreOrderStatistics` | repogauge/runner/analyze.py:394-402 | percentiles are input elements and grow with the percentile, so p50 <= p95 |
| `Percentiles.RankIsNearest` | repogauge/runner/analyze.py:394-402 | the p-th percentile sits p hundredths of the way through the sorted values, to the nearest place |
| `Percentiles.PercentileSplits` | repogauge/runner/analyze.py:394-402 | at least p hundredths of the way lies at or below it, and at least 100 - p at or above |
| `Metrics.PercentileRange` | repogauge/runner/analyze.py:394-402 | they run from the least to the greatest value |
| `Metrics.PercentileIgnoresOrder` | repogauge/runner/analyze.py:394-402 | they do not depend on input order |
| `MetricsReport.SummarizeAttempts` | repogauge/runner/analyze.py:3799-3959 | exactly one summary per group, in increasing order of the group keys, each with the figures of exactly that group's rows |
| `MetricsReport.ReportConserves` | repogauge/runner/analyze.py:3799-3959 | for every group_by, each counting column of the report (attempts, durations, tokens, tool calls, costs) adds up to what all the rows together contribute |
| `MetricsOrder.ReportIgnoresOrder` | repogauge/runner/analyze.py:3799-3959 | the report is determined by the attempts and the dimensions: rearranging the attempts changes no group, no figure and not the order of the summaries |
| `MetricsReport.SummaryPercentiles` | repogauge/runner/analyze.py:394-402 | in every summary p50 <= p95, both are durations of counted attempts, and they are missing iff no instance is counted |
| `DiffBlocks.BlocksHoldLines` | repogauge/runner/normalize_patch.py:297-317 | the blocks each start with their only header and together hold every line from the first header on, in order |
| `DiffBlocks.HeaderMeans` | repogauge/export/split_patch.py:45-57 | a header is a line with the prefix, the bare prefix included, whose tokens can be read |
| `DiffBlocks.SelectionReadsBack` | repogauge/export/split_patch.py:101-171 | joining any selection of a text's blocks and parsing the result gives that selection back, even when the last line lacks its newline |
| `PatchExclusion.SplitPatchByFile` | repogauge/runner/normalize_patch.py:297-317 | the chunk loop yields the blocks of the text, each with its destination path |
| `PatchExclusion.ExcludePatchPaths` | repogauge/runner/normalize_patch.py:320-346 | kept text, removed text and touched paths; text without a removal is returned as it is |
| `PatchExclusion.ExclusionPartitions` | repogauge/runner/normalize_patch.py:320-346 | kept and removed text read back as the two order-preserving halves of the blocks, no kept destination excluded, every touched path reported once |
| `PatchExclusion.ExclusionMeans` | repogauge/runner/normalize_patch.py:297-346 | a file goes iff a given text, stripped, is its new path, or its old one if it is deleted; every such path is reported once |
| `PatchExclusion.ExcludeIdempotent` | repogauge/runner/normalize_patch.py:320-346 | removing again changes nothing |
| `PatchExclusion.ExcludeUnion` | repogauge/runner/normalize_patch.py:320-346 | removing E1 then E2 keeps the same text as removing their union, lines before the first header included |
| `PatchNormalize.ApplyDistinct` | repogauge/runner/normalize_patch.py:493-498 | a diff without repeated paths applies iff every old content is there, and then changes exactly its paths |
| `PatchNormalize.Attempt.Restore` | repogauge/runner/normalize_patch.py:501-515 | HEAD, working tree and index are back at base |
| `PatchNormalize.Attempt.FromWorkspaceState` | repogauge/runner/normalize_patch.py:546-580 | stages everything and returns the diff against HEAD, refusing empty, unsafe and binary ones |
| `PatchNormalize.Attempt.ApplyPatch` | repogauge/runner/normalize_patch.py:493-498 | all or nothing: the patched tree, or an error and the tree unchanged; a patch without changes is refused |
| `PatchNormalize.WriteMeans` | repogauge/runner/normalize_patch.py:480-490 | no error iff every file is safe and text; each path then holds its last listed content and all others their old one; with a refused file exactly the files before it are on disk and the error says why |
| `PatchNormalize.Attempt.WriteFiles` | repogauge/runner/normalize_patch.py:480-490 | files are written in place one by one up to the first refused one; `PatchNormalize.WriteMeans` says what that leaves |
| `PatchNormalize.Attempt.ExcludeWithheld` | repogauge/runner/normalize_patch.py:617-647 | the patch with benchmark-owned files removed, rebuilt on a restored workspace |
| `PatchNormalize.Attempt.NormalizeOutput` | repogauge/runner/normalize_patch.py:650-694 | result and final workspace of every branch: patch, failed patch, edit plan, leftover workspace, nothing |
| `NormalizeResults.DiffApplies` | repogauge/runner/normalize_patch.py:518-525 | taking a diff and applying it is the identity on trees |
| `NormalizeResults.NormalizedMeansSource` | repogauge/runner/normalize_patch.py:650-694 | the returned patch, applied to base, gives the chosen source's tree with every excluded path as in base; for an edit plan that tree is base with every listed path at its last content |
| `NormalizeResults.NormalizeSucceedsIff` | repogauge/runner/normalize_patch.py:650-694 | when a result is returned at all: the source differs from base and its diff is safe and free of binaries |
| `NormalizeMeaning.SnapshotMeans` | repogauge/runner/normalize_patch.py:546-580 | a snapshot is refused for an unsafe differing path first, then because nothing differs, then for a NUL before or after in a differing file |
| `NormalizeMeaning.ErrorMeans` | repogauge/runner/normalize_patch.py:650-694 | what is raised when neither the output nor the workspace as found can be used |
| `NormalizeMeaning.FallbackFailsIff` | repogauge/runner/normalize_patch.py:617-694 | the workspace as found cannot be used iff it changes an excluded path and a path that its HEAD does not hold as base does |
| `NormalizeMeaning.WorkspaceAfter` | repogauge/runner/normalize_patch.py:617-694 | after success from a patch or edit plan the workspace holds, staged on base, exactly what the returned patch says |
| `NormalizeResults.FallbackIsExact` | repogauge/runner/normalize_patch.py:650-694 | the leftover-workspace result means its source iff the HEAD the solver left agrees with base outside the excluded paths |
| `NormalizeResults.CommittedWorkIsLost` | repogauge/runner/normalize_patch.py:546-580 | a concrete workspace whose committed file is missing from the result |
| `NormalizeResults.LeftoversMatterIff` | repogauge/runner/normalize_patch.py:650-694 | what is left in the workspace is without influence iff the patch applies or an edit plan is used (or no path at all is safe); by the contract of `PatchNormalize.Attempt.NormalizeOutput` this is about the runs of the code on two workspaces |
| `NormalizeResults.NormalizedIsNormal` | repogauge/runner/normalize_patch.py:650-694 | normalizing a normalized patch in any workspace gives it back |
| `PatchText.ExclusionsAgree` | repogauge/runner/normalize_patch.py:617-647 | removing paths from the text of a diff is the same as removing changes from its change list |
| `SplitPatch.SplitDiffFiles` | repogauge/export/split_patch.py:101-171 | the line loop yields the blocks and the touched paths once each, or refuses iff some block renames across the test boundary |
| `SplitMeaning.DestinationMeans` | repogauge/export/split_patch.py:78-87 | a plain file goes by its new path, a deleted one by its old path, a renamed one by its last `rename to` line |
| `SplitMeaning.RefusedIff` | repogauge/export/split_patch.py:65-75 | a diff is refused iff a block renames a file from one side of the test boundary to the other |
| `SplitPatch.SplitProdAndTest` | repogauge/export/split_patch.py:174-216 | the bucketing loop fills exactly the production, test and excluded selections, their path lists and the list of all touched paths |
| `SplitMeaning.PartsByRole` | repogauge/export/split_patch.py:89-98 | documentation and generated files are in neither text, tests in the test text, support files there iff the diff holds a test, all else in the production text |
| `SplitMeaning.ListsMean` | repogauge/export/split_patch.py:174-216 | which paths each list names, support files last among the test files, and every path once among all |
| `SplitPatch.SplitIsLossless` | repogauge/export/split_patch.py:174-216 | the parts are order-preserving selections of the blocks and together hold every line from the first header on exactly once |
| `SplitPatch.ProdIsStable` | repogauge/export/split_patch.py:174-216 | splitting the production text gives itself, no test text and nothing excluded |
| `SplitPatch.TestIsStable` | repogauge/export/split_patch.py:174-216 | splitting the test text gives itself, no production text and nothing excluded, support files staying with the tests |
| `RetryChain.SeedRoundTrip` | repogauge/cli.py:664-670 | the seed comes back from the job id whatever colons the other parts hold |
| `RetryMeaning.SeedMeans` | repogauge/cli.py:664-670 | a job id has a seed iff something precedes its last colon and something but white space follows; the seed is that, stripped |
| `RetryChain.RowMatchesPlanIff` | repogauge/cli.py:691-743 | a job's row is read back under its planned key iff the planned ids have no outer whitespace |
| `RetryChain.LoadRetryFailureKeys` | repogauge/cli.py:691-743 | the keys whose last row has a retryable status or whose instance is unresolved for the solver; an error iff a row is defective |
| `RetryMeaning.FailureKeysMean` | repogauge/cli.py:673-743 | an error iff a row lacks a field or seed; else a key is taken over iff the last row about it has one of the four retryable statuses or a result for its instance and solver says unresolved, an explicit flag deciding before the status word |
| `RetryMeaning.OneKey` | repogauge/cli.py:691-743 | jobs, rows and attempts go by the same instance, solver and seed |
| `RetryChain.RetryExecutesFailures` | repogauge/cli.py:2919-2929 | along any chain run k+1 executes exactly the keys that failed in run k, and the failing set only shrinks |
| `RetryMeaning.RetryMeans` | repogauge/cli.py:2919-2929 | a retry executes a planned job, as often as planned, iff it needs it after the run before |
| `RetryChain.ExecutedHadFailed` | repogauge/cli.py:2919-2929 | whatever a run executes had failed in every earlier run |
| `RetryFamily.MergeArtifacts` | repogauge/cli.py:914-993 | the family merge with its branches: a single run passed on, runs without attempts skipped, rows overwritten run by run, instance results only if no merged run lacks them, an error for a defective row |
| `RetryFamily.ShortcutAgreesIff` | repogauge/cli.py:919-927 | passing a single run on is the same as merging it iff its rows all have keys and no two share one |
| `RetryResults.ResultsIff` | repogauge/cli.py:966-980 | results are written iff some run has attempts and every run that has them also has results |
| `RetryResults.MergedResultsMean` | repogauge/cli.py:949-958 | for every solver and instance the merged results hold exactly the last result of any run that names them |
| `RetryFamily.ChainArtifacts` | repogauge/cli.py:914-993 | merging a chain of retries never fails and writes both files: one row per planned key, in the order of the first run, each the last attempt of the last run that executed it |
| `RetryChain.MergeKeepsLastExecution` | repogauge/cli.py:937-948 | the family merge holds each key's last attempt of the last run that executed it |
| `RetryChain.SettledRowsAreFinal` | repogauge/cli.py:937-948 | the row of a key that did not fail is never overwritten, however many retries follow |
| `RetryChain.MergedOrder` | repogauge/cli.py:937-964 | retries add no key and move none: merged rows come in the order of the first run, under exactly the planned keys |
| `RetryChain.SettledResultsAreFinal` | repogauge/cli.py:949-958 | the merged result of a solver on an instance is final once none of its seeds failed |
| `RunNames.Discover` | repogauge/cli.py:881-902 | the family of a run: base and retry-named siblings, sorted base first and then by name; an error iff there is none |
| `RunNames.DiscoveryMeans` | repogauge/cli.py:881-902 | discovery lists the base and everything named after it as often as found, the base first and the rest by name |
| `RunNames.DefaultNamesShareBase` | repogauge/cli.py:874-878 | every default retry name leads back to its base iff the base holds no retry marker itself |
| `RunNames.RetryLosesItsBase` | repogauge/cli.py:874-878 | a concrete base name whose first retry does not lead back to it |
| `RunNames.NamedRetryLeadsBack` | repogauge/cli.py:874-878 | a retry named by hand after a clean base leads back to it |
| `RunNames.PlainNameIsBase` | repogauge/cli.py:874-878 | a name without a marker is its own base |
| `RunNames.DanglingMarker` | repogauge/cli.py:874-878 | a marker with nothing after its dash is part of the name |
| `RunNames.DefaultFamilyInRunOrder` | repogauge/cli.py:881-902 | from any run of an unbroken default family, discovery lists the runs in run order |
| `FamilyMerge.MergeFamily` | repogauge/cli.py:881-993 | discovery among the sibling directories followed by the merge: an error for an empty family, else the merged artefacts of its members in discovery order |
| `FamilyMerge.AnyMemberFindsTheChain` | repogauge/cli.py:881-902 | from any member of an unbroken default family, just the runs of the chain are merged, in run order, whatever else lies beside them |
| `FamilyMerge.AnyMemberMergesTheChain` | repogauge/cli.py:881-993 | from any member of such a family that holds a chain, merging succeeds and gives one row per planned key, each the last attempt of the last run that executed it |
| `DiffJudge.LoadExistingRows` | repogauge/runner/diff_judge.py:644-663 | the cache: scored rows by (attempt, cache key), the last winning, unreadable lines ignored; an error iff a readable row has metadata that is no object |
| `DiffJudge.LoadedContents` | repogauge/runner/diff_judge.py:644-663 | a pair is cached iff a scored row of the file carries it, and the cached row is such a row |
| `DiffJudge.WrittenContents` | repogauge/runner/diff_judge.py:666-679 | the file holds exactly the judged rows, ordered by instance, solver and attempt |
| `DiffJudge.RowsFile.Run` | repogauge/runner/diff_judge.py:932-1105 | rows, candidates asked about and the new file; a malformed stored row stops the run before any question, an unknown instance after the answers before it were paid for, and both leave the file alone |
| `ScoreMeaning.CandidatesMean` | repogauge/runner/diff_judge.py:956-958 | the candidates are the rows with a non-blank patch |
| `ScoreMeaning.JudgedMeans` | repogauge/runner/diff_judge.py:961-1097 | a candidate's row is the last stored scored row of its attempt and prompt, marked as a hit; without one it is new, under its own ids, and scored iff the answer could be read |
| `ScoreMeaning.MadeUpIdsDiffer` | repogauge/runner/diff_judge.py:971-973 | candidates without an attempt id get different ones |
| `DiffJudge.RerunKeepsScoredIff` | repogauge/runner/diff_judge.py:961-1097 | for given replies, a rerun returns every scored row unchanged but for its cache flag iff no two scored rows of one pair differ |
| `DiffJudge.RerunAlwaysKeepsIff` | repogauge/runner/diff_judge.py:961-1097 | for any file and candidates, this holds for all replies iff the candidates the file holds no scored row for have distinct pairs |
| `DiffJudge.RerunCanLose` | repogauge/runner/diff_judge.py:961-1097 | a concrete input that loses a row: two candidates of one attempt and prompt, an empty file |
| `DiffJudge.RerunAsksUnscored` | repogauge/runner/diff_judge.py:961-1097 | the model is asked again exactly for candidates whose pair has no scored row |
| `DiffJudge.ScoredForGood` | repogauge/runner/diff_judge.py:961-1097 | over any number of reruns with distinct pairs, a scored candidate keeps that row and is never asked about again |
| `DiffJudge.AllScoredIsFixed` | repogauge/runner/diff_judge.py:961-1097 | once all are scored no run makes a call, and rows and file no longer change |
| `JudgeReport.ParseDimensions` | repogauge/runner/diff_judge.py:302-317 | one delta per rubric dimension from the last item of its name, or nothing iff one is missing or unreadable |
| `JudgeReport.ScoreAnswer` | repogauge/runner/diff_judge.py:582-612 | an answer is scored iff every rubric dimension can be read; then deltas, weighted total and label belong together |
| `ScoreMeaning.ScoreMeans` | repogauge/runner/diff_judge.py:222-231 | each delta is read from the last item of its name, the total weighs them 30, 25, 20, 15 and 10, and the verdict changes at 0.35 and 1.25 either way |
| `JudgeReport.ScoreWithinDimensions` | repogauge/runner/diff_judge.py:582-612 | every scored answer is labelled within the range of its dimensions' deltas |
| `JudgeReport.LabelWithinDimensions` | repogauge/runner/diff_judge.py:222-231 | the overall label lies between the worst and the best dimension's |
| `JudgeReport.LabelMonotone` | repogauge/runner/diff_judge.py:222-231 | raising dimensions never lowers the label |
| `JudgeReport.LabelMirrors` | repogauge/runner/diff_judge.py:222-231 | negating every delta mirrors the label |
| `JudgeReport.LatestRowsByJob` | repogauge/runner/diff_judge.py:682-710 | per job the row with the greatest (attempt index, attempt id), the last such on ties; sorted by instance, solver and attempt id, ties in order of the jobs |
| `JudgeReport.LatestRowsContents` | repogauge/runner/diff_judge.py:682-710 | the sorted result holds each job once, with its latest row |
| `ScoreMeaning.LatestMeans` | repogauge/runner/diff_judge.py:682-710 | a selected row has the greatest attempt index of its job, then the greatest attempt id, and is the last of equals |
| `ScoreMeaning.LatestOrder` | repogauge/runner/diff_judge.py:703-710 | the selection is sorted by instance, then solver, then attempt id |
| `JudgeReport.LatestIgnoresOrder` | repogauge/runner/diff_judge.py:682-710 | when no job has two different rows under one attempt id, the selected rows do not depend on row order; the list does not either when no two different rows share instance, solver and attempt id |
| `ImportMarkdown.Parse` | scripts/repair_imported_bead_dependencies.py:37-73 | the nested index loops compute the recursive reading of the lines and always end |
| `ImportMarkdown.FailsIff` | scripts/repair_imported_bead_dependencies.py:37-73 | parsing fails iff some section has no id line before the next heading |
| `ImportMarkdown.ParseRenderRoundTrip` | scripts/repair_imported_bead_dependencies.py:37-73 | issues with distinct ids and stripped fields come back, in order and nothing else, from any rendering with filler and blank lines between their parts |
| `ImportMarkdown.FileReadsBack` | scripts/repair_imported_bead_dependencies.py:37-38 | writing one-line lines to text and splitting it gives the same lines |
| `ImportMarkdown.ChompMeans` | scripts/repair_imported_bead_dependencies.py:37-38 | a line loses an LF, CRLF or CR terminator and nothing else |
| `RepairPlan.MapOldIdsToNewIds` | scripts/repair_imported_bead_dependencies.py:84-111 | a mapping iff every imported title is the title of exactly one record |
| `RepairPlan.CollectCurrentEdges` | scripts/repair_imported_bead_dependencies.py:114-119 | the edges some record stores |
| `RepairPlan.BuildRepairPlan` | scripts/repair_imported_bead_dependencies.py:122-150 | a plan iff titles are unique and dependencies imported; missing and extra are the sorted listings of the two set differences |
| `RepairMeaning.PlanMeans` | scripts/repair_imported_bead_dependencies.py:122-150 | missing is what the markdown wants and no record stores; extra is what some record stores between imported issues and the markdown does not want |
| `RepairMeaning.PlanOrder` | scripts/repair_imported_bead_dependencies.py:145-150 | both lists are sorted by issue, then by dependency, without repetition |
| `RepairPlan.PlanIsUnique` | scripts/repair_imported_bead_dependencies.py:122-150 | that description determines the plan |
| `RepairApply.ApplyRepairPlan` | scripts/repair_imported_bead_dependencies.py:167-202 | the array after both loops, each edge going to the last record with its issue's id |
| `RepairMeaning.WithDepMeans` | scripts/repair_imported_bead_dependencies.py:176-187 | adding keeps a record that has the edge and else adds one stamped entry, entries then sorted by dependency and date |
| `RepairMeaning.WithoutDepMeans` | scripts/repair_imported_bead_dependencies.py:189-200 | removing takes just the edge's entries and drops an emptied list |
| `RepairApply.PlansAreOwned` | scripts/repair_imported_bead_dependencies.py:167-202 | applying a plan to the records it was made for never misses a record |
| `RepairApply.OtherEdgesUntouched` | scripts/repair_imported_bead_dependencies.py:167-202 | edges outside the plan stay in exactly the records that store them |
| `RepairApply.OtherDepsKept` | scripts/repair_imported_bead_dependencies.py:167-202 | entries of other edges survive as they are, each as often as before |
| `RepairApply.Replanned` | scripts/repair_imported_bead_dependencies.py:122-202 | replanning finds nothing missing; without pruning the same extra edges; with pruning exactly those stored outside their issue's own record |
| `RepairApply.RepairReplans` | scripts/repair_imported_bead_dependencies.py:122-202 | repaired records can always be planned for again, and that plan is as just described |
| `RepairApply.PruneReachesFixedPointIff` | scripts/repair_imported_bead_dependencies.py:122-202 | a pruned repair is final iff no extra edge is stored outside the record its issue's id leads to |
| `RepairApply.StraySurvives` | scripts/repair_imported_bead_dependencies.py:122-202 | two records and a pruned repair after which the same plan comes up again |
| `RepairApply.PrunedEdgesAreExpected` | scripts/repair_imported_bead_dependencies.py:167-202 | with unique ids and dependencies under their own issue, the edges inside the imported set are exactly the expected ones |
| `RepairApply.SecondRepairIsIdle` | scripts/repair_imported_bead_dependencies.py:122-202 | then a second repair changes nothing at all |
| `BlockText.TidyIsNormal` | repogauge/mining/synthesize.py:16-19 | one-line normalization: single-spaced, same words, exactly the single-spaced texts unchanged |
| `BlockText.CoerceBlockText` | repogauge/mining/synthesize.py:22-37 | the line loop with its pending blank computes the block normalization |
| `BlockText.BlockIsNormal` | repogauge/mining/synthesize.py:22-37 | the result is in normal form and keeps exactly the input's words, for any mix of CR, LF and CRLF |
| `BlockText.BlockFixedIff` | repogauge/mining/synthesize.py:22-37 | a text is left unchanged iff it is normal |
| `BlockText.BlockIdempotent` | repogauge/mining/synthesize.py:22-37 | normalizing twice is normalizing once |
| `BlockMeaning.ParagraphsKept` | repogauge/mining/synthesize.py:22-37 | the paragraphs come through, each with its lines in order, tidied; only blank lines come and go |
| `BlockMeaning.LineEndingsAgree` | repogauge/mining/synthesize.py:28 | the same text with LF, CRLF or CR line endings has the same block |
| `BlockText.UniquePreserve` | repogauge/mining/synthesize.py:57-66 | the loop with its seen set lists the first of each tidied text |
| `BlockText.FirstsInOrder` | repogauge/mining/synthesize.py:57-66 | every non-empty tidied text occurs once, in order of first appearance, and nothing else |

## Left out

- JudgeRows.RunBatch: does not model failure reasons read from log files (repogauge/runner/judge.py:343-393), nor the
  `harness_output` metadata, as both depend on files the harness leaves behind; they change no status, solver or
  instance.
- JudgeAssembly.Summarize: does not model `resolve_rate`, the quotient of two of its counts rounded to three places.
- CostFloor.BuildReport: does not model the average per resolved issue, the instance savings and the final sort, which
  are quotients, differences and an ordering of the figures it does model.
- The official harness, Docker and Podman, git, subprocesses, HTTP and the judging model: fixed unknown functions of
  what is passed to them, or abstract tree operations.
- Working-directory changes of concurrent harness calls: a batch's report is taken to depend on the batch alone.
- `join_attempt_rows` and the best-solver routing gap (repogauge/runner/analyze.py): lookups
  and further differences of figures already bounded here.
- Float rounding, NaN and `round(..., 6)`: exact reals, or hundredths for the diff judge.
- Aliasing of result-row dictionaries: two predictions with one key share a dictionary in the code and get equal rows
  here. The concurrent image store and lock ownership are values inside a transition system; only the registry is a
  class.
- Text coercion of raw fields (`str(...)`, `strip`): done once when a row is read, as in the code's own accessors.
- Renames, `.gitignore` rules, the AGENTS override file, external diff tools and partial application in patch
  normalization: a diff is a list of whole-file changes that applies as a whole.
- Path safety, header tokenizing, file roles and the attempt index: unknown total functions; the binary check is a NUL
  in the content.
- Extracting patches and edit plans from model output, the JSON text of rows, progress bars and report writers.
- `_write_rows` and `_read_jsonl` as JSON: a written row is read back as the same value.
- Jobs that leave no row: a run of a retry chain is taken to leave a row and an attempt for each executed job.
- The counts and paths in the metadata of a family merge (repogauge/cli.py:983-993).
- The planner, scheduler, router and workspaces: jobs and their keys are given.
- Chronological order of hand-chosen retry names: the code sorts them as text.
- Regular-expression corner cases with line breaks in directory names.
