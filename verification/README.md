# Verified models of greppy's release and benchmark tooling

This project models the Python programs around greppy that decide things: which benchmark
candidates are taken, whether a candidate run passes its gate, what a latency report may conclude,
whether a signed driver is the driver that was built, whether a software bill of materials describes
the release it ships with. Each module states what its program promises and proves it for all inputs,
all runs or all reachable states. `dafny verify dfyconfig.toml` checks everything.

## What is modelled

- **Benchmark runs.** `RetryLoop` (one arm with two retry budgets), `CheckpointStore` (rows in memory
  and in the file, for one caller), `CheckpointProtocol` (worker threads that record preflights and
  add finished rows to shared state under one lock, as a state machine over the steps of every worker
  and the two files of every checkpoint), `PreflightRecords` (which preflights reach the manifest, over
  whole runs and over runs that are interrupted and resumed), `ShardMerge` (modulo shards and the
  merge of their outputs), `MergeMeaning` (which shards merge, place by place), `BenchmarkRuns` (finished
  executions of shards against one unsharded execution), `BenchmarkResults` and `RegressionGate` (the
  grade and its one-sided binomial alarm), `GateMeaning` (the grade in terms of tasks, arms and their
  measurements), `GreedySelection` (the capped greedy choice of hard candidates), `SelectionMeaning`
  (the order, the caps and the reserve of a selection).
- **Latency statistics.** `Binomials` (binomial coefficients against an explicit list of all sign
  vectors), `SignFlipTest` (the exact paired randomization test), `MedianInterval` (the
  order-statistic interval for the median), `LatencyReport` (both programs that combine them),
  `LatencyConclusions` (what a report's fields and conclusions say about the ratios).
- **Process measurement.** `ProcessSampler` (the tracked process family over whole runs),
  `OwnedGroup` (acquiring and closing a kernel group), `FamilyCustody` (exclusive custody of a family).
- **Driver contract.** `PeCanonical` (parsing a PE image, its canonical bytes, signing it), `PeFormat`
  (acceptance and canonical bytes in offsets, and the offsets from the fields of the PE format) and
  `PeBinding` (what an accepted pair of build and signed driver have in common).
- **Bill of materials.** `Spdx` and `SbomFiles` (augmenting an SPDX document and verifying it),
  `SbomMeaning` (what an accepted document says about each entry, file and package).
- **Task data.** `JsonPointer` and `SchemaValidator` (local references and schema validation),
  `SchemaKeywords` (what each keyword asks by itself), `SchemaStandard` (the validator against JSON
  Schema Draft 2020-12), `AppendLog` and `AppendRuns` (a
  line log that survives torn appends, and whole runs of it), `HunkParser` and `HunkBreaks` (changed
  lines of a diff, and lines that hold separators).
- **Shared.** `Sorting` (stable sort), `KeyedLists` (lists of entries with identifiers), `Bytes`,
  `Wrappers`.

Code that changes things in place is a method or a class here, proved against a function of its
inputs or old state; what the program promises is then proved about that function, and what the
function computes is stated again in terms of its inputs alone, with the program's literals written out.

## Modelling choices

- Floating-point numbers are exact reals. `math.log` is a parameter, of which only
  log(1/x) = -log(x) and its domain are used. The 1e-12 tolerance and rounding to six decimals are
  kept.
- Digests are parameters; where a result needs it they are assumed injective. The JSON codec of the
  append log is a parameter that satisfies the guarantees `json.dumps` and `json.loads` give
  (`AppendLog.Sound`); `SoundCodecExists` shows they can be met. Python's regular expressions of
  schemas are a parameter.
- The process table, the readings of one process, the outcomes of system calls, the clock's sleeps
  and the results of one benchmark attempt are inputs. The worklist of the sampler may be taken in
  any order.
- In the bill of materials an absent field reads as its empty value, and the fixed wording of
  comments and license fields is a parameter (`Wording`), so the results hold for every wording.
  Only the target and the words "do not assert" are read back.
- A benchmark row is its key, its measurements or its failure. The file holds the rows sorted by task
  and arm, whatever the order of completion (`FileOrderFree`), which grading does not see
  (`ByKeyOrderFree`).
- The standard's reading of a schema covers the keywords the validator reads, as Draft 2020-12
  defines them. Keyword values the standard gives no meaning to are read as the code reads them.
  Percent-decoding, ECMA-262 regular expressions and references that are no JSON Pointer into the
  document are parameters.
- Schemas range over families that are closed under references, properties and items, are
  well-typed for the keywords the validator reads, and have no cycle of references alone.
- Hunk headers use ASCII digits.

## Where the code and its description differ

The model follows the code. Each difference is stated as a concrete case or an exact condition.

- The cost gate registers 0.80 but rounds first, so it admits ratios up to 0.8000005 (`EfficiencyIff`).
- The regression alarm of the gate can never decide it (`GatePassesIff`).
- A request for one candidate selects none, the cap per type being half the count rounded down
  (`EmptySelectionIff`).
- Canonical bytes survive signing only if the padding and the NULs the image already ends in number
  at most seven together (`SigningInvariantIff`, `PaddingShows`).
- The driver contract promises that the signed driver is the unsigned build. `pe_identity` bounds the
  certificate table but not its position, and compares files with the table cut out. A table may
  start in front of the security entry and cover or shift header bytes (`HiddenHeaders`,
  `ShiftedEntry`): for every header offset past the DOS header, both magics and every table offset,
  headers and the file without its table are bound if and only if the table does not start in front
  of the security entry (`ContractBindsIff`). A table may also stand inside the image: any bytes
  inserted anywhere behind the entry and declared as the table are accepted, and everything behind
  them moves (`InsertedTableAccepted`). For every build and every table offset behind the entry, all
  accepted drivers hold the build in place if and only if the table starts at or past the end of the
  build (`InPlaceIff`).
- A task whose clone or preflight raises gets failure rows but no preflight, is not pending again, and
  makes the merge refuse its shard, while the unsharded run is graded (`RaisingExecution`). Finished
  shards merge if and only if every task's preflight was in a resumed manifest or the task was pending
  and nothing raised (`ShardedBenchmark`).
- A checkpoint writes rows first and the manifest second. Interrupted in between, it can leave rows
  whose preflight is lost, for good where one arm is selected (`TornRun`, `TornForGood`). Without such
  an interruption and without a raise every preflight is kept through any number of resumptions
  (`CleanHistoryPrepares`).
- Exchanging candidate and control inverts the reported median only for an odd number of pairs or
  equal middle ratios (`MedianReciprocalIff`, `MedianNotInverted`); the two latency programs agree on everything only for six to
  twenty pairs (`ImplementationsAgree`).
- A log whose last object lost only its newline is kept as it is, and the next append destroys both
  rows (`AppendWithoutNewline`, `AppendAfterRepairIff`); over whole runs this and a tear inside a
  character are the only ways to lose a complete row (`RunKeepsRowsIff`).
- Inserted lines that start in ++ are taken for file headers (`ParserInvertsPrinterIff`), and a line
  that holds a form feed or another separator is read part by part (`FormFeedCountsTwice`);
  `FaithfulIff` says exactly which lines are read right.
- A constructor of the kernel group that raises can leave the memory controller on or a directory
  behind (`FailedAcquireRestoresIff`).
- A custody closed with unreaped children leaves the subreaper setting on
  (`RefusedCloseLeavesSetting`, `SettingRestoredIff`).
- The validator says it follows a subset of Draft 2020-12. A constant 1 admits `true`, and 1 and 1.0
  are unique items (`ConstantAdmitsTrue`, `UniqueItemsSeparatesNumbers`). 1800.0 is no integer
  (`WholeFloatRefused`), a list of types admits nothing (`TypeListRefused`), what stands beside a
  reference and a schema of additional properties are ignored (`KeywordsBesideReferenceIgnored`,
  `AdditionalSchemaIgnored`), the reference # is refused (`RootReferenceRefused`), and percent-encoded
  names are taken literally (`EncodedReferenceMisread`). `ConstIff`, `EnumIff`, `TypeIff`, `UniqueIff`
  and `AdditionalIff` are exact for one keyword, `SoundIff`, `CompleteIff` and `CodeMeetsStandardIff`
  for whole schemas.
- A document accepted for a release pins down its files but not its lock (`AcceptedFilesUnique`,
  `DroppedDependencyAccepted`, `AcceptedLockIff`).
- A shard that resumes rows of an arm that is not selected finishes and then fails its own coverage
  test (`CoverageIff`).

## Model

| member | source | states |
|---|---|---|
| GreedySelection.Select | bench/agent_coding/select_hard.py:151-169 | The loop with its two counters and commit set returns exactly the rows a greedy scan by the three constraints keeps, stopping at the count. |
| GreedySelection.SelectHard | bench/agent_coding/select_hard.py:149-174 | Sorts, selects and lists the reserve, as `SelectionOf` does, of which the `SelectionMeaning` rows say the order, the caps and the contents; refused exactly when the selected rows have fewer different languages than asked for. |
| GreedySelection.ChosenFeasible | bench/agent_coding/select_hard.py:155-169 | Every prefix of the scan obeys the language cap, the type cap and distinct commits. |
| GreedySelection.PassedOverConflicts | bench/agent_coding/select_hard.py:156-169 | A candidate left out conflicts with candidates kept before it, unless the selection was full when it came up. |
| GreedySelection.FullClassesBound | bench/agent_coding/select_hard.py:160-163 | Full classes in the selection bound what one cap can block: no more than the selection itself. |
| GreedySelection.ThreeConstraintsBound | bench/agent_coding/select_hard.py:155-169 | A set within the constraints, all of whose members conflict with s, has at most three times the size of s. |
| GreedySelection.GreedyGuarantee | bench/agent_coding/select_hard.py:149-169 | With room left every candidate conflicts with the selection, and no set within the constraints is more than three times as large. |
| GreedySelection.FactorThreeIsReached | bench/agent_coding/select_hard.py:155-169 | Four candidates on which the factor three is attained. |
| GreedySelection.EmptySelectionIff | bench/agent_coding/select_hard.py:155-163 | The selection is empty if and only if there is no candidate or the count is one. |
| GreedySelection.ByScoreIsTotalPreorder | bench/agent_coding/select_hard.py:150-150 | The sort key orders any two candidates and is transitive. |
| GreedySelection.PassedOverRanksBehind | bench/agent_coding/select_hard.py:149-169 | A candidate passed over never ranks ahead of what was kept before it. |
| GreedySelection.ReserveComplete | bench/agent_coding/select_hard.py:171-172 | Selected and reserve rows account for all candidates if and only if no candidate left out shares an id with a selected one. |
| SelectionMeaning.SelectionDescends | bench/agent_coding/select_hard.py:149-172 | Along the selected rows and along the reserve scores never increase, preferred rows come first among equal scores, and among those ids ascend. |
| SelectionMeaning.FirstIsHardest | bench/agent_coding/select_hard.py:149-169 | With a count of two or more and a cap of one or more, the first selected row has the greatest score of all candidates. |
| SelectionMeaning.SelectionWithinCaps | bench/agent_coding/select_hard.py:155-169 | The selected rows are candidates, no more than asked for, at most the cap of a language and half the count of a type, all of different repositories or commits. |
| SelectionMeaning.LeftOutIsBlocked | bench/agent_coding/select_hard.py:156-169 | A candidate left out scores no higher than each row kept before it came up, and those rows are all that was asked for, or hold a full cap of its language or type, or its commit. |
| SelectionMeaning.ReserveMeans | bench/agent_coding/select_hard.py:171-172 | The reserve holds exactly the candidates whose id is no selected one. |
| RetryLoop.RunArmWithRetries | bench/agent_coding/run_benchmark.py:1518-1561 | The loop ends at the first attempt that does not draw on a budget, returning its row or raising; the final raise is unreachable; the sleeps are counted. |
| RetryLoop.EndingUnique | bench/agent_coding/run_benchmark.py:1518-1561 | The outcomes of the attempts determine the ending. |
| RetryLoop.RetriedSplit | bench/agent_coding/run_benchmark.py:1526-1560 | Among attempts that were all retried, provider and harness retries add up and each stays within its budget of four. |
| RetryLoop.SleptIsBackoff | bench/agent_coding/run_benchmark.py:1543-1558 | The time slept is the sum of the two arithmetic series of the retries. |
| RetryLoop.EndingMeaning | bench/agent_coding/run_benchmark.py:1518-1561 | At most nine attempts and ten minutes of sleep; valid and timed-out rows are never replayed; a returned flake or raised harness failure means its budget was spent. |
| RetryLoop.EndingIff | bench/agent_coding/run_benchmark.py:1518-1561 | The loop ends at an attempt if and only if every earlier one was a harness failure or an invalid row that reported an error without a time-out, at most four of each, and this one is a row that needs no retry or finds four provider errors before it, a harness failure after four others, or another failure. |
| RetryLoop.SleptMeans | bench/agent_coding/run_benchmark.py:1543-1558 | With p provider errors and h harness failures retried, the sleeps add up to 15 p (p + 1) + 15 h (h + 1) seconds. |
| RegressionGate.RegressionPIsTailShare | bench/agent_coding/run_benchmark.py:1564-1568 | The p-value is the share of all equally likely assignments that favour the baseline at least as much. |
| RegressionGate.Complement | bench/agent_coding/run_benchmark.py:1564-1568 | p(b, c) + p(c + 1, b - 1) = 1 for b >= 1. |
| RegressionGate.StrictlyDecreasing | bench/agent_coding/run_benchmark.py:1564-1568 | At a fixed total, one more baseline win lowers p. |
| RegressionGate.AtLeastHalfIff | bench/agent_coding/run_benchmark.py:1564-1568 | p is at least one half if and only if the baseline leads by at most one. |
| BenchmarkResults.ByKeyHolds | bench/agent_coding/run_benchmark.py:1576-1576 | Without repeated keys the dictionary of rows holds exactly the rows, each under its key. |
| BenchmarkResults.ByKeyOrderFree | bench/agent_coding/run_benchmark.py:1576-1576 | Lists of the same rows without repeated keys give the same dictionary in any order. |
| BenchmarkResults.GradeResults | bench/agent_coding/run_benchmark.py:1575-1652 | The loops over the tasks compute the grade of the key-to-row dictionary; the `GateMeaning` rows say every field of it by task and arm. |
| BenchmarkResults.PairsAndMissing | bench/agent_coding/run_benchmark.py:1577-1643 | Complete pairs and missing tasks add up to all tasks, and none is missing if and only if every task has a complete pair. |
| BenchmarkResults.EfficiencyIff | bench/agent_coding/run_benchmark.py:1611-1615 | The cost condition holds if and only if the baseline costs something and the candidate at most 0.8000005 times that. |
| BenchmarkResults.RereadIff | bench/agent_coding/run_benchmark.py:1617-1629 | The reread condition holds if and only if there are edits and at most one reread per ten of them. |
| BenchmarkResults.GatePassesIff | bench/agent_coding/run_benchmark.py:1591-1652 | The gate passes if and only if five plain conditions hold, the regression alarm not among them. |
| GateMeaning.CountsMean | bench/agent_coding/run_benchmark.py:1577-1643 | Complete pairs are the tasks with valid explorer and greppy-edit rows, solved pairs those both solve, baseline-only those explorer alone solves, candidate-only those greppy-edit alone solves; missing are the other tasks; the sample is large enough at 30 pairs and 20 solved. |
| GateMeaning.SumsMean | bench/agent_coding/run_benchmark.py:1594-1635 | The cost ratio is what greppy-edit cost over what explorer cost on the tasks both solve, rounded; edits and rereads are those of greppy-edit there; the navigation ratio is greppy over explorer on the tasks both of these solve. |
| GateMeaning.PassesMeans | bench/agent_coding/run_benchmark.py:1591-1652 | The gate passes if and only if every task is paired, there are 30 tasks and 20 solved pairs, the candidate alone solves no fewer than the baseline alone, explorer costs something and greppy-edit at most 0.8000005 of it, and there are edits with at most one reread per ten. |
| GateMeaning.RoundMeans | bench/agent_coding/run_benchmark.py:1571-1572 | Rounding gives a multiple of a millionth within half a millionth, the even one of two equally near. |
| ShardMerge.ShardSize | bench/agent_coding/run_benchmark.py:2111-2114 | How many tasks a modulo shard has. |
| ShardMerge.ShardAt | bench/agent_coding/run_benchmark.py:2111-2114 | Place j of shard i is task j * count + i: the split keeps the order and is disjoint. |
| ShardMerge.ShardCovers | bench/agent_coding/run_benchmark.py:2111-2114 | Every task is in the shard of its position modulo the count. |
| ShardMerge.ValidateResumeRows | bench/agent_coding/run_benchmark.py:1901-1919 | Accepted exactly when every key is expected and none repeats. Each error names what is wrong. |
| ShardMerge.Gather | bench/agent_coding/run_benchmark.py:2007-2043 | The loop over shard outputs succeeds exactly when identities agree and no preflight repeats, and concatenates rows and tasks. |
| ShardMerge.MergeShards | bench/agent_coding/run_benchmark.py:1980-2085 | Any missing, extra or duplicated task or (task, arm) key is refused; otherwise the result is the grade of all rows. Each error names a condition that fails. |
| MergeMeaning.MergeableIff | bench/agent_coding/run_benchmark.py:1980-2085 | Shards merge if and only if there is one, all name one identity, and together they hold, each in exactly one place and nothing else, a row of the result schema for every task and each of the three arms, an equal entry for every task and a preflight for every task. |
| ShardMerge.GatheredRuns | bench/agent_coding/run_benchmark.py:2007-2046 | Complete runs of disjoint parts gather to exactly the rows of the union, without repeats. |
| ShardMerge.GatheredPreflights | bench/agent_coding/run_benchmark.py:2029-2062 | The preflights of disjoint parts never collide, and cover all parts if and only if each part has all of its own. |
| ShardMerge.MergeRefinesWhole | bench/agent_coding/run_benchmark.py:1980-2085 | Complete runs of any partition in any order merge if and only if each recorded all its preflights, and their rows have the grade of one unsharded run. |
| ShardMerge.ShardsPartition | bench/agent_coding/run_benchmark.py:2111-2114 | The non-empty modulo shards, in any order, partition the tasks. |
| ShardMerge.ShardedEqualsUnsharded | bench/agent_coding/run_benchmark.py:1980-2114 | For any shard count, shards run to completion merge if and only if no preflight is missing, and grade like the unsharded run in any order. |
| CheckpointStore.AddNewKeeps | bench/agent_coding/run_benchmark.py:2182-2187 | Adding a batch keeps existing rows in place, keys distinct, and covers every key of either. |
| CheckpointStore.OrderedKeeps | bench/agent_coding/run_benchmark.py:1738-1738 | The file holds exactly the rows, sorted by task and arm, without repeated keys. |
| CheckpointStore.FileOrderFree | bench/agent_coding/run_benchmark.py:1738-1738 | The file does not depend on the order in which rows were completed. |
| CheckpointStore.FileOrderMeans | bench/agent_coding/run_benchmark.py:1738-1738 | In the file the rows of tasks registered earlier come first, and of one task explorer before greppy before greppy-edit. |
| CheckpointStore.Store.constructor | bench/agent_coding/run_benchmark.py:2155-2167 | A store starts with the rows of an earlier run, saved in order. |
| CheckpointStore.Store.CheckpointRows | bench/agent_coding/run_benchmark.py:2180-2194 | One call adds exactly the rows with new keys, in order, keeps rows and completed keys in agreement, and saves all rows sorted. |
| CheckpointProtocol.StartInv | bench/agent_coding/run_benchmark.py:2178-2278 | The invariant holds before any worker runs. |
| CheckpointProtocol.PendingMembers | bench/agent_coding/run_benchmark.py:2196-2200 | The jobs are exactly the tasks with a selected arm that has no row. |
| CheckpointProtocol.OthersLeaveShared | bench/agent_coding/run_benchmark.py:2180-2194 | A worker outside the lock changes no rows and nothing on disk. |
| CheckpointProtocol.StepKeepsInv | bench/agent_coding/run_benchmark.py:2178-2278 | Every step of every worker keeps the invariant. |
| CheckpointProtocol.LockedSectionIsAtomic | bench/agent_coding/run_benchmark.py:2180-2194 | Whatever others do in between, the locked section has the effect of one call, and leaves rows and manifest on disk up to date. |
| CheckpointProtocol.RunKeepsInv | bench/agent_coding/run_benchmark.py:2178-2278 | Every state of every interleaving has the invariant: rows and completed keys agree, at most one row per key. |
| CheckpointProtocol.RunKeepsDisk | bench/agent_coding/run_benchmark.py:1729-1751 | In every state the file holds the resumed rows and nothing but rows, and all of them outside the lock. |
| CheckpointProtocol.RunOnlyAppends | bench/agent_coding/run_benchmark.py:2178-2278 | No row is ever dropped, replaced or moved. |
| CheckpointProtocol.FinishedRun | bench/agent_coding/run_benchmark.py:2178-2278 | When all workers are done, every pending task has exactly one row per selected arm, whether run, failed or refused by its preflight, and the file holds all rows in order. |
| CheckpointProtocol.InterruptedRunResumes | bench/agent_coding/run_benchmark.py:2137-2168 | The last checkpoint of a run interrupted anywhere holds the resumed rows and no others than those in memory, passes the resume checks and starts a well-formed run. |
| CheckpointProtocol.Progress | bench/agent_coding/run_benchmark.py:1964-1977 | An unfinished run can always take a step, whether preparations raise or not. |
| CheckpointProtocol.RunsAreBounded | bench/agent_coding/run_benchmark.py:1964-1977 | Every interleaving ends within a bound fixed at its start. |
| CheckpointProtocol.WorkersBounded | bench/agent_coding/run_benchmark.py:1964-1977 | At most the configured number of workers is active. |
| PreflightRecords.RunKeepsRecord | bench/agent_coding/run_benchmark.py:2216-2219 | In every state a recorded preflight is in the manifest on disk or a checkpoint of its job lies ahead. |
| PreflightRecords.FinishedManifest | bench/agent_coding/run_benchmark.py:2216-2278 | A finished run leaves every recorded preflight in the manifest. |
| PreflightRecords.FinishedPreflights | bench/agent_coding/run_benchmark.py:2155-2278 | The manifest of a finished run has a task if and only if the resumed manifest had it, or the task was pending and neither its clone nor its preflight raised. |
| PreflightRecords.RaisingRun | bench/agent_coding/run_benchmark.py:2215-2278 | Every benchmark has a finished run with all rows that records no preflight. |
| PreflightRecords.RunBacked | bench/agent_coding/run_benchmark.py:2216-2278 | While nothing raises, every row in memory comes with its preflight. |
| PreflightRecords.RunBackedDisk | bench/agent_coding/run_benchmark.py:1729-1751 | And so does every row on disk, except between the two files of a checkpoint. |
| PreflightRecords.HistoryBacked | bench/agent_coding/run_benchmark.py:2137-2167 | Through any number of interruptions and resumptions the configuration is well formed, and rows come with their preflights as long as nothing raised or tore. |
| PreflightRecords.CleanHistoryPrepares | bench/agent_coding/run_benchmark.py:2137-2278 | If nothing raised and no checkpoint was torn in any call, the call that finishes leaves the preflight of every task. |
| PreflightRecords.TornRun | bench/agent_coding/run_benchmark.py:1749-1750 | Every benchmark with a pending task has a run in which nothing raises and whose interruption between the two files leaves a row without its preflight. |
| PreflightRecords.TornForGood | bench/agent_coding/run_benchmark.py:2196-2200 | Where one arm is selected, no continuation records that preflight. |
| BenchmarkRuns.FinishedCovers | bench/agent_coding/run_benchmark.py:2155-2278 | A finished execution leaves acceptable rows in the order of tasks and arms, the resumed ones among them, and one for every task and selected arm. |
| BenchmarkRuns.CoverageIff | bench/agent_coding/run_benchmark.py:2282-2287 | A finished shard passes its coverage test if and only if no resumed row is of an arm that was not selected. |
| BenchmarkRuns.FinishedIsComplete | bench/agent_coding/run_benchmark.py:2155-2278 | A finished execution of all arms is a complete run in the sense of the merge, whether or not anything raised. |
| BenchmarkRuns.PreflightsIff | bench/agent_coding/run_benchmark.py:2061-2062 | Its artifact holds all preflights if and only if every task is prepared. |
| BenchmarkRuns.ShardedBenchmark | bench/agent_coding/run_benchmark.py:1980-2278 | Modulo shards finished under any interleavings and resumptions merge in any order if and only if every task is prepared, and grade like a finished unsharded execution with the same results. |
| BenchmarkRuns.SavedGrade | bench/agent_coding/run_benchmark.py:2280-2280 | The grade of the rows in memory is that of the sorted file. |
| BenchmarkRuns.RaisingExecution | bench/agent_coding/run_benchmark.py:2061-2062 | Every benchmark with a task has an execution with all rows that the merge refuses. |
| Binomials.CombCountsFlips | bench/agent_coding/run_benchmark.py:1564-1568 | The binomial coefficient counts the sign vectors with k plus signs. |
| Binomials.CombSumCountsFlips | bench/analyze_web_comparison.py:86-90 | Sums of binomial coefficients count the sign vectors in a range. |
| SignFlipTest.CountTwisted | bench/analyze_web_comparison.py:80-85 | Multiplying by a sign vector permutes all sign vectors. |
| SignFlipTest.ExtremeCountEven | bench/analyze_web_comparison.py:80-85 | The number of extreme sign vectors is even and at least two. |
| SignFlipTest.NegationInvariant | bench/analyze_web_comparison.py:80-94 | Exchanging the sides of all pairs leaves count and p-value. |
| SignFlipTest.FlipsAre | bench/analyze_web_comparison.py:84-84 | The list of sign changes holds every vector of n signs exactly once. |
| SignFlipTest.PValueMeans | bench/analyze_web_comparison.py:80-94 | The p-value is the share of the 2^n sign changes whose signed sum or its opposite is, but for 1e-12, at least the observed sum and at least its opposite. |
| SignFlipTest.ExtremeCountFlipped | bench/analyze_web_comparison.py:80-85 | The test on flipped data counts the vectors reaching that flip's own statistic. |
| SignFlipTest.ExactTest | bench/analyze_web_comparison.py:80-94 | Under the sharp null a rule that rejects only p-values up to alpha rejects at most a share alpha. |
| MedianInterval.CoverageDecreasing | bench/analyze_web_comparison.py:89-90 | Coverage strictly decreases with the rank. |
| MedianInterval.CoverageIsShare | bench/analyze_web_comparison.py:89-90 | Coverage is the share of sign vectors with at least rank signs of each kind. |
| MedianInterval.CoverageNonNegative | bench/analyze_web_comparison.py:89-90 | Coverage stays within 0 and 1 over the scanned ranks. |
| MedianInterval.LastRankIsLargest | bench/analyze_web_comparison.py:89-93 | A scanned rank qualifies if and only if it is at most the one the loop keeps. |
| MedianInterval.RankExistsIff | bench/analyze_web_comparison.py:88-93 | Some rank qualifies if and only if there are at least six pairs. |
| MedianInterval.IntervalCoversIff | bench/analyze_web_comparison.py:86-93 | The interval lies around m if and only if enough observations lie on either side of m. |
| MedianInterval.CoverageExact | bench/analyze_web_comparison.py:86-93 | Over all reflections of a sample about m the interval lies around m for exactly the share the coverage names. |
| MedianInterval.OrderedMirrors | bench/analyze_web_comparison.py:86-86 | Sorting images under an order-reversing map mirrors the sorted sample. |
| LatencyReport.ScanRanks | bench/analyze_web_comparison.py:88-93 | The loop returns the interval and coverage of the largest qualifying rank. |
| LatencyReport.LatencyStatistics | bench/analyze_web_comparison.py:76-111 | The report, or a refusal of an empty, unbounded or non-positive series. |
| LatencyConclusions.ReportedIff | bench/analyze_web_comparison.py:78-79 | A report exists if and only if there are one to twenty ratios, all positive. |
| LatencyConclusions.ObservedMeans | bench/analyze_web_comparison.py:81-81 | The reported statistic is the sum of the logarithms or its opposite, whichever is not negative. |
| LatencyConclusions.ConclusionIff | bench/analyze_web_comparison.py:94-100 | Lower latency is reported if and only if p is at most 0.05, there are six pairs or more and fewer ratios than the rank are 1 or more; higher latency likewise with ratios that are 1 or less. |
| LatencyConclusions.ConclusionFollowsMedian | bench/analyze_web_comparison.py:94-102 | A report of lower latency has a median below 1, one of higher latency a median above 1. |
| LatencyReport.FewPairsInconclusive | bench/analyze_web_comparison.py:94-100 | Fewer than six pairs are always inconclusive. |
| LatencyReport.IntervalBracketsMedian | bench/analyze_web_comparison.py:86-102 | From six pairs on there is an interval, it brackets the median, and its coverage is between 0.95 and 1. |
| LatencyReport.ReportReciprocal | bench/analyze_web_comparison.py:76-111 | Exchanging candidate and control keeps p, coverage and statistic, inverts and reverses the interval, and exchanges the conclusions. |
| LatencyReport.MedianReciprocalIff | bench/analyze_web_comparison.py:102-103 | Exchanging candidate and control inverts the reported median if and only if there is one middle ratio or the two agree. |
| LatencyReport.MedianNotInverted | bench/analyze_web_comparison.py:102-103 | The ratios 1 and 2 are a case where it does not. |
| LatencyReport.ConclusionLevel | bench/analyze_web_comparison.py:80-100 | Over all exchanges of candidate and control within pairs, at most a share 0.05 makes the program report anything but an inconclusive result. |
| LatencyReport.ScanIndexes | bench/calibrate_web_meter.py:371-377 | The index loop of the second program in terms of the largest qualifying rank. |
| LatencyReport.PairedEffect | bench/calibrate_web_meter.py:361-382 | The second program's result, or its exception. |
| LatencyConclusions.ChangesMean | bench/calibrate_web_meter.py:361-382 | Every ratio is reported as its change in percent. |
| LatencyConclusions.SmallSamples | bench/calibrate_web_meter.py:371-377 | Below six pairs the second program reports the least and the greatest ratio, and the share of all sign changes but two. |
| LatencyReport.SamePValue | bench/calibrate_web_meter.py:361-368 | Adding the tolerance on the other side counts the same sign vectors. |
| LatencyReport.ImplementationsAgree | bench/calibrate_web_meter.py:361-382 | The two programs both return and agree on median and p-value if and only if the ratios are positive and number one to twenty, and on everything if and only if they number six to twenty. |
| LatencyReport.FormulasAgree | bench/calibrate_web_meter.py:361-382 | Median and p-value are the same, interval and coverage exactly from six pairs on, and below the second program reports less than 0.95. |
| PeCanonical.PeIdentity | tools/windows_driver_contract.py:42-96 | The identity of an accepted image, or the error of the first failed check. |
| PeCanonical.Canonicalise | tools/windows_driver_contract.py:75-85 | Zeroing two fields, deleting the table and popping NULs yields the canonical form. |
| PeCanonical.StripPadding | tools/windows_driver_contract.py:80-85 | The loop removes trailing NULs, at most seven. |
| PeCanonical.StripPaddingIff | tools/windows_driver_contract.py:80-85 | Padding disappears if and only if it and the NULs already there are at most seven. |
| PeFormat.AcceptedIff | tools/windows_driver_contract.py:42-73 | A file is accepted if and only if it starts with MZ, has PE and two NULs at the offset in 0x3C, its optional header lies within it with one of the two magics and room for the fifth directory, and its table is absent or lies within it and not at its start. |
| PeFormat.HeaderReads | tools/windows_driver_contract.py:42-73 | Machine, magic and table are the numbers at pe + 4, pe + 24 and the security entry, pe being the number at 0x3C. |
| PeFormat.FieldsAreAt | tools/windows_driver_contract.py:52-63 | The checksum at pe + 88 follows the fields of the PE format in front of it, and the security entry at pe + 168 or pe + 152 is the fifth directory behind all fields, for both header formats. |
| PeFormat.NumbersRead | tools/windows_driver_contract.py:46-68 | Two and four bytes are read with the lowest first. |
| PeFormat.CanonicalMeans | tools/windows_driver_contract.py:75-85 | Canonical bytes are the file without its table, with zeros at pe + 88 to pe + 91 and in the security entry, every other byte at its place, and without its last NULs, as many as there are up to seven. |
| PeFormat.CanonicalEqualIff | tools/windows_driver_contract.py:75-85 | Two accepted files of one length without a table have the same canonical bytes if and only if they agree outside the checksum at pe + 88 and the security entry. |
| PeFormat.ChecksumIgnored | tools/windows_driver_contract.py:75-85 | Changing only the four bytes at pe + 88 keeps a file accepted, with the same header and canonical bytes. |
| PeCanonical.SignedParses | tools/windows_driver_contract.py:42-73 | A signed image is accepted, with the same header and the appended table. |
| PeCanonical.SigningInvariantIff | tools/windows_driver_contract.py:62-85 | Signing keeps the canonical bytes if and only if p = 0 or k + p <= 7. |
| PeCanonical.SigningsAgree | tools/windows_driver_contract.py:62-85 | Two signings of one image with the same padding have the same canonical bytes. |
| PeCanonical.PaddingShows | tools/windows_driver_contract.py:80-85 | Seven bytes of padding after an image ending in a NUL change the canonical bytes. |
| PeCanonical.OddImageParses | tools/windows_driver_contract.py:42-73 | A concrete accepted image of odd length that ends in a NUL. |
| PeCanonical.HeadersAgree | tools/windows_driver_contract.py:42-73 | The bytes in front of the checksum determine the header. |
| PeCanonical.CanonicalSound | tools/windows_driver_contract.py:42-85 | Equal canonical bytes mean equal headers and payloads that differ only in checksum, security entry and at most seven trailing NULs, where no table starts in front of its security entry. |
| PeBinding.ContractBindsPayload | tools/windows_driver_contract.py:166-175 | An accepted contract binds headers and payload of a signed driver whose table does not start in front of its security entry. |
| PeBinding.HiddenHeaders | tools/windows_driver_contract.py:66-79 | For an accepted image and any bytes of its length that agree in front of an offset before the checksum, some accepted image has the headers of the first and the canonical bytes of the second. |
| PeBinding.ShiftedEntry | tools/windows_driver_contract.py:66-79 | A five-byte table between magic and entry moves a byte of the entry into the payload that is not zeroed. |
| PeBinding.ContractBindsIff | tools/windows_driver_contract.py:166-175 | With the table cut out, the contract binds all signed drivers with a given header offset, magic and table offset if and only if the table does not start in front of the security entry. |
| PeBinding.InsertedTableAccepted | tools/windows_driver_contract.py:66-79 | Any bytes inserted anywhere behind the security entry of a build and declared as the table leave the contract accepted. |
| PeBinding.InPlaceIff | tools/windows_driver_contract.py:166-175 | For every build and every table offset behind its entry, all accepted signed drivers hold the build in place if and only if the table starts at or past its end. |
| PeBinding.ContractAcceptsIff | tools/windows_driver_contract.py:166-175 | A signing of an x86-64 build is accepted if and only if its padding leaves no trace. |
| ProcessSampler.ProcessTreeMemorySampler.constructor | bench/process_memory.py:117-125 | A new sampler is in the initial state. |
| ProcessSampler.ProcessTreeMemorySampler.Create | bench/process_memory.py:117-126 | Creating registers the root, and raises exactly on an invalid PID where supported. |
| ProcessSampler.ProcessTreeMemorySampler.RegisterRoot | bench/process_memory.py:128-138 | Accepts a live process of the expected start time, marks failure for good otherwise, raises on an invalid PID without a change. |
| ProcessSampler.ProcessTreeMemorySampler.Sample | bench/process_memory.py:140-206 | One sample takes the state machine one step and reports the readable and unreadable processes, and the four totals exactly when complete. |
| ProcessSampler.ProcessTreeMemorySampler.Record | bench/process_memory.py:185-191 | The counters, the completeness flag and the peaks. |
| ProcessSampler.IndexChildren | bench/process_memory.py:152-154 | The index gives exactly the children of every process. |
| ProcessSampler.FollowChildren | bench/process_memory.py:155-165 | The worklist, in any order, tracks exactly the entries reachable from surviving processes. |
| ProcessSampler.Measure | bench/process_memory.py:166-184 | One pass in ascending order sums the four quantities over the readable processes and lists both kinds. |
| ProcessSampler.SumAny | bench/process_memory.py:172-184 | A sum over processes does not depend on their order. |
| ProcessSampler.TotalsMean | bench/process_memory.py:172-184 | The four totals add the proportional, resident, private and swapped memory of the processes that can be read, in any order. |
| ProcessSampler.ReadableMembers | bench/process_memory.py:172-184 | The two lists are ascending and hold exactly the readable and the unreadable processes. |
| ProcessSampler.RegistrationMeans | bench/process_memory.py:128-138 | A first registration of a live process of the expected start time tracks it alone; a missing process or another start time marks the sampler; an invalid PID changes nothing. |
| ProcessSampler.TrackedMeaning | bench/process_memory.py:155-165 | A survivor stays tracked after reparenting, a reused PID only as a descendant, a vanished one not at all. |
| ProcessSampler.PeakIsMaximum | bench/process_memory.py:185-191 | Over any run the PSS peak is the maximum over complete samples, absent exactly without one. |
| ProcessSampler.PrivatePeakIsMaximum | bench/process_memory.py:185-191 | The same of the private peak. |
| ProcessSampler.SamplesCounted | bench/process_memory.py:187-188 | Over any run the samples are the incomplete ones and those with a total. |
| ProcessSampler.FailureFreezes | bench/process_memory.py:128-191 | After a failed registration no sample is complete and the peaks never change. |
| ProcessSampler.StaysTracked | bench/process_memory.py:155-165 | A tracked process stays tracked through any run in which it lives. |
| OwnedGroup.OwnedKernelGroup.Acquire | bench/process_memory.py:218-258 | The constructor as a state change: refused without a change, or it prepares, and closes what it opened when that raises. |
| OwnedGroup.OwnedKernelGroup.Prepare | bench/process_memory.py:241-255 | Turning the controller on, creating the directory and examining it, up to the first failure. |
| OwnedGroup.OwnedKernelGroup.CloseGroup | bench/process_memory.py:309-323 | The close as a state change of group, controller and handle, for every failing system call. |
| OwnedGroup.CloseMeaning | bench/process_memory.py:263-323 | A close that returns removed exactly its own unpopulated, identity-checked group and left the controller as found; one that raises changed nothing but possibly its own group. |
| OwnedGroup.CloseIdempotent | bench/process_memory.py:309-323 | Closing again changes nothing and returns. |
| OwnedGroup.FailedAcquireRestoresIff | bench/process_memory.py:241-258 | Exactly when a constructor that raises leaves the parent as it found it. |
| OwnedGroup.LifeKeepsOwnership | bench/process_memory.py:218-323 | Through any closes, failing calls and foreign actions the handle keeps the acquired inode and name, removes at most one directory, and the controller ends as found. |
| OwnedGroup.CloseRemovesOwn | bench/process_memory.py:309-323 | Whatever happened before, a close removes nothing or the one unpopulated directory with the acquired name and inode, and only the first time. |
| OwnedGroup.CloseReturnsIff | bench/process_memory.py:309-323 | Exactly when a close returns, in terms of the acquired name and inode, the setting found, and what happened since. |
| OwnedGroup.RefusedCloseRetriesIff | bench/process_memory.py:309-323 | After a refusal for a foreign subgroup, and whatever others do then, the next close returns if and only if the monitor is alone. |
| FamilyCustody.ProcessFamilyCustody.constructor | bench/process_memory.py:30-40 | A custody records support and the previous setting. |
| FamilyCustody.ProcessFamilyCustody.Open | bench/process_memory.py:30-56 | Opening raises exactly while the lock is held; otherwise it takes the lock and sets the subreaper where supported. |
| FamilyCustody.ProcessFamilyCustody.Close | bench/process_memory.py:81-91 | Closing always ends the custody and frees the lock, and restores the setting unless it raises. |
| FamilyCustody.StepExclusive | bench/process_memory.py:30-91 | Every open and close keeps exclusiveness. |
| FamilyCustody.RunExclusive | bench/process_memory.py:30-91 | Over any sequence at most one custody is open, the lock is held exactly then, and the setting is on exactly if it was at first, a close was refused or a supported custody is open. |
| FamilyCustody.SettingRestoredIff | bench/process_memory.py:81-91 | When no custody is open, the setting is as found if and only if it was on at first or no close was refused. |
| FamilyCustody.RefusedCloseLeavesSetting | bench/process_memory.py:81-91 | An open and a refused close leave the setting on. |
| JsonPointer.UnescapeEscape | bench/agent_coding/build_tasks_v2.py:170-170 | Replacing ~1 before ~0 undoes the escaping of section 3 of RFC 6901. |
| JsonPointer.OrderMatters | bench/agent_coding/build_tasks_v2.py:170-170 | The other order reads the escaped form of "~1" as a slash. |
| JsonPointer.PointerRoundTrip | bench/agent_coding/build_tasks_v2.py:165-176 | Escaping, joining, splitting and unescaping gives back any non-empty token list. |
| JsonPointer.EscapeUnescapeIff | bench/agent_coding/build_tasks_v2.py:170-170 | Escaping undoes unescaping if and only if the part is a reference token of RFC 6901. |
| JsonPointer.ResolveLocalRef | bench/agent_coding/build_tasks_v2.py:165-176 | The loop follows the tokens of a local reference to an object, or fails. |
| JsonPointer.EveryPathHasPointer | bench/agent_coding/build_tasks_v2.py:165-176 | Every object below the root is reached by the pointer of its path. |
| JsonPointer.LookupEvaluates | bench/agent_coding/build_tasks_v2.py:168-173 | Where the walk down objects finds something, it is what section 4 of RFC 6901 says. |
| JsonPointer.IndexIff | bench/agent_coding/build_tasks_v2.py:168-173 | In the standard evaluation the code is compared with, a token is the array index n exactly when it is the decimal numeral of n. |
| SchemaValidator.LeadsUnique | bench/agent_coding/build_tasks_v2.py:186-188 | A chain of references has one end. |
| SchemaValidator.LongChainCycles | bench/agent_coding/build_tasks_v2.py:186-188 | A chain of references as long as the family is large comes back to a schema it passed. |
| SchemaValidator.AcyclicIff | bench/agent_coding/build_tasks_v2.py:186-188 | References form no cycle if and only if every chain ends within as many hops as there are schemas. |
| SchemaValidator.ConformsPlain | bench/agent_coding/build_tasks_v2.py:190-238 | A schema without a reference means its own keywords. |
| SchemaValidator.ConformsRef | bench/agent_coding/build_tasks_v2.py:186-188 | A reference means its target, for the standard also what stands beside it; an unresolvable one admits nothing. |
| SchemaValidator.Validate | bench/agent_coding/build_tasks_v2.py:179-238 | Accepts exactly the conforming values, and terminates for schemas without a cycle of references alone, recursive through properties and items. |
| SchemaValidator.ValidateFields | bench/agent_coding/build_tasks_v2.py:209-211 | The loop over an object's fields accepts exactly when each conforms to its property schema. |
| SchemaValidator.ValidateItems | bench/agent_coding/build_tasks_v2.py:222-224 | The loop over an array accepts exactly when each item conforms. |
| SchemaValidator.CheckPlain | bench/agent_coding/build_tasks_v2.py:190-238 | The checks of one call without recursion, in the order of the source. |
| SchemaValidator.CheckAny | bench/agent_coding/build_tasks_v2.py:190-197 | Constant, enumeration and type, a type that is no known name admitting nothing. |
| SchemaValidator.CheckArray | bench/agent_coding/build_tasks_v2.py:213-221 | Item counts and unique items, any true value switching the latter on. |
| SchemaValidator.CheckString | bench/agent_coding/build_tasks_v2.py:226-232 | Length bounds and pattern. |
| SchemaValidator.CheckDistinct | bench/agent_coding/build_tasks_v2.py:218-221 | Items are distinct as encoded texts, which is structural equality. |
| SchemaValidator.CheckMember | bench/agent_coding/build_tasks_v2.py:192-193 | Membership in an enumeration under Python equality. |
| SchemaValidator.CheckEqual | bench/agent_coding/build_tasks_v2.py:190-193 | Python equality of JSON values, decided recursively. |
| SchemaKeywords.KeywordsTogether | bench/agent_coding/build_tasks_v2.py:190-238 | A value conforms to a schema without a reference if and only if it conforms to each keyword of it by itself, additionalProperties taken together with properties. |
| SchemaKeywords.RequiredMeans | bench/agent_coding/build_tasks_v2.py:200-203 | Required alone admits exactly the values that are no object or have all the names. |
| SchemaKeywords.PropertiesMeans | bench/agent_coding/build_tasks_v2.py:204-211 | Properties alone admits exactly the values that are no object or whose named fields conform to their schemas. |
| SchemaKeywords.AdditionalMeans | bench/agent_coding/build_tasks_v2.py:204-211 | Beside properties, additionalProperties false forbids every other field; for the code any other value of it asks nothing, for the standard a schema must be met by the other fields. |
| SchemaKeywords.ItemCountMeans | bench/agent_coding/build_tasks_v2.py:214-217 | The item bounds alone admit exactly the arrays within them, and everything that is no array. |
| SchemaKeywords.UniqueMeans | bench/agent_coding/build_tasks_v2.py:218-221 | Unless its value is false for Python, uniqueItems admits exactly the arrays without two items of one encoding. |
| SchemaKeywords.ItemsMeans | bench/agent_coding/build_tasks_v2.py:222-224 | Items alone admits exactly the arrays all of whose items conform to its schema. |
| SchemaKeywords.LengthMeans | bench/agent_coding/build_tasks_v2.py:226-230 | The length bounds alone admit exactly the strings within them, and everything that is no string. |
| SchemaKeywords.PatternMeans | bench/agent_coding/build_tasks_v2.py:231-232 | Pattern alone admits exactly the strings in which it is found. |
| SchemaKeywords.RangeMeans | bench/agent_coding/build_tasks_v2.py:234-238 | Minimum and maximum alone admit exactly the numbers between them, and everything that is no number. |
| SchemaKeywords.ConstMeans | bench/agent_coding/build_tasks_v2.py:190-191 | Const alone admits exactly the values Python calls equal to it. |
| SchemaKeywords.EnumMeans | bench/agent_coding/build_tasks_v2.py:192-193 | Enum alone admits exactly the values Python calls equal to a member. |
| SchemaKeywords.TypeMeans | bench/agent_coding/build_tasks_v2.py:147-162 | Type alone admits exactly the values of each of the seven types, booleans being no numbers. |
| SchemaKeywords.AcceptedHasRequired | bench/agent_coding/build_tasks_v2.py:200-203 | An object accepted by any schema has every field the schema requires. |
| SchemaStandard.ConstantAdmitsTrue | bench/agent_coding/build_tasks_v2.py:190-191 | A constant 1 admits true for the code and not for the standard. |
| SchemaStandard.UniqueItemsSeparatesNumbers | bench/agent_coding/build_tasks_v2.py:218-221 | 1 and 1.0 pass as unique items for the code and not for the standard. |
| SchemaStandard.StdEqualIff | bench/agent_coding/build_tasks_v2.py:190-193 | The standard's equality is Python's without a boolean facing a number. |
| SchemaStandard.StructuralIff | bench/agent_coding/build_tasks_v2.py:218-221 | Equality of encodings is the standard's without an integer facing a float. |
| SchemaStandard.ConstIff | bench/agent_coding/build_tasks_v2.py:190-191 | The code reads a constant as the standard does if and only if it does not equal the value by a boolean facing a number. |
| SchemaStandard.EnumIff | bench/agent_coding/build_tasks_v2.py:192-193 | The same of an enumeration. |
| SchemaStandard.UniqueIff | bench/agent_coding/build_tasks_v2.py:218-221 | The code reads unique items as the standard does if and only if no two with different encodings are equal by an integer facing a float, unless some encodings agree. |
| SchemaStandard.TypeIff | bench/agent_coding/build_tasks_v2.py:147-162 | The code reads a type as the standard does if and only if it is not the integers facing a float without a fraction, nor a list with a type of the value. |
| SchemaStandard.AdditionalIff | bench/agent_coding/build_tasks_v2.py:204-208 | The code reads a schema of additional properties as the standard does if and only if all of them conform to it. |
| SchemaStandard.WholeFloatRefused | bench/agent_coding/build_tasks_v2.py:154-155 | 1800.0 is no integer for the code and one for the standard. |
| SchemaStandard.TypeListRefused | bench/agent_coding/build_tasks_v2.py:195-197 | A list of types admits no value for the code. |
| SchemaStandard.AdditionalSchemaIgnored | bench/agent_coding/build_tasks_v2.py:204-208 | An object whose additional property breaks its schema passes for the code. |
| SchemaStandard.KeywordsBesideReferenceIgnored | bench/agent_coding/build_tasks_v2.py:186-188 | With a target that admits everything the code accepts every value, the standard those that meet the keywords beside the reference. |
| SchemaStandard.TypeBesideReferenceIgnored | bench/agent_coding/build_tasks_v2.py:186-188 | So 1 passes for a string. |
| SchemaStandard.RootReferenceRefused | bench/agent_coding/build_tasks_v2.py:166-167 | The reference # admits nothing for the code and means the document for the standard. |
| SchemaStandard.EncodedReferenceMisread | bench/agent_coding/build_tasks_v2.py:169-173 | Where a document has a name as written in a reference and one as it is decoded, the code takes the first and the standard the second. |
| SchemaStandard.SoundIff | bench/agent_coding/build_tasks_v2.py:179-238 | A value the code accepts is accepted by the standard if and only if no departure of the accepting kind lies where validation comes. |
| SchemaStandard.CompleteIff | bench/agent_coding/build_tasks_v2.py:179-238 | A value the standard accepts is accepted by the code if and only if no departure of the refusing kind lies where validation comes. |
| SchemaStandard.CodeMeetsStandardIff | bench/agent_coding/build_tasks_v2.py:179-238 | Code and standard agree on a value and a schema if and only if neither kind matters to the one that accepts. |
| AppendLog.LogFile.constructor | bench/agent_coding/validate_candidates_v2.py:125-127 | A new log is empty. |
| AppendLog.LogFile.RepairAndLoad | bench/agent_coding/validate_candidates_v2.py:125-151 | Returns the rows of the leading good lines and cuts the file to exactly their bytes; an exception leaves it alone. |
| AppendLog.LogFile.Append | bench/agent_coding/validate_candidates_v2.py:162-172 | However the system splits the writes, exactly the payload is added. |
| AppendLog.LinesMean | bench/agent_coding/validate_candidates_v2.py:132-132 | Splitting keeps every byte; a line ends at its first newline, return, or return and newline, and only the last may end elsewhere. |
| AppendLog.BlankMeans | bench/agent_coding/validate_candidates_v2.py:135-137 | Lines are blank that hold nothing but the six ASCII space characters. |
| AppendLog.RepairIdempotent | bench/agent_coding/validate_candidates_v2.py:125-151 | Repairing a repaired file returns the same rows and keeps every byte. |
| AppendLog.TornAppendRecovery | bench/agent_coding/validate_candidates_v2.py:125-172 | For all rows and every crash point, reopening returns exactly the complete rows and their bytes; it fails only for a tear inside a character. |
| AppendLog.AppendAfterNewline | bench/agent_coding/validate_candidates_v2.py:162-172 | Appending to complete lines adds exactly one row. |
| AppendLog.AppendWithoutNewline | bench/agent_coding/validate_candidates_v2.py:125-172 | Appending after an object that lost its newline loses both rows. |
| AppendLog.AppendAfterRepairIff | bench/agent_coding/validate_candidates_v2.py:125-172 | After any crash and repair the next append adds exactly one row if and only if the file is empty or ends in a newline. |
| AppendLog.SoundCodecExists | bench/agent_coding/validate_candidates_v2.py:162-172 | The guarantees asked of the codec can be met, with a row that can be torn inside a character. |
| AppendRuns.FileShape | bench/agent_coding/validate_candidates_v2.py:125-172 | Every file a run of appends, crashes and restarts can reach has one of three shapes, or a restart has raised. |
| AppendRuns.RunKeepsRowsIff | bench/agent_coding/validate_candidates_v2.py:125-172 | After any such run the file holds exactly the complete rows, in order, if and only if no crash fell inside a character and nothing was written behind an object without its newline. |
| HunkParser.SplitJoin | bench/agent_coding/validate_candidates_v2.py:271-271 | Splitting joined lines gives them back without the carriage return at the end of each. |
| HunkParser.HeaderReads | bench/agent_coding/validate_candidates_v2.py:272-275 | Reading a printed hunk header gives its new start, with or without counts. |
| HunkParser.ClassifyOp | bench/agent_coding/validate_candidates_v2.py:276-287 | A printed line is taken for what it stands for, except inserted lines starting in ++. |
| HunkParser.TrimPrints | bench/agent_coding/validate_candidates_v2.py:271-275 | A carriage return at the end of a printed line leaves the line the same but for it. |
| HunkParser.ChangedNewLines | bench/agent_coding/validate_candidates_v2.py:267-288 | The loop collects exactly the numbers the line kinds call for. |
| HunkParser.CountScript | bench/agent_coding/validate_candidates_v2.py:276-287 | Every inserted line starting in ++ costs the result exactly one number. |
| HunkParser.ParserInvertsPrinterIff | bench/agent_coding/validate_candidates_v2.py:267-288 | For every printed edit script, with either line ending, the result is exactly the inserted non-blank lines if and only if none starts in ++. |
| HunkParser.NumbersMeaning | bench/agent_coding/validate_candidates_v2.py:278-283 | The expected numbers are strictly increasing and are exactly those lines. |
| HunkBreaks.SplitAppend | bench/agent_coding/validate_candidates_v2.py:271-271 | A line feed ends a line whatever separators stand in front of it. |
| HunkBreaks.FaithfulIff | bench/agent_coding/validate_candidates_v2.py:271-287 | Whatever separators a printed line holds, the parser reads it right at every place if and only if no part is a hunk header and the parts that take a number do what the line should. |
| HunkBreaks.UnbrokenFaithfulIff | bench/agent_coding/validate_candidates_v2.py:276-287 | A line without separators is read right if and only if it is no inserted line starting in ++. |
| HunkBreaks.FormFeedCountsTwice | bench/agent_coding/validate_candidates_v2.py:271-283 | An inserted line that holds a form feed and a plus sign behind it counts for two. |
| HunkBreaks.FaithfulInverts | bench/agent_coding/validate_candidates_v2.py:267-288 | The result is exactly the inserted non-blank lines of a printed edit script whose lines are read right, whatever separators they hold. |
| Spdx.Families | tools/release_artifacts.py:292-301 | Identifiers of files, locked packages and the release never coincide. |
| Spdx.AugmentedRelated | tools/release_artifacts.py:391-490 | After augmenting, the release contains exactly its files and locks exactly its packages. |
| Spdx.AugmentedDescribes | tools/release_artifacts.py:365-493 | Every augmented document meets all demands on root, files, packages and relationships. |
| Spdx.AugmentedAcceptedIff | tools/release_artifacts.py:365-493 | What augmenting writes is accepted if and only if the identifiers it keeps are present and distinct and no package is locked twice. |
| Spdx.AugmentIdempotent | tools/release_artifacts.py:378-490 | Augmenting again with the same release writes the same lists, entry for entry. |
| Spdx.AugmentAgain | tools/release_artifacts.py:378-493 | An accepted document augmented for another release is accepted for that one; stale entries stay but are no longer contained. |
| Spdx.CodeOrderFree | tools/release_artifacts.py:405-408 | The package verification code of clause 7.9 of SPDX 2.3 does not depend on the order of files. |
| Spdx.AcceptsOrderFree | tools/release_artifacts.py:504-637 | Acceptance does not depend on the order of files. |
| SbomMeaning.AcceptedIff | tools/release_artifacts.py:504-637 | A document is accepted if and only if its header is good, release and lock are not empty, every entry has an identifier of its own, and the document describes the release. |
| SbomMeaning.DescribesIff | tools/release_artifacts.py:532-637 | Describing the release, in terms of single entries: one release package, exactly the release files contained, every file and every locked package with its entry. |
| SbomMeaning.GoodRootIff | tools/release_artifacts.py:533-601 | The release package is named greppy, has the one version of the lock, mentions the target, has its files analysed and carries the verification code. |
| SbomMeaning.IsCodeIff | tools/release_artifacts.py:596-601 | The verification code is the digest of the file digests in ascending order. |
| SbomMeaning.GoodFileIff | tools/release_artifacts.py:573-595 | The entry of a file has its name, both digests of its bytes, and is marked as a link with its target exactly if it is one. |
| SbomMeaning.GoodPackageIff | tools/release_artifacts.py:609-637 | The entry of a locked package has its name, version, source and, where the lock has one, its checksum. |
| SbomMeaning.CanAugmentIff | tools/release_artifacts.py:365-493 | Augmenting is refused exactly for a bad header, an empty release or lock, a nameless or versionless package, a lock without one own version, or a checksum that is not 64 lower-case hexadecimal digits. |
| SbomMeaning.ReleaseBytesMean | tools/release_artifacts.py:316-319 | A link stands for the bytes of the word symlink, a NUL and its target; any other file for its own bytes. |
| Spdx.AcceptedFilesUnique | tools/release_artifacts.py:547-595 | A document accepted for two file sets has the same names, kinds and contents in both. |
| Spdx.AcceptedLockIff | tools/release_artifacts.py:603-637 | A document made for one lock is accepted for another if and only if the workspace version agrees and the first lock covers every entry of the other. |
| Spdx.EntryIffCovered | tools/release_artifacts.py:461-490 | An augmented document has an entry and a relationship for a package if and only if its lock lists it, with its checksum where one is asked. |
| Spdx.DroppedDependencyAccepted | tools/release_artifacts.py:603-637 | A document is as good for its lock without any one dependency, or without its checksum. |
| Spdx.RunAccepted | tools/release_artifacts.py:365-493 | Every run of augmentations ends accepted for its last release. |
| Spdx.RunKeepsForeign | tools/release_artifacts.py:378-396 | No run loses a package that none of its releases generates. |
| SbomFiles.ChecksumMap | tools/release_artifacts.py:496-501 | The dictionary holds the last checksum of every algorithm. |
| SbomFiles.CheckFile | tools/release_artifacts.py:574-595 | Name, both digests and link marking are all checked. |
| SbomFiles.CheckFiles | tools/release_artifacts.py:572-596 | The file loop fails exactly when some file has no matching entry. |
| SbomFiles.CheckLock | tools/release_artifacts.py:603-637 | The lock loop fails exactly when some package lacks a matching entry or qualified relationship. |
| SbomFiles.VerifySpdx | tools/release_artifacts.py:504-637 | Accepts exactly the documents that describe the release. |
| SbomFiles.SbomFile.constructor | tools/release_artifacts.py:365-372 | The file holds a document. |
| SbomFiles.SbomFile.AugmentSpdx | tools/release_artifacts.py:365-493 | Refused inputs leave the file alone; otherwise it holds the augmented document, and success means it verifies. |
| SbomFiles.AddFiles | tools/release_artifacts.py:432-455 | The file loop appends one entry and one relationship per file, in order. |
| SbomFiles.AddPackages | tools/release_artifacts.py:461-490 | The lock loop appends one entry and one relationship per package, or stops at an invalid checksum. |

## Left out

- Rounding of floating-point sums and logarithms: the statistics are over exact reals.
- GreedySelection: the score itself, the decoration of rows and the eligibility filters before the sort, which only add easy members.
- BenchmarkResults.GradeResults: the report fields for tokens, wall time and navigation, which decide nothing in the gate.
- CheckpointProtocol: the gate file and the other fields of the manifest, a failing disk write, and the order of the arms. The checkpoint before the workers start is one step; interrupted between its two files, a first run leaves no manifest and the program refuses to resume.
- LatencyReport.PairedEffect: the number of pairs and the fixed texts.
- ProcessSampler.ProcessTreeMemorySampler.Sample: the start times listed with measured processes, the timestamps and fixed texts, which nothing reads back.
- OwnedGroup: what the checks before acquisition look at, their verdict being an input, `wrap_command` and `snapshot`.
- PeBinding.ContractBindsIff: header offsets inside the DOS header or at the end of the 32-bit range, for which only the half that the contract binds is stated (`ContractBindsPayload`).
- PeBinding.InPlaceIff: table offsets in front of the end of the security entry, of which `ContractBindsIff` speaks.
- PeBinding: the manifest and signature evidence around the payload comparison.
- SchemaValidator.Validate: schemas with keyword values on which the source raises a type error, or with a cycle of references alone, on which it recurses without end.
- SchemaStandard.SoundIff: references that are percent-encoded or not well escaped, which the two readings may resolve differently, and embedded resources with a base URI of their own.
- HunkParser.ParserInvertsPrinterIff: lines with separators other than one carriage return at the end, for which `FaithfulIff` is exact line by line and `FaithfulInverts` one way, since misread lines can make up for each other; and diffs that no edit script prints.
- Spdx: entries that are not objects, reading Cargo.lock and the file system, and writing JSON.
- The Rust crates, the mutation checkers, the corpus and fixture generators and the report printers.
