# AetherSparse harness scripts: a verified model

AetherSparse evaluates question answering over a frozen benchmark of conversation cases. Its scripts shard
that evaluation over processes, calibrate scores, compare strings by edit distance, look surfaces up in a
trigram index and build a corpus from a dump. Most of them claim that a fast form gives what a simple form
gives. This project models the scripts in Dafny and proves those claims for all inputs, or proves exactly
when they hold.

Run `dafny verify dfyconfig.toml` in this directory.

## What is proved

- **Sharded evaluation equals serial evaluation** (`UnionFind`, `ConversationShards`, `Balance`,
  `ConversationOrder`, `CarryLoop`, `ParallelEval`). Union-find groups the cases into conversations,
  largest-first greedy deals the conversations out, every process orders its cases depth first and carries
  the predicted document from turn to turn, and the records are merged by case id. The merged report is the
  serial one for the gates `none` and `compat`, and both fail on a cycle. The balance is within
  4/3 - 1/(3m) of every other assignment. What is carried to a case and what its record says is stated from the
  traces of the run alone.
- **Replay of parent turns** (`Replay`). The memoised recursion equals the plain one from every sound memo
  and in every order, and fails exactly on a cyclic or unknown ancestor.
- **Strided qualification shards** (`StridedShards`, `ShardMerge`) and **benchmark shards**
  (`ShardBenchmark`). Running every shard and merging the reports fails exactly when one run over the benchmark
  would, and otherwise restores its outcome sequence; nothing but a whole family is accepted. The smallest id of
  a chain is its root, no chain is ever split, every case is replayed in its shard as in the whole benchmark,
  and the shards list parents first exactly when the benchmark does.
- **Isotonic calibration** (`Pava`, `CalibrationLookup`, `CalibrationMetrics`). The in-place pooling loop
  solves weighted least squares over all monotone sequences. The lookup built from it is monotone and never
  below the fit; the exact condition under which both predict the same at every score is proved for all inputs.
  The bins and the fit keep the number of ones. The binned error is bounded, from below by the bias.
- **Edit distances** (`EditDistance`, `Typos`). Both dynamic programs compute the cost of a cheapest edit
  script, and both typo generators land at known distances.
- **Trigram index and candidate union** (`PostingLists`, `CharIndex`, `SurfaceScores`, `EntityProposals`,
  `UnionRank`). A capped scan that is not saturated gives what brute force over all surfaces gives; a saturated
  one ranks the surfaces its cap let it meet. Each entity is proposed once, at its best score. The union is the
  top 32 under one strict total order, which keeps the baseline order of entities no proposal names.
- **Corpus builds** (`SectionBlocks`, `Ingest`). Blocks of positive length tile every section. The sharded build
  equals the one-worker build for every number of workers. Up to the semantic keys of chunks it equals the serial
  build exactly when both read the same pages and no document repeats; the whole stores are equal exactly when, in
  addition, the two digests agree on the words of every stored chunk.
- **Stratified selection** (`RoundRobin`). Categories take turns fairly, up to the limit.

`Sorting`, `CaseIds`, `Conversations`, `Products` and `Wrappers` hold what the others share: stable sorting by a
comparison, the order of ids, the benchmark and the shape of its prior links, products and quotients,
option and result types.

## How the scripts are read

- Retrieval, framing, linking, text normalisation, case folding and character classes are parameters: pure
  functions of what the scripts pass to them. `CarryLoop` takes one retrieval trace as a function of the
  question, the carried document and the stage; `Replay` takes linking as a function of the question and the
  carried entities, the same in the replay and in the loop around it.
- Exceptions and refusals are results (`Raised`, `None`, or a named outcome). A nonzero exit of a shard
  process fails the whole run.
- Dictionaries are maps, or sequences where their order matters; counters are multisets; database tables are
  sequences of keyed rows into which a row is inserted unless its key is there. Numbers are unbounded, and
  floating point is read as real arithmetic before rounding.
- What a page contributes to a corpus is what parsing it gives, in a fixed row order. The scripts iterate a set
  over the years of a chunk (`scripts/droid/v09_parallel_ingest.py:172`); the parse fixes the order of those rows,
  the same for both builds. The digest of the words of a chunk is a parameter of each build.
- Ghost results name the witnesses a contract speaks of: the order a process worked in, the blocks behind the
  pooled levels, the dictionary behind a ranking.

## Where code and documentation disagree

- `_fit_lookup` is documented as a monotone lookup of the probability of a bin, but it zips bin edges with the
  pooled levels without expanding the blocks again (`scripts/droid/v08_calibration.py:82-83`). The lookup is
  monotone and in range and never below the isotonic fit. It predicts the fit at every score exactly when each
  bin that a score can reach is served its own level: the first, the last and every one whose edge exceeds the
  edge before it. One-tailed bin means are enough for that, and with distinct edges nothing less is. Samples that
  are mispredicted are given.
- The merge of the parallel build says that the serial build treats a repeated document the same way
  (`scripts/droid/v09_parallel_ingest.py:280-283`). The serial build skips such a page altogether
  (`src/aethersparse/traversal/corpus.py:236-237`), the parallel one adds its search rows, redirects and
  counts. The serial build also reads a first page when the limit is below one, the parallel build reads none. The
  exact condition for equal stores is proved.
- The parallel build is documented as bit-identical to the serial one (`scripts/droid/v09_parallel_ingest.py:4`),
  yet the two hash the `semantic_key` of a chunk with different functions
  (`scripts/droid/v09_parallel_ingest.py:152-154`, `src/aethersparse/traversal/corpus.py:273-275`). Each build has
  its own digest in the model; equality of stores is stated with and without that column, and a page that tells
  the digests apart is given.
- The benchmark splitter relies on parents standing before children in the benchmark file
  (`scripts/droid/v09_shard_benchmark.py:91-92`), the qualification run says that the file is not sorted that way
  (`scripts/run_v050_qualification.py:332-339`). Every shard has the
  property exactly when the benchmark has it; a benchmark with the child first is given.

## Model

| member | source | states |
|---|---|---|
| `ParallelEval.EvaluateInParallel` | scripts/droid/v09_parallel_eval.py:71-143 | the sharded run fails exactly when the scored cases hold a prior cycle, or there are cases and no workers; otherwise its records, in order of case ids, its answer count and its recalls are those of every serial run in every parents-first order |
| `ParallelEval.MergedEqualsSerial` | scripts/droid/v09_parallel_eval.py:133-139 | whatever the shards, the orders worked in inside them and the order of the serial run, the merged records sorted by case id are the serial records sorted by case id |
| `ParallelEval.PartReports` | scripts/droid/v050_selector_eval.py:237-278 | a process over a parent-closed part of the cases reports for each case exactly what the serial run reports for it |
| `ParallelEval.AggregatesEqualSerial` | scripts/droid/v09_parallel_eval.py:141-143 | the answer count and the two recalls recomputed from the merged records are the accumulator's of the serial run |
| `ParallelEval.TallyCountsRecords` | scripts/droid/v050_common.py:113-127 | the overall accumulator of the last stage counts what the emitted answer records say, over every run |
| `ParallelEval.CycleInSomeShard` | scripts/droid/v09_parallel_eval.py:122-130 | some shard process raises on a cycle exactly when the serial run would |
| `ParallelEval.ShardIsClosed` | scripts/droid/v09_parallel_eval.py:37-49 | the scored cases of a shard hold every declared prior that the scored cases hold |
| `ConversationShards.PickIsClosed` | scripts/droid/v09_parallel_eval.py:37-49 | whatever the cases chosen from the benchmark, those of one shard hold every declared prior that the chosen cases hold |
| `Conversations.PickRestricts` | scripts/droid/v050_selector_eval.py:157-166 | restricting the cases to a list of ids restricts the dictionary by id to those ids, also when ids repeat |
| `ParallelEval.AnyOrderReportsTheSame` | scripts/droid/v050_common.py:71-95 | two serial runs in different parents-first orders report the same records |
| `ParallelEval.EvaluateSerially` | scripts/droid/v050_selector_eval.py:157-166 | one process raises exactly on a cycle among its cases and otherwise runs them in a parents-first order |
| `ParallelEval.RunShards` | scripts/droid/v09_parallel_eval.py:85-130 | the runs fail exactly when one shard holds a cycle; otherwise every shard reported its own parents-first run |
| `ParallelEval.Merge` | scripts/droid/v09_parallel_eval.py:133-139 | the merged list is the sorted concatenation of the shard reports |
| `CarryLoop.Evaluate` | scripts/droid/v050_selector_eval.py:237-392 | the loop over the ordered cases computes the run that the recursion over prefixes defines, carry, records and tallies |
| `CarryLoop.EvaluateCase` | scripts/droid/v050_selector_eval.py:316-392 | every stage counts an answer case and its hits; only the reranker's top document is carried on and only its trace is recorded |
| `CarryLoop.FindCarry` | scripts/droid/v050_selector_eval.py:237-271 | a document is carried exactly when the boost is positive, it is the prediction of the first prior that has one, and the compat gate is off, or the question has no anchors, or it is one of them |
| `CarryLoop.CarryOfRun` | scripts/droid/v050_selector_eval.py:237-271 | over a whole run, in every order without repeated ids, a case is boosted exactly with the top document of its first prior that was ranked before it, under the same gate |
| `CarryLoop.RecordMeans` | scripts/droid/v050_selector_eval.py:316-392 | a record is lenient when some kept document is on a gold page, strict when every gold page is kept; its gold ranks are the one-based places of gold pages among the different pages in rank order |
| `CarryLoop.CarryIsLocal` | scripts/droid/v050_selector_eval.py:237-249 | a case is boosted with the same document in every parents-first order of every parent-closed part of the cases |
| `CarryLoop.PredictedOf` | scripts/droid/v050_selector_eval.py:338-339 | what later turns read for a case is the top document of that case's own trace, whatever ran in between |
| `UnionFind.Forest.Find` | scripts/droid/v09_parallel_eval.py:36-41 | path halving terminates in every reachable state, keeps every representative and returns that of the id, registering an unknown id |
| `UnionFind.Forest.Attach` | scripts/droid/v09_parallel_eval.py:47-49 | hanging one root under the other merges exactly their two classes and keeps the forest |
| `UnionFind.RootsAgreeIff` | scripts/droid/v09_parallel_eval.py:33-53 | two ids have one representative exactly when a path of links connects them |
| `UnionFind.HalvingKeepsForest` | scripts/droid/v09_parallel_eval.py:38-40 | one halving step keeps the forest and its representatives, and the walk climbs |
| `ConversationShards.ConversationComponents` | scripts/droid/v09_parallel_eval.py:33-53 | the groups hold every case once and two cases share a group exactly when prior links connect them |
| `ConversationShards.BalanceShards` | scripts/droid/v09_parallel_eval.py:74-80 | the loop deals the components out as largest-first greedy |
| `ConversationShards.LargestFirstMeans` | scripts/droid/v09_parallel_eval.py:74-77 | components are dealt out by falling size, those of one size in the order in which they were found |
| `ConversationShards.GatheredConserves` | scripts/droid/v09_parallel_eval.py:75-80 | every component lands whole in exactly one shard and nothing else is there |
| `ConversationShards.GatheredAreShards` | scripts/droid/v09_parallel_eval.py:71-81 | whatever the assignment, the shards hold every case and no conversation spans two |
| `ConversationShards.ShardsNearOptimal` | scripts/droid/v09_parallel_eval.py:74-80 | with m workers, 3m times the fullest shard is at most (4m - 1) times the fullest shard of any other assignment of the same conversations |
| `ConversationShards.ShardIds` | scripts/droid/v09_parallel_eval.py:71-81 | the shard list fails exactly without workers and with cases; otherwise it has at most one shard per worker, each in id order, holds every case, splits no conversation and is within the balance bound of every other assignment |
| `Balance.LargestFirstFourThirds` | scripts/droid/v09_parallel_eval.py:77-80 | largest-first assignment to the least loaded shard is within 4/3 - 1/(3m) of any assignment |
| `Balance.GreedyMakespan` | scripts/droid/v09_parallel_eval.py:77-80 | in any item order, m times a load is at most the total plus (m - 1) times the largest item |
| `Balance.BigItemsOptimal` | scripts/droid/v09_parallel_eval.py:77-80 | when every item exceeds a third of what some assignment achieves, largest-first achieves it too |
| `Balance.BigItemsFit` | scripts/droid/v09_parallel_eval.py:77-80 | largest-first is never stuck on an item above a third of an achievable load |
| `Balance.LoadsConserve` | scripts/droid/v09_parallel_eval.py:75-80 | the loads of the shards add up to the total |
| `Balance.FirstLeast` | scripts/droid/v09_parallel_eval.py:78 | the target is the first shard of least load |
| `ConversationOrder.Order` | scripts/droid/v050_common.py:71-95 | raises exactly when the declared priors among the cases form a cycle; otherwise returns every case once with its priors before it, and leaves a list that has priors first as it is |
| `ConversationOrder.Visitor.Visit` | scripts/droid/v050_common.py:78-91 | a failed visit has met a cycle; a successful one finishes the case and everything it depends on, and takes no mark back |
| `ConversationOrder.ActiveMeansCycle` | scripts/droid/v050_common.py:82-83 | an active case met again closes a cycle of declared priors |
| `Conversations.ParentsFirstIsAcyclic` | scripts/droid/v050_common.py:71-95 | a parents-first order exists only without cycles |
| `Conversations.ParentsFirstPermutes` | scripts/droid/v050_common.py:71-95 | with distinct ids the order is a permutation of the cases |
| `Replay.Replayer.Replay` | scripts/droid/v08_pipeline_eval.py:843-873 | with any sound memo and any walk of calls in progress the replay returns the value of the plain recursion, and leaves the memo sound |
| `Replay.LinkedUnfolds` | scripts/droid/v08_pipeline_eval.py:857-873 | the value satisfies the recursive equation: none for an unknown id or when a prior has none, otherwise the turn linked with the distinct entities of its priors |
| `Replay.RaisesIffDoomed` | scripts/droid/v08_pipeline_eval.py:855-859 | replay fails exactly when some line of priors leads to an unknown id or back to a case it passed |
| `Replay.LinkInOrder` | scripts/droid/v08_pipeline_eval.py:1036-1112 | for every order of the cases, with the loop writing the memo itself, every case is linked as the plain recursion links it; it fails exactly when a case of the order is doomed |
| `Replay.ReplayTurn` | scripts/droid/v08_pipeline_eval.py:1036-1044 | the priors of one turn are replayed to the concatenation of their values |
| `Replay.AllLinkedMeans` | scripts/droid/v08_pipeline_eval.py:1036-1044 | the entities of several priors are their values end to end |
| `Replay.ReplayAllPriors` | scripts/run_v050_qualification.py:327-369 | fails exactly when some declared prior is doomed; otherwise every declared prior has the value of the plain recursion |
| `StridedShards.Run` | scripts/run_v050_qualification.py:372-494 | a run is refused exactly for a bad limit, a bad shard, both selections at once, or a declared prior anywhere in the benchmark that cannot be replayed; otherwise it emits the eight rows of each selected case in order, each completed with the prior entities that the plain recursion gives over the whole benchmark |
| `StridedShards.ReplayedOutcomes` | scripts/run_v050_qualification.py:398-420 | rows completed from the replayed values are those completed from the recursion, whatever part of the benchmark they belong to |
| `StridedShards.TakeStride` | scripts/run_v050_qualification.py:388-390 | stepping by the shard count takes exactly the positions congruent to the shard index |
| `StridedShards.StridedAt` | scripts/run_v050_qualification.py:388-390 | the k-th case of a stride stands at the index plus k times the count |
| `StridedShards.StridesPartition` | scripts/run_v050_qualification.py:388-390 | the strides of a count hold every case exactly once |
| `StridedShards.RowsOfParts` | scripts/run_v050_qualification.py:398-491 | running the parts one after the other emits the rows of their concatenation |
| `StridedShards.RowsOfAt` | scripts/run_v050_qualification.py:398-491 | row 8 i + s is that of the i-th case in the s-th system |
| `StridedShards.OutcomeMeans` | scripts/run_v050_qualification.py:399-405 | a case is completed with every entity of its replayed priors, each once |
| `ShardMerge.Merge` | scripts/merge_v050_qualification_shards.py:92-132 | accepts exactly the reports of one whole shard family of this benchmark, over one verified pack, with one row file each, whose rows are every case and system once; then returns those rows case by case in benchmark order and system by system |
| `ShardMerge.FamilyIsTrusted` | scripts/merge_v050_qualification_shards.py:97-117 | a whole family is two or more unfinished reports of the corrected qualification with this benchmark hash, verified packs of one hash, the count of reports as shard count, and every index below it |
| `ShardMerge.CheckReports` | scripts/merge_v050_qualification_shards.py:97-117 | with two reports or more, the report checks pass exactly for a whole family: every report is an incomplete one of the corrected qualification with this benchmark hash and a verified pack, all count the same shards, over one pack, and the indices are each index once |
| `ShardMerge.IndexCheckIff` | scripts/merge_v050_qualification_shards.py:109-114 | the report count and index set check passes exactly for the permutations of 0, 1, ..., count - 1 |
| `ShardMerge.RowCheckIff` | scripts/merge_v050_qualification_shards.py:124-127 | the row count and the completeness checks together pass exactly when the case ids are distinct and every case and system pair occurs once |
| `ShardMerge.CheckAblation` | src/aethersparse/controller/evaluation.py:355-376 | the check accepts exactly the rows that have, for every system, every case id once and no other |
| `ShardMerge.MergedRowsAreGrid` | scripts/merge_v050_qualification_shards.py:128-132 | sorted by case and system order, the rows of a whole grid have the grid's keys, and none is lost |
| `ShardMerge.FamilyIsWhole` | scripts/merge_v050_qualification_shards.py:97-117 | the reports of every complete family of two or more, in any order, pass the report checks |
| `ShardMerge.FamilyFilesAreGrid` | scripts/merge_v050_qualification_shards.py:119-127 | the row files of every complete family, in any order, hold exactly the rows of the unsharded run, every case and system once |
| `ShardMerge.RunIsRestored` | scripts/merge_v050_qualification_shards.py:128-132 | sorting any arrangement of the rows of a run restores the run |
| `ShardMerge.MergeFamily` | scripts/merge_v050_qualification_shards.py:92-132 | for every shard count and every order of the reports and of the files the merge returns the rows of the unsharded run |
| `ShardMerge.QualifyInShards` | scripts/run_v050_qualification.py:372-494 | running every shard and merging the reports and files fails exactly when one run over the whole benchmark would, and otherwise gives the rows of that run |
| `ShardBenchmark.Split` | scripts/droid/v09_shard_benchmark.py:40-92 | never reports a split chain; fails exactly on an unknown prior, or without shards for some cases; otherwise the shards hold every case once, in benchmark order, priors stand first in every shard exactly when they do in the benchmark, and every case is replayed in its shard as in the benchmark |
| `ShardBenchmark.ShardReplaysAlone` | scripts/droid/v09_shard_benchmark.py:1-14 | for every linker, a case of a shard is linked there to what the whole benchmark links it to, and its replay fails there exactly when it fails in the benchmark |
| `Replay.ReplayIsLocal` | scripts/droid/v08_pipeline_eval.py:843-873 | a case of any part that holds the declared priors of its cases has the value, or the failure, that it has in the whole |
| `ShardBenchmark.RootIsSmallest` | scripts/droid/v09_shard_benchmark.py:54-57 | a representative is connected to its id and is the smallest id of the chain |
| `ShardBenchmark.UniteSmaller` | scripts/droid/v09_shard_benchmark.py:54-57 | union keeps every representative below its members |
| `ShardBenchmark.UniteChains` | scripts/droid/v09_shard_benchmark.py:59-63 | the loops stop exactly on an unknown prior and otherwise have united exactly the prior links |
| `ShardBenchmark.ChainsWhole` | scripts/droid/v09_shard_benchmark.py:73-79 | on every set of shards of whole chains the assertion about split chains holds |
| `ShardBenchmark.DealOut` | scripts/droid/v09_shard_benchmark.py:70-72 | the groups are dealt out round-robin |
| `ShardBenchmark.InTurnIsEven` | scripts/droid/v09_shard_benchmark.py:70-72 | every shard is given its even share of the chains, the first shards one of the remainder each |
| `ShardBenchmark.ChainsDealtOut` | scripts/droid/v09_shard_benchmark.py:70-92 | every case of the k-th chain stands in shard k modulo the shard count |
| `ShardBenchmark.PartsConserve` | scripts/droid/v09_shard_benchmark.py:89-92 | filtering the benchmark by shard keeps every case exactly once |
| `ShardBenchmark.PriorsEarlierIff` | scripts/droid/v09_shard_benchmark.py:89-92 | every prior stands before its case in every shard exactly when it does in the benchmark |
| `ShardBenchmark.ShardsKeepPriorsEarlier` | scripts/droid/v09_shard_benchmark.py:89-92 | if every prior stands before its case in the benchmark, it does so in every shard |
| `ShardBenchmark.ShardsShowPriorsEarlier` | scripts/droid/v09_shard_benchmark.py:89-92 | if it does so in every shard, it does so in the benchmark |
| `ShardBenchmark.ChildFirst` | scripts/droid/v09_shard_benchmark.py:91-92 | a benchmark of two cases with the child first: whatever the shards, one holds the child before its parent |
| `Pava.Pool` | scripts/droid/v08_calibration.py:45-60 | the in-place loop terminates; its levels never fall, and each is the level of one contiguous block of the input, pooled only for cause |
| `Pava.PooledIsLeastSquares` | scripts/droid/v08_calibration.py:45-60 | expanded over its blocks, the result has the least weighted squared error of all monotone sequences, and no other has as little |
| `Pava.FitIsOptimal` | scripts/droid/v08_calibration.py:45-60 | over every monotone sequence the loss exceeds that of a certified fit by at least the distance to it |
| `Pava.PooledIsIsotonicFit` | scripts/droid/v08_calibration.py:45-60 | what the loop returns carries the optimality certificate |
| `Pava.FitIsUnique` | scripts/droid/v08_calibration.py:45-60 | a monotone sequence that loses no more than a certified fit is that fit |
| `Pava.LevelIsWeightedMean` | scripts/droid/v08_calibration.py:53-56 | each level is the weighted mean of its block and each count the block's weight |
| `Pava.MergeBlocks` | scripts/droid/v08_calibration.py:52-57 | merging two adjacent blocks out of order gives a block again |
| `CalibrationLookup.PredictScore` | scripts/droid/v08_calibration.py:86-90 | the prediction is that of the first entry whose edge admits the score, or of the last; zero for an empty lookup |
| `CalibrationLookup.PredictMonotone` | scripts/droid/v08_calibration.py:86-90 | a higher score is never given a lower probability |
| `CalibrationLookup.BinUp` | scripts/droid/v08_calibration.py:68-81 | the bins cover the sorted samples in ten shares of equal size up to rounding, or one by one below ten samples; the edge of a bin is its last score, and its mean, times its count, the number of ones among its labels |
| `CalibrationLookup.LookupKeepsOnes` | scripts/droid/v08_calibration.py:63-83 | weighted by the sizes of the bins, their means and their isotonic fit both add up to the number of ones among the labels |
| `CalibrationLookup.PredictionsAreProbabilities` | scripts/droid/v08_calibration.py:63-90 | fitted on zero-one labels, every prediction of the lookup as coded lies in [0, 1] |
| `CalibrationLookup.LookupNeverUnderestimates` | scripts/droid/v08_calibration.py:82-83 | at every score the lookup, which zips edges with unexpanded levels, predicts at least what the isotonic fit of the score's bin says |
| `CalibrationLookup.AlignedIffOneTail` | scripts/droid/v08_calibration.py:82-83 | every bin is served its own isotonic level exactly when pooling can only have joined one tail of the bin means |
| `CalibrationLookup.FitLookup` | scripts/droid/v08_calibration.py:63-83 | the lookup zips the edges with the pooled levels; its predictions rise with the score, are never below the isotonic fit, and lie in [0, 1] for zero-one labels, whose number the fit keeps; they are the fit at every score exactly when the first bin, the last one and every bin whose edge exceeds the one before are served their own levels, and always for one-tailed bin means |
| `CalibrationLookup.PredictionsAgreeIff` | scripts/droid/v08_calibration.py:82-90 | the coded and the re-expanded lookup agree at every score exactly when every bin that a score can reach is served its own isotonic level: the last bin, and each whose edge exceeds all edges before it |
| `CalibrationLookup.AscendingEdgesAgreeIff` | scripts/droid/v08_calibration.py:82-90 | for edges that never fall the reachable bins are the first, the last and those whose edge exceeds the one before |
| `CalibrationLookup.OneTailAgrees` | scripts/droid/v08_calibration.py:82-90 | one-tailed bin means make the coded and the re-expanded lookup agree at every score, whatever the edges; with distinct edges they agree only then |
| `CalibrationLookup.LookupEdgesAscend` | scripts/droid/v08_calibration.py:68-81 | the edges of the bins never fall |
| `CalibrationLookup.SamplesMispredicted` | scripts/droid/v08_calibration.py:63-90 | labels 1, 0, 1 at scores 0, 1, 2: the lookup predicts 1 at score 1, where the isotonic fit is one half |
| `CalibrationLookup.TiedEdgesAgree` | scripts/droid/v08_calibration.py:82-90 | bin means 1, 0, 1 with edges 0, 0, 1: the second bin is not served its level, and yet the predictions agree at every score |
| `CalibrationMetrics.Metrics` | scripts/droid/v08_calibration.py:93-111 | the mean squared miss, and the error that, per forecast, adds up over the ten bins how far the misses of each go to one side; it is never below the bias of all forecasts; exactly an empty input has neither |
| `CalibrationMetrics.EceAboveBias` | scripts/droid/v08_calibration.py:101-111 | the calibration error times the number of forecasts is at least the absolute sum of all misses |
| `CalibrationMetrics.EceOfOneBin` | scripts/droid/v08_calibration.py:101-111 | with all forecasts in one bin it is that sum |
| `CalibrationMetrics.BrierOfOne` | scripts/droid/v08_calibration.py:99 | the Brier score of one forecast is its squared miss |
| `CalibrationMetrics.BrierOfBoth` | scripts/droid/v08_calibration.py:99 | joining two samples adds up their Brier scores, each times its size |
| `CalibrationMetrics.ExactlyOneBin` | scripts/droid/v08_calibration.py:102-104 | a prediction in [0, 1] falls into exactly one of the ten bins |
| `CalibrationMetrics.BinsConserve` | scripts/droid/v08_calibration.py:102-111 | the bins' sizes and absolute misses add up to those of all pairs |
| `CalibrationMetrics.EceBounds` | scripts/droid/v08_calibration.py:93-111 | the unrounded calibration error lies in [0, 1] and its square is at most the unrounded Brier score |
| `CalibrationMetrics.EceUnique` | scripts/droid/v08_calibration.py:101-111 | there is one such error |
| `EditDistance.EditDistanceLe2` | scripts/droid/v09_misspell_diag.py:46-61 | true exactly when some insert/delete/substitute script of at most two edits turns one string into the other; the length shortcut and the early abort are sound |
| `EditDistance.LevIsCheapest` | scripts/droid/v09_misspell_diag.py:49-61 | the recursive distance is the least cost of a script without transpositions |
| `EditDistance.AbortIsSound` | scripts/droid/v09_misspell_diag.py:58-59 | when a whole row is at least a bound, so is the distance |
| `EditDistance.LevAtLeastLengthGap` | scripts/droid/v09_misspell_diag.py:47-48 | the distance is at least the difference of the lengths |
| `EditDistance.LevRow` | scripts/droid/v09_misspell_diag.py:51-57 | the inner loop computes the next table row and a lower bound of it |
| `EditDistance.DamerauSimilarity` | scripts/droid/v12_real_corpus_qualify.py:88-114 | what is missing from a similarity of one, times the longer length, is the least cost of a script that turns one string into the other with transpositions of neighbours; the operation estimate is eight per table cell and one per cell of the first row |
| `EditDistance.OsaRow` | scripts/droid/v12_real_corpus_qualify.py:97-112 | one pass of the inner loop computes the next row of the distance table |
| `EditDistance.OsaIsCheapest` | scripts/droid/v12_real_corpus_qualify.py:94-114 | the recursive distance is the least cost of a script that may also transpose neighbours, none of them edited again |
| `EditDistance.SimilarityIsScore` | scripts/droid/v12_real_corpus_qualify.py:88-114 | the similarity is symmetric, lies in [0, 1] and is 1 exactly for equal strings |
| `EditDistance.OsaSymmetric` | scripts/droid/v12_real_corpus_qualify.py:88-114 | the distance is symmetric, by inverting scripts |
| `EditDistance.OsaZeroIffEqual` | scripts/droid/v12_real_corpus_qualify.py:90-91 | the distance is 0 exactly for equal strings |
| `EditDistance.OsaAtMostLonger` | scripts/droid/v12_real_corpus_qualify.py:114 | the distance never exceeds the longer length |
| `Typos.Typo` | scripts/droid/v12_fuzzy_address_qualify.py:301-314 | none exactly without a candidate; otherwise the letters of the middle candidate exchanged, at alignment distance exactly 1 and edit distance exactly 2 |
| `Typos.NeighbourSwapIsOneTransposition` | scripts/droid/v12_fuzzy_address_qualify.py:313 | exchanging two different neighbours is at alignment distance exactly 1 |
| `Typos.SwapCostsTwoEdits` | scripts/droid/v12_fuzzy_address_qualify.py:313 | exchanging any two different characters is at edit distance exactly 2 |
| `Typos.OneEditOnePlace` | scripts/droid/v09_misspell_diag.py:46-61 | with at most one edit, strings of one length differ in one place at most |
| `Typos.Misspell` | scripts/benchmark_authoring/author_shard.py:67-80 | exchanges the first exchangeable pair of letters of the first word that has one, or appends a letter when no word has; on a normalised title the edit distance is 1 or 2 |
| `Typos.ExchangeCostsTwo` | scripts/benchmark_authoring/author_shard.py:72-79 | exchanging letters inside one word is at edit distance exactly 2 in the joined title |
| `Typos.MisspellIsNear` | scripts/benchmark_authoring/author_shard.py:67-80 | what is made of a normalised title differs from it and passes the fuzzy filter |
| `CharIndex.GramsAreWindows` | scripts/droid/v12_real_corpus_qualify.py:81-85 | the grams are, once and in order, the windows of three characters of the framed value, or the whole frame of an empty one |
| `CharIndex.Index.constructor` | scripts/droid/v12_real_corpus_qualify.py:163-178 | the index holds the given surfaces in order, and its postings, for every gram, exactly the surfaces that have it, in ascending order |
| `CharIndex.Index.AddSurface` | scripts/droid/v12_real_corpus_qualify.py:166-178 | adding a surface with its entities and sources keeps the index valid and changes nothing else |
| `CharIndex.Index.Lookup` | scripts/droid/v12_real_corpus_qualify.py:188-260 | saturated exactly when the query has grams and the cap is not positive or their postings exceed it; the scan counts exactly the entries that the cap allows; the reported surfaces are the ranking of the surfaces met, and unsaturated, when every overlap is the size of the gram intersection, that of brute force over all surfaces; the proposals are the ranked entities of the reported surfaces |
| `CharIndex.LookupIn` | scripts/droid/v12_real_corpus_qualify.py:188-226 | the same over the tables, for every query without repeated grams |
| `CharIndex.ScoreAll` | scripts/droid/v12_real_corpus_qualify.py:211-215 | every surface met is scored once, with twice its overlap per gram of query and surface |
| `CharIndex.DiceMeans` | scripts/droid/v12_real_corpus_qualify.py:213-214 | the score is one exactly when every gram of both sides is shared |
| `CharIndex.ReadingOrderMeans` | scripts/droid/v12_real_corpus_qualify.py:195-197 | postings are read shortest first, those of one length in the order of their grams |
| `SurfaceScores.Report` | scripts/droid/v12_real_corpus_qualify.py:216-227 | shortlisting, rescoring by edit similarity and cutting give the reported surfaces |
| `SurfaceScores.ReportedAreBest` | scripts/droid/v12_real_corpus_qualify.py:216-227 | the reported surfaces come by falling score, then in order of surface and id, each with the better of its two scores; a scored surface is left out only behind a full shortlist of 256 or four times the cap, or behind a full report |
| `SurfaceScores.ReportedForgetsOrder` | scripts/droid/v12_real_corpus_qualify.py:211-225 | the order in which surfaces were met does not matter |
| `SurfaceScores.ReportedInUnit` | scripts/droid/v12_real_corpus_qualify.py:213-225 | rescoring keeps every score in [0, 1] |
| `CharIndex.MetIsAll` | scripts/droid/v12_real_corpus_qualify.py:211-215 | once every shared gram was counted, the surfaces met and their scores are those of brute force |
| `EntityProposals.Propose` | scripts/droid/v12_real_corpus_qualify.py:226-246 | the dictionary loop, which replaces a proposal only for a higher score, and the final sort give the first nomination of each entity, ranked and cut |
| `EntityProposals.AcceptIsFirst` | scripts/droid/v12_real_corpus_qualify.py:228-237 | while scores fall, a dictionary that replaces only for a higher score holds the first nomination of each entity |
| `EntityProposals.ProposalsAreBest` | scripts/droid/v12_real_corpus_qualify.py:226-246 | no entity is proposed twice, each with its first nomination, which has its best score; the list is in rank order, and a nominated entity is left out only when every proposal of a full list ranks before it |
| `EntityProposals.NominationsMean` | scripts/droid/v12_real_corpus_qualify.py:227-237 | exactly the entities of the reported surfaces are nominated, with their titles and the surface, sources and score they were found by |
| `EntityProposals.ProposalsInUnit` | scripts/droid/v12_real_corpus_qualify.py:226-246 | with surface scores in [0, 1] every proposal has a score in [0, 1] |
| `PostingLists.Scan` | scripts/droid/v12_real_corpus_qualify.py:191-210 | the capped scan reads exactly the first entries of the posting stream that the cap allows, counts exactly those, and reports saturation exactly when the cap is not positive or the stream is longer |
| `PostingLists.ScanCounts` | scripts/droid/v12_real_corpus_qualify.py:191-210 | what was counted of a surface is at most its gram intersection with the query, and exactly that when the whole stream was read |
| `PostingLists.StreamCounts` | scripts/droid/v12_real_corpus_qualify.py:177-178 | a surface occurs in the posting stream once for every gram it shares with the query |
| `PostingLists.AddPostings` | scripts/droid/v12_real_corpus_qualify.py:177-178 | appending the next surface to the posting of each of its grams keeps the postings exact |
| `UnionRank.FactoryBaseline` | scripts/droid/v12_real_corpus_qualify.py:339-366 | each entity once, with the rank and place of its best candidate, the earliest among equals, all its channels and its first title; best rank first, then earliest place |
| `UnionRank.Union` | scripts/droid/v12_real_corpus_qualify.py:369-414 | the result is the top 32 of the union without duplicates: scores fall, and among equals come entities with a factory channel, then earlier places, then folded titles and ids in order; with the exact number of entities before the cap and of accepted proposals |
| `UnionRank.BaselineOrderKept` | scripts/droid/v12_real_corpus_qualify.py:404-414 | two factory entities that no accepted proposal names keep their baseline order in the ranking, and the cap never drops the first before the second |
| `UnionRank.BaselineAloneKept` | scripts/droid/v12_real_corpus_qualify.py:404-414 | without accepted proposals the ranking of factory entities is the head of the baseline |
| `UnionRank.UnionScores` | scripts/droid/v12_real_corpus_qualify.py:384-403 | the score of an entity is the greatest of its baseline score and the weighted scores of its accepted proposals |
| `UnionRank.UnionStep` | scripts/droid/v12_real_corpus_qualify.py:379-403 | one accepted proposal changes its own entity as specified and no other |
| `UnionRank.UnionMembers` | scripts/droid/v12_real_corpus_qualify.py:377-403 | the union holds exactly the entities of the baseline and of accepted proposals, and no baseline entity loses score or channels |
| `UnionRank.FuzzyStaysBehindExact` | scripts/droid/v12_real_corpus_qualify.py:404-413 | with character scores in [0, 1] and weight at most 1, no entity that only proposals brought in is ranked before one reached by title, redirect or alias |
| `UnionRank.CapKeepsExactFirst` | scripts/droid/v12_real_corpus_qualify.py:404-414 | such an entity is only cut off by a full top of baseline entities |
| `UnionRank.RankQuery` | scripts/droid/v12_real_corpus_qualify.py:339-414 | baseline and union together, at most 32 in order; without accepted proposals and fuzzy channels it is the head of the baseline; with scores in range, an entity reached by title, redirect or alias is in the top, or the top is full of baseline entities |
| `UnionRank.ExactHasFullScore` | scripts/droid/v12_real_corpus_qualify.py:346-366 | a baseline entity reached by title, redirect or alias has rank score at least 1 |
| `UnionRank.AheadIsStrict` | scripts/droid/v12_real_corpus_qualify.py:404-413 | the ranking order is strict between different entities |
| `UnionRank.SortedPrefixIsTop` | scripts/droid/v12_real_corpus_qualify.py:404-414 | a prefix of the sorted values is the top, whatever order the dictionary lists them in |
| `SectionBlocks.CutSection` | scripts/droid/v09_parallel_ingest.py:136-176 | the loop cuts the blocks that the recursion defines, for every block length; for a positive one they start at the section, follow on each other, end at its end, and each but the last is cut at the last newline of the second half of its window or is a whole window; a length that is not positive and does not reach behind the start of the page gives empty blocks |
| `SectionBlocks.BlockEnd` | scripts/droid/v09_parallel_ingest.py:139-143 | one block ends where the rule says; a negative length that reaches behind the start of the page ends it at a newline, or where the slice counts from the end |
| `SectionBlocks.SectionIsTiled` | scripts/droid/v09_parallel_ingest.py:136-176 | the blocks concatenate to the section when the block length is positive or the section is empty, and, unless a negative length reaches behind the start of the page, only then |
| `SectionBlocks.NegativeLength` | scripts/droid/v09_parallel_ingest.py:136-176 | at block length -2 a page of four characters without newlines is cut into its first two and its middle two, which are the page exactly when the last three characters are alike |
| `SectionBlocks.CutText` | scripts/droid/v09_parallel_ingest.py:136-176 | the blocks of a section concatenate to its text |
| `SectionBlocks.BlockCount` | scripts/droid/v09_parallel_ingest.py:136-176 | every block but the last is longer than half the block length and none is longer than it, which bounds their number from both sides |
| `SectionBlocks.CutPage` | scripts/droid/v09_parallel_ingest.py:128-137 | every section between the headings is cut by the rule |
| `SectionBlocks.PageIsTiled` | scripts/droid/v09_parallel_ingest.py:128-176 | blocks and headings together are the page: no character is lost or repeated |
| `Ingest.ProcessRange` | scripts/droid/v09_parallel_ingest.py:95-193 | a shard holds the rows of exactly the pages with index in its range, in order |
| `Ingest.RangesPartition` | scripts/droid/v09_parallel_ingest.py:381-384 | the ranges of the workers cover the pages below the limit once and in order |
| `Ingest.MergeShards` | scripts/droid/v09_parallel_ingest.py:267-296 | inserting shard by shard, first row of a key wins, gives the store of one shard over all the pages |
| `Ingest.StoreHolds` | scripts/droid/v09_parallel_ingest.py:95-193 | a build stores the search rows and redirects of all pages end to end, their anchors together, how much was read, and in each keyed table, from the rows of that kind alone, the first of every key |
| `Ingest.IngestParallel` | scripts/droid/v09_parallel_ingest.py:372-410 | for every requested number of workers the store is that of one worker over the pages below the limit |
| `Ingest.IngestSerial` | src/aethersparse/traversal/corpus.py:205-326 | the serial build reads pages one by one, skips those whose document is stored, and looks at the limit after each |
| `ShardBenchmark.LeastIsSmallest` | scripts/droid/v09_shard_benchmark.py:68 | the sort key of a group is its smallest id |
| `Ingest.SerialIsParallelOfFirst` | src/aethersparse/traversal/corpus.py:216-237 | up to the semantic keys a serial build is a parallel build of the first page of each document; with them exactly when the two digests agree on the words of every stored chunk |
| `Ingest.SerialEqualsParallelIff` | scripts/droid/v09_parallel_ingest.py:280-284 | on the same pages the two stores agree up to the semantic keys exactly when no document is repeated, and wholly exactly when in addition the two digests agree on the words of every stored chunk |
| `Ingest.ParallelRefinesSerialIff` | scripts/droid/v09_parallel_ingest.py:372-410 | for a dump and a limit the two builds agree up to the semantic keys exactly when the limit is positive or absent or the dump empty, and no document is repeated among the pages read; they agree wholly exactly when in addition the two digests agree on the words of the first chunk of every key |
| `Ingest.DigestsApart` | scripts/droid/v09_parallel_ingest.py:152-154 | digests that never agree leave equal stores only where those conditions hold and no chunk is read |
| `Ingest.OneChunkTellsDigestsApart` | src/aethersparse/traversal/corpus.py:273-275 | a dump of one page with one chunk: the stores agree up to the semantic key, and wholly exactly when the digests of its word agree |
| `Ingest.InsertDigested` | scripts/droid/v09_parallel_ingest.py:275-278 | digesting rows before or after they are inserted gives the same table |
| `Ingest.RepeatedPage` | scripts/droid/v09_parallel_ingest.py:280-284 | a page that is twice in the dump is counted once by the serial build and twice by the parallel one |
| `RoundRobin.SelectQueries` | scripts/build_v050_edge_queries.py:39-57 | refused exactly for a limit outside 8 to 256; otherwise a prefix of every category's eligible cases is selected, in turns, as many as the limit or all, and nothing else |
| `RoundRobin.EligibleSelects` | scripts/build_v050_edge_queries.py:47-50 | the eligible cases are those held out with an outcome, in benchmark order |
| `RoundRobin.QueueSelects` | scripts/build_v050_edge_queries.py:51 | a queue holds exactly the cases of its category, in their order |
| `RoundRobin.NamesMean` | scripts/build_v050_edge_queries.py:53 | the categories in use take turns in the order of their names |
| `RoundRobin.TurnsInOrder` | scripts/build_v050_edge_queries.py:54-57 | what a queue gives in a round stands behind exactly what the turns before it gave |
| `RoundRobin.Select` | scripts/build_v050_edge_queries.py:54-57 | the loop takes whole rounds and the first turns of one more, min(limit, total) items |
| `RoundRobin.TurnsTakePrefixes` | scripts/build_v050_edge_queries.py:54-57 | the turns take exactly a prefix of every queue |
| `RoundRobin.TurnsAreFair` | scripts/build_v050_edge_queries.py:54-57 | a category with cases left is at most one behind any other and behind none after it |
| `RoundRobin.QueuesHoldAll` | scripts/build_v050_edge_queries.py:47-53 | the category queues together hold every eligible case, each as often as it occurs |
| `Sorting.SortUnique` | scripts/droid/v09_parallel_eval.py:139 | sorting forgets the input order when ties are impossible |
| `Sorting.SortStable` | scripts/droid/v09_parallel_eval.py:77 | sorting keeps the order of values that the comparison does not tell apart |

## Left out

- The `margin` discourse gate: its fit depends on the order of the stream, and the parallel script excludes it.
- Candidate pool provenance, latencies, I/O counters, per-partition and per-category tallies, and the counters of
  applied and suppressed carries: they do not influence the records or the overall recall.
- The retrieval runtime, the query framer, the controller, the verifier and the models they load.
- Processes, files, JSON, gzip, SQLite transactions and indexes: shards are values handed from one method to the next.
- Regular expressions, Unicode normalisation and case folding: headings are given spans, texts are sequences of
  characters.
- Hashes: document and chunk ids are given keys, digests are any functions of strings; the digests of packs and
  benchmarks are compared where the merge compares them, and computed nowhere.
- Rounding of floating point sums and of reported figures; the reliability curve, coverage thresholds and base rate.
- The global steps after the tables of a build are loaded (redirect folding, anchor aliases, the link update, the
  manifest): both builds apply the same ones to the stores compared here, and none of them reads a semantic key.
- Negative proposal caps, for which Python slices count from the end.
- `SectionBlocks.SectionIsTiled`: for a negative block length that reaches behind the start of the page it does not
  say when the section is kept, which depends on how the text repeats itself; `NegativeLength` gives the condition
  for pages of four characters.
- The collapse of alias rows into surfaces: the index starts from the collapsed surfaces in order, each with its
  entities and sources. The enumeration of query spans around the lookup.
- `CharIndex.Index.Lookup`: does not return the estimates of integer operations and of bytes read, which are sums
  over what it does return.
- `UnionRank.Union`: the matched surface and its sources are not carried along; they do not influence the ranking.
- `ShardMerge.Merge`: the metric matrix and the aggregated supplement are not computed.
- `Typos.Misspell`: states a distance to the title only for titles that splitting and joining leave alone; on others
  the joined words also lose white space, and the distance is stated to them.
- `ShardBenchmark.Split`: shards are case lists; freezing and hashing them is not modelled.
- The second instance of the calibration error in `scripts/droid/v11_entity_specialist.py`: the same sums, and a
  logarithmic loss.
- The ranking oracle, the implicit mention matcher and the grouping by partition: short loops whose promises can be
  read off their bodies.
- Registries, audits, readiness reports, semantic search and embedding scripts.
