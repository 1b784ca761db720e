# Models of the Magic kernel's benchmarks, replay tools and build capture

This project states and proves, in Dafny 4.11, what several self-contained
algorithms of the repository promise. `dafny verify dfyconfig.toml` checks all
of it.

* **Exact-order linear kernel** (`LinearSpec`, `NaiveKernel`, `TiledKernel`,
  `TiledRuns`, `TiledCompletion`). The arithmetic is an arbitrary `zero`, `add` and `mul` without
  any laws. The tiled CUDA kernel is a state machine: every thread of every
  block has a program counter at single loads, reads, multiply-adds and stores,
  two barriers per tile, and any scheduler. A finished run, whatever the
  interleaving, has written each output once and equals the naive kernel; it
  never deadlocks, and every run can be completed within a stated bound.
* **No-replace publication** (`Publication`, `PublicationRuns`,
  `PublicationCollisions`). Any number of publishers in any number of processes
  take single file operations over a directory of names and a store of inodes, so
  a hard link shares content. Any operation but taking a nonce may fail at any
  time, and a write may be split arbitrarily. Temporary names are the formatted
  texts, in the same name space as the destinations.
* **Canonical encoders** (`Json`, `CanonicalJson`, `Framing`, `Sorting`). The
  canonical writer is proved against a parser of the JSON grammar; the framed
  digest streams are proved injective.
* **Sampling and workload** (`Selection`, `Hamilton`, `Histogram`, `Workload`).
  Integer apportionment of 2^64, inverse-CDF selection, how far two mass vectors
  can disagree, percentiles of a histogram, and the cumulative choice of a
  workload case.
* **Branch driver** (`Trace`, `IdMap`, `Window`, `CastWindow`, `Targets`, `Combat`,
  `Replay`, `Setup`, `Driver`).
  The engine is a record of arbitrary functions. A class holds the per-seat
  cursors and the growing UUID map; its history of consumed records and played
  actions is a ghost field. What replay and the driver compute is stated by
  functions of the recording and the engine, the methods are proved to compute
  exactly that, and the safety of whole runs is proved about the functions. What
  the helper functions mean is stated by relations that do not mention them: the
  queue of a seat, the action a candidate or a combat record stands for, the
  order in which UUIDs are learned, what a boundary lists.
* **Shuffle and seeds** (`Shuffle`, `Seeds`). The in-place Fisher-Yates loop,
  seed partitions on the 64-bit circle and the accounting of outcomes.
* **Build capture** (`RustcVerbose`, `VersionText`, `Calendar`, `Features`). The verbose
  compiler-version grammar with an exact acceptance theorem, and Cargo feature
  names.

In one place the code differs from its own words: the logit check
(`bench_fast_sampler.rs:1239-1245`) announces eight lower-case hex digits but
also admits upper case and a leading plus sign; the model follows the code.

One promise holds on a condition. Publication by itself admits a destination
whose text is the temporary name of another publication, such as
`.e.json.tmp.7.0` beside `e.json` in process 7. Such a destination can appear
partial, disappear again, or get no winner; the theorems of
`PublicationCollisions` say that this happens exactly to such names. Both callers
demand names that end in `.json`, which no temporary name does.

Some error branches can never be taken, and are proved so: the weighted-sum
overflow of `profile_histogram_statistics`, the "unexpected None" capture error,
the fail-closed checks of the apportionment, the two "not total"
errors of the inverse CDF on apportioned masses, and the `expect` of
`logits_for` after a load.

Every lemma carries `{:induction false}`: inductions are only those the proofs
spell out.

## Model

| member | source | states |
|---|---|---|
| LinearSpec.ProductIsUnique | mtg-kernel/examples/gpu_infer_microbench_v1.rs:6-8 | the exact-order product determines the whole output buffer |
| LinearSpec.RowIsBatchInvariant | mtg-kernel/examples/gpu_infer_microbench_v1.rs:6-8 | an output row depends only on that row of x and on w, not on the rest of the batch or its size |
| NaiveKernel.NaiveThread | mtg-kernel/examples/gpu_infer_microbench_v1.rs:26-37 | one naive thread writes its own cell with the ascending-K fold and nothing else |
| NaiveKernel.LaunchNaive | mtg-kernel/examples/gpu_infer_microbench_v1.rs:220-225 | the naive launch geometry fills the whole output with the product, in whatever order its threads run |
| NaiveKernel.RowMismatches | mtg-kernel/examples/gpu_infer_microbench_v1.rs:270-283 | the host reference loop counts exactly the columns at which either buffer misses the reference |
| NaiveKernel.CountDifferences | mtg-kernel/examples/gpu_infer_microbench_v1.rs:284-288 | the count is the number of differing positions, zero exactly for equal buffers |
| NaiveKernel.LinearBitsReport | mtg-kernel/examples/gpu_infer_microbench_v1.rs:267-292 | the two figures are those exact counts, and both are zero whenever both buffers hold the product, for any arithmetic |
| TiledKernel.PadDotIsDot | mtg-kernel/examples/gpu_infer_microbench_v1.rs:57-60 | no padding zero reaches the fold of a cell inside the matrix |
| TiledKernel.OthersOnSameTile | mtg-kernel/examples/gpu_infer_microbench_v1.rs:52-71 | while a thread computes on a tile every thread has staged it and none has begun the next |
| TiledKernel.ReadSeesCurrentTile | mtg-kernel/examples/gpu_infer_microbench_v1.rs:66-67 | every shared read returns the current tile’s value |
| TiledKernel.NoSharedMemoryRace | mtg-kernel/examples/gpu_infer_microbench_v1.rs:53-67 | staging never coexists with computing in a block, and two threads never stage one cell |
| TiledKernel.BarriersAreUniform | mtg-kernel/examples/gpu_infer_microbench_v1.rs:62-71 | threads held at the same barrier count are held at the same barrier statement of the same tile |
| TiledKernel.BlockStepKeepsInv | mtg-kernel/examples/gpu_infer_microbench_v1.rs:40-81 | every enabled step of a thread keeps the block invariant on accumulators, registers, shared tiles and barriers |
| TiledRuns.OwnerIsTheStorer | mtg-kernel/examples/gpu_infer_microbench_v1.rs:73-79 | an output cell is stored by exactly one register of one thread of one block |
| TiledRuns.StepKeepsInv | mtg-kernel/examples/gpu_infer_microbench_v1.rs:38-81 | every step of the whole grid keeps the invariant of each block and each output cell |
| TiledRuns.RunKeepsInv | mtg-kernel/examples/gpu_infer_microbench_v1.rs:38-81 | the same over every run of every interleaving |
| TiledRuns.TiledRefinesNaive | mtg-kernel/examples/gpu_infer_microbench_v1.rs:38-81 | whatever the interleaving, a finished tiled run has written every cell exactly once, with the naive kernel’s fold |
| TiledRuns.ResultIsScheduleIndependent | mtg-kernel/examples/gpu_infer_microbench_v1.rs:241-247 | two finished runs from any two initial contents of shared memory, registers and output agree |
| TiledRuns.NoDeadlock | mtg-kernel/examples/gpu_infer_microbench_v1.rs:62-71 | an unfinished reachable grid always has an enabled thread, so the barriers never deadlock |
| TiledRuns.TurnsAreBounded | mtg-kernel/examples/gpu_infer_microbench_v1.rs:52-80 | no run goes on for ever: a linear bound in k on the turns of each thread |
| TiledCompletion.RunsAreBounded | mtg-kernel/examples/gpu_infer_microbench_v1.rs:52-80 | from launch no run is longer than the number of threads times a linear function of k |
| TiledCompletion.RunsCanBeCompleted | mtg-kernel/examples/gpu_infer_microbench_v1.rs:52-80 | however a run from launch began, it can be continued to a finished one within the bound |
| TiledCompletion.LaunchFinishes | mtg-kernel/examples/gpu_infer_microbench_v1.rs:38-81 | so every launch has finished runs, and they compute the product |
| Publication.StepKeepsInv | mtg-kernel/examples/bench_fast_sampler.rs:1719-1757 | every file operation of every publisher, faulty or not, keeps the protocol invariant |
| Publication.RunKeepsInv | mtg-kernel/examples/bench_fast_sampler.rs:1719-1757 | the same over every interleaving of any number of publishers |
| Publication.AtMostOneWinner | mtg-kernel/examples/bench_fast_sampler.rs:1743-1744 | of the callers with one destination at most one has returned Ok, faults or not |
| Publication.OkMeansPublished | mtg-kernel/examples/bench_fast_sampler.rs:1743-1748 | Ok means the destination was absent at the start and now holds exactly the caller’s payload |
| Publication.NeverPartial | mtg-kernel/examples/bench_fast_sampler.rs:1738-1744 | at any moment a name shows what it did at the start, the whole payload of a publisher that linked it, or is a temporary that somebody created |
| Publication.DestinationIsFinal | mtg-kernel/examples/bench_fast_sampler.rs:605-610 | a name, once present and not somebody’s temporary, never changes, whether found at the start or published along the way |
| Publication.TempFileInjective | mtg-kernel/examples/bench_fast_sampler.rs:1732-1732 | the text of a temporary name determines its destination’s file name, the process and the nonce |
| PublicationRuns.ExactlyOneWinner | mtg-kernel/examples/bench_fast_sampler.rs:1719-1757 | without faults, stale temporaries or colliding names each wanted absent destination gets exactly one winner and no temporary remains |
| PublicationRuns.NobodyBlocks | mtg-kernel/examples/bench_fast_sampler.rs:1719-1757 | an unfinished publisher can always move, and each move brings it nearer to returning |
| PublicationRuns.RunsAreBounded | mtg-kernel/examples/bench_fast_sampler.rs:1719-1757 | no run is longer than the payload bytes plus seven steps per publisher |
| PublicationRuns.RunsCanBeCompleted | mtg-kernel/examples/bench_fast_sampler.rs:1719-1757 | however a run began, it can be continued without faults, within the bound, until everyone has returned |
| PublicationRuns.StartFinishes | mtg-kernel/examples/bench_fast_sampler.rs:1719-1757 | so such runs exist from every start, and in them every wanted absent destination has its winner |
| PublicationCollisions.FinalExactlyWhenClear | mtg-kernel/examples/bench_fast_sampler.rs:1732-1744 | a name, once present, never changes in any run exactly when it is no temporary name of the jobs |
| PublicationCollisions.WholeExactlyWhenClear | mtg-kernel/examples/bench_fast_sampler.rs:1732-1744 | a name is never partial in any run exactly when it is no temporary name of the jobs |
| PublicationCollisions.WonExactlyWithoutCollision | mtg-kernel/examples/bench_fast_sampler.rs:1719-1757 | every wanted absent destination gets one winner in all finished runs without faults exactly when no destination is a temporary name of the jobs |
| PublicationCollisions.CollidingNames | mtg-kernel/examples/bench_fast_sampler.rs:1732-1744 | two destinations for which all three fail |
| PublicationCollisions.JsonDestinationsAreSafe | mtg-kernel/examples/bench_fast_sampler.rs:509-528 | with names that end in `.json`, which both callers demand, all three hold |
| Json.ScanNumberStops | mtg-kernel/examples/bench_fast_sampler.rs:1670-1670 | a number token ends where its text ends, so a printed number is read back whole |
| Json.QuotedStringParses | mtg-kernel/examples/bench_fast_sampler.rs:1671-1671 | a string printed with escapes parses back to itself, whatever follows |
| Json.EscapeIsShortest | mtg-kernel/examples/bench_fast_sampler.rs:1671-1671 | no other JSON text spells a character in fewer characters than its escape |
| Json.ParsePrint | mtg-kernel/examples/bench_fast_sampler.rs:1663-1698 | a parser of the grammar in sections 3 to 7 of RFC 8259 inverts the printer on every valid value |
| CanonicalJson.NormIsValid | mtg-kernel/examples/bench_fast_sampler.rs:1682-1683 | sorting object keys at every depth keeps a value valid |
| CanonicalJson.ParseCanon | mtg-kernel/examples/bench_fast_sampler.rs:1662-1702 | canonical output parses back to the value with sorted keys and leaves nothing over |
| CanonicalJson.CanonIsCanonical | mtg-kernel/examples/bench_fast_sampler.rs:1704-1710 | two records have equal canonical bytes if and only if they are equal up to key order at every depth |
| CanonicalJson.NormAscends | mtg-kernel/examples/bench_fast_sampler.rs:1682-1684 | sorting makes the keys of every object at every depth strictly ascend |
| CanonicalJson.CanonicalFormIsUnique | mtg-kernel/examples/bench_fast_sampler.rs:1663-1698 | ascending keys and equality up to key order leave one value, so they determine the whole text |
| CanonicalJson.WriteValue | mtg-kernel/examples/bench_fast_sampler.rs:1663-1698 | the recursive writer appends exactly the canonical text to the output buffer |
| CanonicalJson.WriteMembers | mtg-kernel/examples/bench_fast_sampler.rs:1681-1694 | the object branch appends the text of the one value equal up to key order whose keys ascend at every depth |
| CanonicalJson.CanonicalText | mtg-kernel/examples/bench_fast_sampler.rs:1662-1702 | the buffer that is hashed reads back, with nothing left over, as a value equal to the record up to key order in which keys strictly ascend, character by character, at every depth |
| Selection.PicksIsUnique | mtg-kernel/examples/fast_sampler_diagnostic.rs:382-391 | a draw falls in the interval of at most one index |
| Selection.SelectMass | mtg-kernel/examples/fast_sampler_diagnostic.rs:382-391 | selects the index whose interval holds the draw, and fails exactly on draws beyond the total |
| Selection.DrawsPerIndex | mtg-kernel/examples/fast_sampler_diagnostic.rs:382-391 | exactly masses[i] of the 2^64 draws select index i |
| Selection.EveryDrawPicks | mtg-kernel/examples/fast_sampler_diagnostic.rs:382-391 | every draw below the total selects some index |
| Selection.DisagreementLowerBound | mtg-kernel/examples/fast_sampler_diagnostic.rs:404-431 | at least half the summed mass difference of the 2^64 draws select differently |
| Selection.DisagreementUpperBound | mtg-kernel/examples/fast_sampler_diagnostic.rs:404-431 | at most the summed distance of the cumulative masses of the draws select differently |
| Selection.CompareCase | mtg-kernel/examples/fast_sampler_diagnostic.rs:397-431 | with two apportionments no selection fails, and the agreement count is the number of draws on which both select one index |
| Hamilton.HamiltonIsUnique | mtg-kernel/src/fast_sampler.rs:165-213 | floors plus one unit for the largest remainders, ties by index, all written out on the weights, determine the masses |
| Hamilton.HeavierGetsNoLess | mtg-kernel/src/fast_sampler.rs:165-213 | a strictly heavier action never receives less mass |
| Hamilton.ResidualIsSmall | mtg-kernel/src/fast_sampler.rs:191-206 | the residual is less than the width, so the range check never fails |
| Hamilton.SortByRemainder | mtg-kernel/src/fast_sampler.rs:174-189 | the in-place insertion sort leaves a permutation in line order: remainder descending, then index |
| Hamilton.Apportion | mtg-kernel/src/fast_sampler.rs:158-218 | every fail-closed check passes and the result is the Hamilton apportionment of 2^64 |
| Hamilton.Sample | mtg-kernel/src/fast_sampler.rs:223-236 | sampling never fails and picks the index to which the one apportionment gives the draw |
| Hamilton.ShareOfDraws | mtg-kernel/src/fast_sampler.rs:165-213 | an action’s mass is within one of weight / total of the 2^64 draws |
| Histogram.ExpandIsSorted | mtg-kernel/examples/bench_fast_sampler.rs:1043-1061 | the sample a histogram stands for is ascending |
| Histogram.ExpandHolds | mtg-kernel/examples/bench_fast_sampler.rs:1043-1061 | the sample holds each width as often as its entry says and no other width |
| Histogram.RankIsP95 | mtg-kernel/examples/bench_fast_sampler.rs:1066-1080 | in an ascending sample the element at the least rank that covers 95 per cent is the percentile |
| Histogram.P95IsUnique | mtg-kernel/examples/bench_fast_sampler.rs:1066-1080 | a sample has one nearest-rank 95th percentile |
| Histogram.ProfileStatistics | mtg-kernel/examples/bench_fast_sampler.rs:1043-1087 | accepts exactly the admitted histograms whose target fits 64 bits; count, sum and maximum are those of the expanded sample, and at least 95 per cent of it lie at or below the p95 but fewer below; the weighted-sum overflow branch is unreachable |
| Histogram.RunningSumFits | mtg-kernel/examples/bench_fast_sampler.rs:1072-1075 | at every entry the running sum is at most the sample count, which fits 64 bits |
| Histogram.FindRank | mtg-kernel/examples/bench_fast_sampler.rs:1072-1080 | the percentile loop always finds a width, the element at the target rank, and its running 64-bit sum cannot wrap |
| Workload.ParseHexAccepts | mtg-kernel/examples/bench_fast_sampler.rs:1239-1245 | what the radix-16 parser accepts, digit by digit |
| Workload.EncodingsAdmitted | mtg-kernel/examples/bench_fast_sampler.rs:1239-1245 | exactly which texts the check admits: eight hex digits of either case or a plus sign and seven, that do not spell an infinity or a NaN |
| Workload.EncodingCheckIsLaxerThanItsMessage | mtg-kernel/examples/bench_fast_sampler.rs:1239-1245 | two encodings that the check admits although the message asks for lower-case digits |
| Workload.LoadCase | mtg-kernel/examples/bench_fast_sampler.rs:1228-1266 | one round of the loading loop extends the running totals, or fails only where the file cannot be accepted |
| Workload.LoadWorkload | mtg-kernel/examples/bench_fast_sampler.rs:1213-1278 | succeeds exactly on files of schema 2 whose profile has the count, 95th percentile and maximum it states and whose kept cases and histogram entries correspond one to one in width and count |
| Workload.MapsDecide | mtg-kernel/examples/bench_fast_sampler.rs:1268-1272 | comparing the two maps decides that correspondence |
| Workload.KeptIsSelected | mtg-kernel/examples/bench_fast_sampler.rs:1229-1231 | the cases that take part are those with a positive count, in file order |
| Workload.LogitsFor | mtg-kernel/examples/bench_fast_sampler.rs:184-191 | no ordinal fails: the first case whose bound exceeds the reduced ordinal always exists |
| Workload.LoadedServes | mtg-kernel/examples/bench_fast_sampler.rs:1273-1278 | a loaded workload ends with its total weight, which is all that serving needs |
| Workload.ServedCase | mtg-kernel/examples/bench_fast_sampler.rs:184-191 | the case served is the one whose interval of the cumulative counts holds the reduced ordinal |
| Workload.WindowIsExact | mtg-kernel/examples/bench_fast_sampler.rs:184-191 | in every window of total-weight consecutive ordinals each case is chosen exactly its count of times |
| Workload.ServedAsProfiled | mtg-kernel/examples/bench_fast_sampler.rs:1270-1272 | so each accepted case is served as often per window as the profile’s histogram says |
| Shuffle.ShuffleIsPermutation | mtg-kernel/examples/bench_kernel.rs:173-180 | every choice sequence gives a permutation |
| Shuffle.ChoicesAreDetermined | mtg-kernel/examples/bench_kernel.rs:173-180 | on a duplicate-free list different choices give different permutations |
| Shuffle.EachPermutationOnce | mtg-kernel/examples/bench_kernel.rs:173-180 | on a duplicate-free list each permutation arises from exactly one choice sequence |
| Shuffle.StreamsReachAllChoices | mtg-kernel/examples/bench_kernel.rs:173-180 | every choice sequence comes from some random stream |
| Shuffle.ShuffleInPlace | mtg-kernel/examples/bench_kernel.rs:173-180 | the in-place loop computes the recursive shuffle of its stream |
| Shuffle.Shuffled | mtg-kernel/examples/bench_kernel.rs:173-180 | the shuffled copy is a permutation of the deck for every stream |
| Shuffle.OrderTriggers | mtg-kernel/examples/bench_kernel.rs:415-422 | the trigger-order loop yields a valid ordering of 0..n for every stream |
| Shuffle.EveryTriggerOrderIsReachable | mtg-kernel/examples/bench_kernel.rs:415-422 | every trigger ordering comes from some stream |
| Seeds.SeedsAreInjective | mtg-kernel/examples/bench_kernel.rs:554-569 | for a fixed base no two games of different phase, actor or index share a seed, despite wrap-around |
| Seeds.SeedsAreSurjective | mtg-kernel/examples/bench_kernel.rs:554-569 | every 64-bit value is the seed of some phase, actor and index |
| Seeds.SeedPosition | mtg-kernel/examples/bench_kernel.rs:554-569 | going up from the base, measured games take the lower half of the 64-bit circle and warm-up the upper half, 2^55 seeds to an actor |
| Seeds.RunLane | mtg-kernel/examples/bench_kernel.rs:776-840 | one actor’s counters are the exact tally of its games, conserved, with pairwise different seeds; only the decision total may saturate |
| Seeds.AddLanes | mtg-kernel/examples/bench_kernel.rs:887-936 | over all actors no count of games saturates (the decision total is clamped) and the closing conservation assertion holds in its saturating form |
| IdMap.StartIsGapFree | mtg-kernel/examples/branch_diff.rs:216-239 | distinct UUIDs matching the libraries are bound to their own places; the map is injective and gap-free |
| IdMap.BuildIdMap | mtg-kernel/examples/branch_diff.rs:216-239 | the loops compute exactly the starting map: both decks bound one after the other |
| IdMap.LowestFreeIsNext | mtg-kernel/examples/branch_diff.rs:255-260 | without gaps the lowest unbound token object directly follows the bound ones |
| IdMap.LearnOneLearns | mtg-kernel/examples/branch_diff.rs:247-264 | looking at one UUID keeps every binding, injectivity and gap-freedom, and binds no seat, sentinel or empty string |
| IdMap.LearnedLearns | mtg-kernel/examples/branch_diff.rs:241-267 | the same over any sequence of records |
| IdMap.LearnedInTurn | mtg-kernel/examples/branch_diff.rs:241-267 | the new UUIDs take the free token objects one after the other, in the order of their first mention, as far as these go, and nothing else is bound |
| IdMap.MentionedAreParts | mtg-kernel/examples/branch_diff.rs:241-247 | a record mentions what lies between the arrows of its candidates’ UUIDs, then of the chosen ones, in order |
| IdMap.NewUuidIsBound | mtg-kernel/examples/branch_diff.rs:247-264 | a new UUID is bound exactly when a token object is still free, and to the lowest |
| Basics.DecimalInjective | mtg-kernel/examples/branch_diff.rs:433-438 | decimal text identifies the number |
| Basics.DecimalReadsBack | mtg-kernel/examples/branch_diff.rs:433-438 | decimal text is the number’s digits without a leading zero |
| Window.InsertAllKeys | mtg-kernel/examples/branch_diff.rs:484-517 | the ordered map holds exactly the inserted keys |
| Window.WindowKeysAreReported | mtg-kernel/examples/branch_diff.rs:627-658 | the keys matched during replay are the keys reported at boundaries, sorted and without repeats |
| Window.WindowActionsAreListed | mtg-kernel/examples/branch_diff.rs:484-517 | every entry of the window is an action the decision listed, under its own key |
| CastWindow.KeysTellApart | mtg-kernel/examples/branch_diff.rs:369-415 | keys tell two actions apart exactly when kind, card name, zone class or ability number do |
| CastWindow.CandidateActionIsBucket | mtg-kernel/examples/branch_diff.rs:369-415 | a candidate names the object’s plot where its text says so, else the first kind in the order land, spell, mana, ability, plot |
| CastWindow.FoundIsFirst | mtg-kernel/examples/branch_diff.rs:488-525 | of the listed actions with one key the window takes the first in its list |
| CastWindow.ReportedKeysRead | mtg-kernel/examples/branch_diff.rs:626-658 | a key is reported exactly when it is that of a listed action |
| CastWindow.KeysMatchExactly | mtg-kernel/examples/branch_diff.rs:1226-1243 | the sorted keys agree exactly when the candidates name one action for each class of listed actions that the recording can tell apart |
| CastWindow.ChoiceIsUnique | mtg-kernel/examples/branch_diff.rs:1244-1258 | a chosen candidate means one action: the first listed one like the action it names |
| Window.TranslateCandidates | mtg-kernel/examples/branch_diff.rs:409-431 | the objects of the recorded candidates, failing exactly on an unknown UUID |
| Window.TraceKeys | mtg-kernel/examples/branch_diff.rs:519-537 | the keys of the recorded candidates in order, failing exactly when one is in no bucket |
| Window.MatchedWindow | mtg-kernel/examples/branch_diff.rs:1246-1256 | once sorted keys agree the recorded keys are free of repeats, cover all offered keys and each resolves to an offered action |
| Window.ResolveCast | mtg-kernel/examples/branch_diff.rs:1236-1262 | succeeds exactly when the lists match and the index is in range; the action was listed and has the candidate’s key |
| Targets.TargetKeyInjective | mtg-kernel/examples/branch_diff.rs:433-439 | target keys identify targets |
| Targets.SameKeysSameTargets | mtg-kernel/examples/branch_diff.rs:1489-1500 | comparing sorted keys compares the targets as multisets |
| Targets.TranslateDenotes | mtg-kernel/examples/branch_diff.rs:1472-1490 | a UUID stands for the first seat, else the second seat, else the object bound to it |
| Targets.ResolveTraceTarget | mtg-kernel/examples/branch_diff.rs:1472-1506 | succeeds exactly when the recorded targets rearrange the legal ones and the index is in range; the target is legal |
| Targets.ResolveCostTarget | mtg-kernel/examples/branch_diff.rs:1288-1312 | the same for a cost’s objects |
| Replay.ResolveCandidate | mtg-kernel/examples/branch_diff.rs:1213-1312 | one candidate of a cast, target or cost decision resolves exactly when the lists match and the index is in range, to the one action it determines |
| Replay.ResolutionIsListed | mtg-kernel/examples/branch_diff.rs:1213-1312 | a matching candidate always resolves, to a listed action that it stands for |
| Replay.ResolveRecorded | mtg-kernel/examples/branch_diff.rs:1213-1444 | finds that action, and fails exactly when there is none |
| Replay.RecordedFollows | mtg-kernel/examples/branch_diff.rs:1213-1444 | there is an action exactly when the record is of the decision’s kind, its candidates match and what it chose is in range; it is listed and is what the record did: in combat the chosen creatures up to the first DONE, otherwise the candidate at the first chosen index |
| Replay.FollowsOne | mtg-kernel/examples/branch_diff.rs:1213-1444 | state, decision, record and map leave one action that the record can have done |
| Replay.FollowPlays | mtg-kernel/examples/branch_diff.rs:1201-1459 | a followed record fits the state, and the engine is given the action it did under the map learned from it |
| Combat.SplitOnceIsPair | mtg-kernel/examples/branch_diff.rs:1535-1538 | a block pair is split at its first arrow, and fails to split exactly without one |
| Combat.CandidatesAreFound | mtg-kernel/examples/branch_diff.rs:1510-1549 | combat candidates translate exactly when each ends the list, is a bound UUID, or is a pair of bound UUIDs; a pair stands for its first |
| Combat.ChoiceDeclares | mtg-kernel/examples/branch_diff.rs:1551-1567 | a declaration holds the creatures of the chosen indices, one for one, up to the first that names DONE; it fails exactly when a candidate is unknown or an index before that is out of range |
| Combat.DeclarationIsUnique | mtg-kernel/examples/branch_diff.rs:1551-1567 | there is one such declaration |
| Replay.ResolvePick | mtg-kernel/examples/branch_diff.rs:1344-1380 | a discard pick resolves exactly when the names match and the picked card is among the remaining choices |
| Replay.WithoutSelects | mtg-kernel/examples/branch_diff.rs:1388-1388 | a pick leaves all other choices, in their order |
| Replay.DiscardIsDetermined | mtg-kernel/examples/branch_diff.rs:1342-1390 | records and engine determine a discard at every pick |
| Replay.DiscardsFollowRecords | mtg-kernel/examples/branch_diff.rs:1342-1390 | picks are pairwise distinct original choices, put to the engine one by one, each the card its own record chose under the map learned so far, and each name the text that record chose |
| Replay.DiscardIsStuck | mtg-kernel/examples/branch_diff.rs:1345-1388 | a discard whose next record is missing or does not fit gets no further |
| Replay.DiscardAllFollowsRecords | mtg-kernel/examples/branch_diff.rs:1320-1416 | a whole discard makes the pending number of picks, one record each, and consumes a closing summary exactly when one follows, which lists the texts those records chose |
| Replay.TextNamesAChoice | mtg-kernel/examples/branch_diff.rs:1353-1370 | the text a discard record chose is the name of some card that remains to be chosen |
| Replay.PickCanBeMisnamed | mtg-kernel/examples/branch_diff.rs:1363-1382 | but not necessarily of the card that is discarded: an accepted record that names another |
| Replay.FollowAdvances | mtg-kernel/examples/branch_diff.rs:1201-1459 | following the recording only advances cursors inside their queues and only learns UUIDs |
| Replay.PassWindowAdvances | mtg-kernel/examples/branch_diff.rs:1571-1665 | so does an unlogged window |
| Replay.ReplayCtx.constructor | mtg-kernel/examples/branch_diff.rs:915-921 | a fresh context starts both cursors at zero with the given map |
| Replay.ReplayCtx.Advance | mtg-kernel/examples/branch_diff.rs:181-183 | consumes exactly the next record of one seat, in order, which the history records |
| Replay.ReplayCtx.LearnTokenIds | mtg-kernel/examples/branch_diff.rs:241-267 | updates the map in place to the learned one and moves no cursor |
| Replay.ReplayCtx.SkipStaleForcedDiscards | mtg-kernel/examples/branch_diff.rs:298-316 | moves the cursor exactly past the leading records whose chosen cards all lie in a graveyard or in exile |
| Replay.ReplayCtx.ReplayDiscard | mtg-kernel/examples/branch_diff.rs:1342-1416 | succeeds exactly when every pick and the summary fit their records, and ends in the state, map and cursors they determine |
| Replay.ReplayCtx.ApplyFromTrace | mtg-kernel/examples/branch_diff.rs:1201-1459 | follows the recording exactly when state and candidates match, ending in the state, map and cursors that determines; outside discards the engine was given the listed action that the record did, and one record was consumed |
| Replay.ReplayCtx.ApplySilentWindow | mtg-kernel/examples/branch_diff.rs:1571-1665 | the result of an unlogged window is determined; the map stays, and only a madness cast consumes a record |
| Driver.DecisionCandidates | mtg-kernel/examples/branch_diff.rs:620-715 | only a finished game has no candidates, so the capture error for their absence is unreachable |
| Driver.ContinuationAction | mtg-kernel/examples/branch_diff.rs:724-843 | the fixed continuation only ever plays listed actions and never moves in a finished game |
| Driver.ContinuationTakesTheFirst | mtg-kernel/examples/branch_diff.rs:724-843 | passes at a window, takes the first legal target or candidate, discards the first cards, declares nobody and declines madness |
| Driver.DeciderIs | mtg-kernel/examples/branch_diff.rs:1176-1199 | blocks are decided by the player who is not active, other logged decisions by their own player |
| Driver.BoundaryIsSorted | mtg-kernel/examples/branch_diff.rs:1093-1141 | a boundary carries its step’s marker, the rendered state and the decision’s own candidates, ascending and counted: window keys once each, otherwise names, with DONE where the selection can end; the end of the game reports the winner |
| Driver.CapturedMarkersDiffer | mtg-kernel/examples/branch_diff.rs:1111-1140 | no two boundaries of a report carry the same marker |
| Driver.Capture | mtg-kernel/examples/branch_diff.rs:1091-1173 | boundaries follow the engine’s own walk, in order and with different markers, 1 + continue_steps of them unless the game ends or the walk is blocked |
| Driver.CaptureIsDetermined | mtg-kernel/examples/branch_diff.rs:1091-1173 | engine and continuation policy determine the boundaries and the status |
| Driver.AlternateExists | mtg-kernel/examples/branch_diff.rs:1674-1823 | there is an alternate action exactly when the candidates match and the index is in range; it is listed and is what the candidate asks for, in combat declaring that creature alone or nobody |
| Driver.AlternateIsUnique | mtg-kernel/examples/branch_diff.rs:1674-1823 | record and index leave one alternate action |
| Driver.ResolveAlternate | mtg-kernel/examples/branch_diff.rs:1674-1823 | finds exactly that action |
| Driver.AlignedMeansNoProblem | mtg-kernel/examples/branch_diff.rs:1008-1063 | the fail-closed checks pass exactly when record, decision, request and state are aligned |
| Trace.CheckStatePasses | mtg-kernel/examples/branch_diff.rs:333-372 | no difference is reported exactly when round, zone sizes, both life totals and phase are as recorded |
| Driver.ArriveAtTarget | mtg-kernel/examples/branch_diff.rs:983-1064 | ready to force exactly when the record after a discard’s previews is aligned, having learned from it; otherwise stops with the status of the failing check |
| Driver.StepStandsWell | mtg-kernel/examples/branch_diff.rs:927-1062 | one decision only advances and learns, stops with a replay failure, or arrives at the requested seat, index and aligned record |
| Driver.RunStandsWell | mtg-kernel/examples/branch_diff.rs:926-1062 | the same over every run |
| Driver.RunIsFinal | mtg-kernel/examples/branch_diff.rs:926-1062 | giving up and arriving are final |
| Driver.ReplayStep | mtg-kernel/examples/branch_diff.rs:927-1062 | the step in place computes exactly the stand: state, map, cursors, status and record |
| Driver.ReplayToBranch | mtg-kernel/examples/branch_diff.rs:926-1062 | phase one in place computes exactly the run of steps |
| Setup.SeatNames | mtg-kernel/examples/branch_diff.rs:186-208 | the first player to decide takes the first seat, and there is exactly one other |
| Setup.NewContext | mtg-kernel/examples/branch_diff.rs:907-921 | the context starts with the starting map, the number of cards, the UUID of each seat’s first appearance among targets, and as queues exactly that player’s records other than the two kinds of mulligan, in order |
| Setup.QueueForIsQueue | mtg-kernel/examples/branch_diff.rs:904-914 | a seat’s queue lists the positions, strictly increasing, at which the player recorded something other than a mulligan |
| Setup.FindPlayerUuidIsFirst | mtg-kernel/examples/branch_diff.rs:269-290 | a seat’s UUID is that of the first target candidate, by record and then by position, that shows the player’s name; there is none exactly if none shows it |
| Setup.CardsAreBound | mtg-kernel/examples/branch_diff.rs:216-239 | with a UUID for each card the hand and then the library of either deck are dealt in order and bound to consecutive objects |
| Driver.Branch | mtg-kernel/examples/branch_diff.rs:1060-1173 | the alternate is put to the engine exactly when it is forceable, once; the status is force_error exactly when it is not or the engine rejects it; else the walk is captured |
| Driver.CheckSetUp | mtg-kernel/examples/branch_diff.rs:859-893 | fails exactly on recordings that are not set up |
| Driver.RunRecording | mtg-kernel/examples/branch_diff.rs:896-1173 | a run yields exactly what recording and engine determine |
| Driver.YieldsSafely | mtg-kernel/examples/branch_diff.rs:849-1173 | in every run at most one choice is forced and only when due; failures report no boundaries; any other report follows one choice the engine accepted |
| Driver.MapStaysGapFree | mtg-kernel/examples/branch_diff.rs:216-267 | with one UUID per card the map stays injective and gap-free wherever phase one stands |
| Driver.MulligansMakeNoDifference | mtg-kernel/examples/branch_diff.rs:904-1173 | taking every mulligan record out of a recording of the same players and decks changes neither where phase one ends nor what the run yields |
| Driver.BranchAndDiff | mtg-kernel/examples/branch_diff.rs:849-1173 | a setup error exactly without set-up, and otherwise exactly what recording and engine determine |
| Calendar.DatesAreCalendarDays | build_support/native_store_build_capture_v1.rs:309-340 | a date is accepted exactly when it prints a day of the calendar in years 1 to 9999 |
| Calendar.LeapYearsCount | build_support/native_store_build_capture_v1.rs:330-340 | of the first n years n/4 - n/100 + n/400 are leap years |
| Calendar.MonthLengths | build_support/native_store_build_capture_v1.rs:330-340 | the lengths of the months by their rule: 31 and 30 alternate and begin again with August |
| RustcVerbose.JoinSplit | build_support/native_store_build_capture_v1.rs:379-385 | splitting into lines loses nothing |
| RustcVerbose.SplitJoin | build_support/native_store_build_capture_v1.rs:379-385 | joined lines split back into themselves |
| RustcVerbose.UniformLines | build_support/native_store_build_capture_v1.rs:355-378 | lines of a text with uniform endings contain neither CR nor LF |
| RustcVerbose.ScanEndings | build_support/native_store_build_capture_v1.rs:355-376 | the scan finds the one terminator used throughout, and fails exactly on a bare CR or mixed endings |
| RustcVerbose.Collect | build_support/native_store_build_capture_v1.rs:396-418 | collects each required value once, and fails exactly on a malformed or repeated required line |
| RustcVerbose.ParseLines | build_support/native_store_build_capture_v1.rs:386-446 | accepts exactly the line lists of the grammar |
| RustcVerbose.Parse | build_support/native_store_build_capture_v1.rs:342-452 | accepts exactly the grammar, and splits what it accepts without loss |
| VersionText.GrammarIsWritten | build_support/native_store_build_capture_v1.rs:342-452 | the accepted grammar written out: size, line endings, leading line, one line per field with its value, and what each field may hold |
| RustcVerbose.PrintedParses | build_support/native_store_build_capture_v1.rs:342-452 | valid fields printed in any line order, with unrelated lines and either terminator, are in the grammar with those fields |
| RustcVerbose.ReadingIsUnique | build_support/native_store_build_capture_v1.rs:342-452 | a text has at most one reading: lines, terminator and fields |
| Features.ParseFeatures | build_support/native_store_build_capture_v1.rs:164-193 | accepts exactly the manifests with valid names, no two of them alike but for case and the two dashes, and the production feature; the map holds each name under the text of upper-case letters, digits and underscores that is alike |
| Features.AlikeNamesNormalize | build_support/native_store_build_capture_v1.rs:122-133 | two names normalise alike exactly when they agree but for case and the two dashes |
| Features.SpellingIsUnique | build_support/native_store_build_capture_v1.rs:122-133 | a feature has one variable text that spells it |
| Features.EnabledFeatures | build_support/native_store_build_capture_v1.rs:202-234 | succeeds exactly on the admissible settings and returns the named features in order |
| Features.ThoseAreSettings | build_support/native_store_build_capture_v1.rs:206-214 | the settings are those of the variables whose names begin with Cargo’s prefix, in order |
| Features.DistinctSortIncreases | build_support/native_store_build_capture_v1.rs:233-233 | the result strictly ascends in lexicographic order |
| Features.SubsetIsReadBack | build_support/native_store_build_capture_v1.rs:202-234 | every subset with the production feature is read back, for every order of an environment whose variables spell its names |
| Features.OnlySubsetsAreAccepted | build_support/native_store_build_capture_v1.rs:215-228 | an accepted environment holds the settings of the features read back and no other feature variable |
| Framing.EightBytesAreEnough | mtg-kernel/examples/bench_fast_sampler.rs:436-438 | eight little-endian bytes identify a 64-bit length |
| Framing.LengthReadsBack | mtg-kernel/examples/bench_fast_sampler.rs:436-438 | the eight bytes of a length add up to it with byte k counting 256^k |
| Framing.StreamIsInjective | mtg-kernel/examples/bench_fast_sampler.rs:433-442 | different lists of (name, bytes) are never fed to the digest as one stream |
| Framing.Feed | mtg-kernel/examples/bench_fast_sampler.rs:433-442 | the digest receives exactly that stream, piece by piece |
| Framing.OverrideSnapshot | mtg-kernel/examples/bench_fast_sampler.rs:784-804 | the snapshot is the stream of the rejected overrides, ascending by name and then by value, and their count |
| Framing.OverridesAreSelected | mtg-kernel/examples/bench_fast_sampler.rs:784-792 | the overrides are the variables whose upper-case name is rejected, in order, under that name and with their value |
| Framing.UpperIsUpperOf | mtg-kernel/examples/bench_fast_sampler.rs:787-787 | upper case changes each lower-case ASCII letter and nothing else |
| Framing.SnapshotIdentifiesOverrides | mtg-kernel/examples/bench_fast_sampler.rs:784-804 | two environments give one stream exactly when they set the same rejected overrides, in any order |
| Framing.EmptyMeansNoOverride | mtg-kernel/examples/bench_fast_sampler.rs:768-804 | the stream is empty exactly when no rejected override is set |

## Left out

- Hamilton.Apportion: starts from the weights; quantising logits and looking
  them up in the exponential table is not modelled.
- Hamilton.Sample: takes the 64-bit draw; mixing it from a seed is not modelled.
- Selection.CompareCase: takes both mass vectors and states the summed mass
  difference; total variation and KL as floating-point values are not modelled.
- Workload.LoadWorkload: leaves out the tolerance check of the stated mean and
  the provenance fields of the profile, which are comparisons with literals.
- Seeds.RunLane: the clock is a list of the games it leaves time for.
- Replay.ReplayCtx.ApplySilentWindow: how windows other than a madness cast are
  answered is a function of the engine record.
- Driver.ContinuationAction: likewise for the decision kinds no record is logged
  for.
- Driver.ReplayToBranch: runs for a given number of decisions, because whether
  phase one ends depends on the engine; the theorems hold for every number.
- The rules engine, its surfaces and card tables: `Trace.Engine` stands for them
  as arbitrary functions; what `new_from_libraries`, `next_decision`, `apply`
  and the canonical state rendering compute is not modelled, nor is the hash of
  a rendered state.
- A panic inside a run (an object id outside the arena, a stack item that is to
  be named) becomes status `engine_panic` with no boundaries in the original;
  the model gives such names a default instead.
- Attack and block declarations: the driver does not compare them with the
  engine's lists, so no legality is claimed for them.
- Detail messages that interpolate names, ids and counts are shortened.
- Kernel index arithmetic is on unbounded integers, not 32-bit `int`; memory is
  sequentially consistent between the barriers.
- The publisher's directory-chain checks, and links or removals that take effect
  but report failure; a process id is not reused and never runs out of nonces.
- JSON numbers are any text of the number grammar; lone surrogate escapes are
  refused; UTF-8 encoding and insignificant whitespace are not modelled.
- SHA-256, TOML, semver and UTF-8 validity: only the bytes fed to a digest are
  covered, and UTF-8 validity is a parameter of the version parser.
- Logits are bit patterns, and a mean is kept as sum and count; floating-point
  rates are left out.
- The wide apportionment path, which sorts by the same total order with the
  library sort.
- The random policy's discards and blockers, barriers and clocks of the benchmark threads.
- Git, process, GPU and Windows probes, path and triple admission, command
  lines and report assembly: thin code over foreign calls.
