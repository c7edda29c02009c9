# Netbraid evaluation tools: a verified model

These modules model the algorithmic cores of the evaluation tools and prove what they are for.

- **Generation publisher** (`Filesystem`, `Publication`, `PublicationSafety`, `Recovering`, `CrashSafety`, `RestartSafety`, `Generations`, `StartSafety`, `Publisher`).
  A directory of names that lead to inodes, with link, rename, unlink and synchronisation, is changed call by call.
  The program is started any number of times; each start recovers and then publishes a further generation, and is stopped after any call by a kill or a power failure; a power failure may lose any unsynchronised directory change.
  The list of targets has any length; the last one is the manifest.
- **Interval sweep** (`FlowMatching`, `LineageAccounts`): the event sweep is the brute-force join, and the counts reported about it add up.
- **Leakage-safe split** (`UnionFind`, `Balance`, `RelationSplit`): union-find by size with path halving, then largest-first distribution.
- **Compact sampling** (`RowOrders`, `RowSampling`, `RowSelection`, `RowOutcome`, `RowDraw`): partitioning and sampling spans is partitioning and sampling rows, and the digests alone say which are drawn.
- **Run-length coding** (`Bytes`, `LabelRuns`, `LabelReading`, `LabelCounts`, `LabelBytes`, `LabelAdapter`): the encoder, the separate counter, and the reader that takes what the encoder writes.
- **Exact statistics** (`Binomial`, `BinomialMedian`, `BinomialInterval`): the interval found by bisection, its coverage, and the sign test, over the reals.
- **Provenance analysis** (`Provenance`, `ProducerSyntax`, `ProducerAnalysis`, `ModuleRules`, `RuleOrder`, `ModuleSources`, `ModuleOrder`, `ProducerEvidence`, `ProducerTable`, `ProducerFlow`, `ProducerPlaces`, `ProducerReach`, `ProducerAnalyzer`, `ProducerReport`): the analyzer of producer scripts, and a flow of single texts and options through the syntax that it is compared with.
- **Encodings** (`PacketCapture`, `OpaqueIds`, `ObservationPairs`, `ComplexTokens`, `IqStore`, `Strata`).

`Wrappers`, `Sets`, `Sorting` and `Text` hold what several of them share; `Patterns` compares the predicates on strings with the regular expressions of the source.
Where the source changes things step by step, a method does so, and its contract ties the result to a function about which the rest is proved.

## What the proofs found

- **A kill followed by a power failure can defeat recovery or atomicity.**
  A start assumes that what it sees is durable.
  - A publication over existing targets is killed between unlinking the journal and the synchronisation (`RestartSafety.KilledAtCommitIsUnsafe`).
    The next recovery sees no journal and removes the backups; a power failure before its own synchronisation can bring the journal back without them (`RestartSafety.JournalReturns`).
    The targets are still one whole generation; what is lost is recovery, since every later one is refused.
  - A first publication is killed between the same two calls (`StartSafety.KilledAtFirstCommitIsHaunted`).
    The next recovery finds nothing to remove and synchronises nothing; the publication that follows takes backups, and a power failure can then bring the old journal back beside one, which every later recovery refuses (`StartSafety.JournalReturnsBesideBackup`).
  - The recovery of a first publication is killed after removing a target (`RestartSafety.KilledWhileRemovingIsUnsafe`).
    The next recovery may unlink the journal while that removal can still be lost, and a lone target comes back (`RestartSafety.TargetReturns`): this one loses atomicity.

  `Generations.StartSafe` is the exact condition for a start, its recovery and whatever it publishes, to survive every power failure (`StartSafety.StartSafeIsExact`).
  Where every start is safe, all targets stay of one generation however many generations are published (`Generations.GenerationsAreAtomic`).
- **Backups may be copies, restoring needs links.**
  `_create_backup` copies where hard links are refused, but `_restore_backup` has no such fallback.
  A recovery fails exactly if a journal is left and a needed backup cannot be linked (`CrashSafety.RecoveryIsSafe`), as after a kill just before the journal is unlinked (`CrashSafety.CopiedBackupIsNotRestored`).
- **The passes over module assignments are enough exactly if no literal has to go back, in the order of evaluation, more often than there are assignments** (`ModuleOrder.LoadConvergesExactly`).
  Without walrus expressions none has to (`ModuleOrder.WalrusFreeIsShallow`); with them a single assignment can be too much (`ModuleSources.WalrusStopsShort`), though not every one is.
- **Reading an attribute is not monotone**; `Provenance.AttributeIsMonotoneExactly` says when it is.
- **Some checks never fire:** for a validated adapter the checks for empty partitions (`RowOutcome.ValidAdapterIsSplit`) and for overlaps between roles (`RowSelection.NoSplitOverlap`), and the closing guard of the stratified indices (`Strata.StratifiedIndices`).

## Model

| member | source | states |
|---|---|---|
| Filesystem.LostUpdatesArePowerLoss | eval/compile-xrf55-joint-role-cache.py:557-562 | losing any subset of the directory updates made since the last synchronisation leaves a directory that the per-name rule of `PowerLoss` allows |
| Filesystem.StepTracks | eval/compile-xrf55-joint-role-cache.py:557-562 | the stale entries of a disk always cover the durable directory and the log of unsynchronised updates; a synchronisation makes the current directory the durable one |
| Filesystem.ExecTracks | eval/compile-xrf55-joint-role-cache.py:557-562 | the same along any sequence of calls |
| Publication.ForeignJournalIsRefused | eval/compile-xrf55-joint-role-cache.py:714-782 | a journal is acted on exactly if it lists these targets and their backups one by one and says of each whether it existed as the backups say; any other is refused, and `Publisher.OutputDirectory.Recover` then touches nothing |
| PublicationSafety.PowerLossKeepsRecoverable | eval/compile-xrf55-joint-role-cache.py:769-793 | whatever a power failure leaves of a recoverable disk is recoverable |
| PublicationSafety.CleanupIsSafe | eval/compile-xrf55-joint-role-cache.py:596-611 | every disk on the way of the cleanup is recoverable, exactly the debris names disappear, and no target or journal is touched |
| PublicationSafety.BackupsAreSafe | eval/compile-xrf55-joint-role-cache.py:652-671 | backups taken by link or by copy pass through recoverable disks only and leave one backup with the old content for exactly the targets that existed |
| PublicationSafety.JournalIsSafe | eval/compile-xrf55-joint-role-cache.py:674-702 | writing the journal passes through recoverable disks only and ends with a durable journal of the right targets, old targets and waiting temporaries |
| PublicationSafety.ReplacementsAreSafe | eval/compile-xrf55-joint-role-cache.py:869-873 | after k replacements the first k targets are new, the others old, the journal durable; every disk between is recoverable and replaced in order |
| PublicationSafety.CommitIsSafe | eval/compile-xrf55-joint-role-cache.py:791-793 | unlinking the journal and cleaning up keeps whichever whole generation is there, through recoverable disks only, and leaves no journal and no debris |
| Recovering.AttemptEnds | eval/compile-xrf55-joint-role-cache.py:860-873 | everything up to the end of the `try` block passes through recoverable, forward-going disks and ends with all targets new and the journal in place |
| Recovering.PublishIsSafe | eval/compile-xrf55-joint-role-cache.py:847-884 | a publication passes through recoverable disks only and ends without error with all targets new, no journal, no debris |
| Recovering.RevertingIsRecoverable | eval/compile-xrf55-joint-role-cache.py:783-790 | giving targets their old contents back, and no others, keeps a disk with a journal recoverable |
| Recovering.RestoresAreSafe | eval/compile-xrf55-joint-role-cache.py:760-790 | restoring the first k targets passes through recoverable disks, also where renaming two links to one file does nothing, and fails exactly if one of the backups needed cannot be linked |
| CrashSafety.JournalReads | eval/compile-xrf55-joint-role-cache.py:714-757 | on a recoverable disk a journal is accepted, lists exactly the targets that existed, and their backups are there with the old contents |
| CrashSafety.RecoveryIsSafe | eval/compile-xrf55-joint-role-cache.py:769-793 | a recovery from any restart-safe recoverable disk is never refused, passes through recoverable disks, and ends with one whole generation, no journal and no debris; it fails exactly if a journal is left and a needed backup cannot be linked |
| CrashSafety.SynchronisedRunsAreAtomic | eval/compile-xrf55-joint-role-cache.py:769-793 | one publication and any number of recoveries, with kills alone or with power failures alone: where backups can be linked, one complete recovery leaves one whole generation, no journal and no debris |
| CrashSafety.ExceptionMeansOld | eval/compile-xrf55-joint-role-cache.py:874-879 | stopping anywhere inside the `try` block and recovering gives all old targets back, where backups can be linked |
| CrashSafety.CopiedBackupIsNotRestored | eval/compile-xrf55-joint-role-cache.py:760-766 | where a backup that was copied cannot be linked, a process killed just before it unlinks the journal leaves a disk on which recovery fails |
| CrashSafety.OnlyCommitPoint | eval/compile-xrf55-joint-role-cache.py:880-884 | without power failures the unlinking of the journal is the only commit point: up to it recovery gives all old targets, after it all new ones |
| CrashSafety.ReturnedIsPermanent | eval/compile-xrf55-joint-role-cache.py:880-884 | once a publication has returned, no later recovery, stopped anywhere and under any power failure, brings back an old target |
| CrashSafety.ManifestIsLast | eval/compile-xrf55-joint-role-cache.py:847-873 | while replacing, the new manifest can be seen, even after a power failure, only if all other targets are new |
| Generations.RecoveryLeavesOpening | eval/compile-xrf55-joint-role-cache.py:769-793 | a recovery that ends well after a safe start leaves one whole generation and either no journal that could come back, or a disk untouched on which only the journal of a first publication could come back to targets that are still missing |
| Generations.PreparedIsOpening | eval/compile-xrf55-joint-role-cache.py:901-929 | so once the temporaries are written, the next publication can begin on the old generation that it sees |
| Generations.OpeningIsSafe | eval/compile-xrf55-joint-role-cache.py:847-884 | from there a publication passes through recoverable disks only, also where the journal of an earlier first publication could still come back |
| Generations.StagesKeepRecoverable | eval/compile-xrf55-joint-role-cache.py:887-946 | any number of starts, each a recovery and the publication of a further generation, each stopped anywhere by a kill or a power failure, leave a recoverable disk if each but the last left a disk safe to start on |
| Generations.OldIsKnown | eval/compile-xrf55-joint-role-cache.py:887-946 | the old generation of every start is the first one found or one that an earlier start set out to publish |
| Generations.GenerationsAreAtomic | eval/compile-xrf55-joint-role-cache.py:887-946 | after any such sequence of starts one complete recovery leaves all targets of one generation, the first one found or one that some start set out to publish, with no journal and no debris, and fails exactly if a journal is left and a needed backup cannot be linked |
| Generations.SynchronisedStagesAreSafe | eval/compile-xrf55-joint-role-cache.py:887-946 | where every stop leaves nothing unsynchronised, as a power failure does, every start is safe |
| RestartSafety.RestartSafeSurvives | eval/compile-xrf55-joint-role-cache.py:769-793 | a recovery started on a restart-safe disk survives a power failure at every step (a recovery on its own; with the publication that follows see `StartSafety.StartSafeIsExact`) |
| RestartSafety.JournalReturns | eval/compile-xrf55-joint-role-cache.py:774-776 | a journal whose removal was not synchronised comes back after its backups are gone, and every later recovery is refused |
| RestartSafety.TargetReturns | eval/compile-xrf55-joint-role-cache.py:788-791 | a target whose removal was not synchronised comes back after the journal is gone, next to missing ones |
| RestartSafety.KilledAtCommitIsUnsafe | eval/compile-xrf55-joint-role-cache.py:880-884 | a publication over existing targets killed between unlinking the journal and the synchronisation leaves a disk that is not restart-safe |
| RestartSafety.KilledWhileRemovingIsUnsafe | eval/compile-xrf55-joint-role-cache.py:788-790 | so does a recovery of a first publication killed between removing a target and the synchronisation |
| StartSafety.StartSafeIsExact | eval/compile-xrf55-joint-role-cache.py:887-946 | `StartSafe` is exactly the condition under which a start on unsynchronised changes, its recovery and whatever publication follows, survives every power failure, where backups can be linked |
| StartSafety.JournalReturnsBesideBackup | eval/compile-xrf55-joint-role-cache.py:847-871 | where the journal of a complete first publication can come back and nothing makes the next cleanup synchronise, the next publication can be hit by a power failure after which every recovery is refused |
| StartSafety.KilledAtFirstCommitIsHaunted | eval/compile-xrf55-joint-role-cache.py:880-884 | a first publication killed between unlinking the journal and the synchronisation leaves such a disk, although a recovery on its own would survive on it |
| Publisher.IssuedIsPrefix | eval/compile-xrf55-joint-role-cache.py:847-884 | the calls a process issues before it fails are a prefix of its program and have the effect of the whole program |
| Publisher.OutputDirectory.Do | eval/compile-xrf55-joint-role-cache.py:557-562 | one call changes the directory as the filesystem says and is logged |
| Publisher.OutputDirectory.CleanupDebris | eval/compile-xrf55-joint-role-cache.py:606-611 | issues the calls of the cleanup |
| Publisher.OutputDirectory.TakeBackups | eval/compile-xrf55-joint-role-cache.py:652-671 | issues the calls that back up the targets that existed, up to the first failure |
| Publisher.OutputDirectory.WriteJournal | eval/compile-xrf55-joint-role-cache.py:688-702 | issues the calls that write the journal, up to the first failure |
| Publisher.OutputDirectory.ReplaceTargets | eval/compile-xrf55-joint-role-cache.py:869-873 | issues a replacement and a synchronisation for each target in order, up to the first failure |
| Publisher.OutputDirectory.RestoreTargets | eval/compile-xrf55-joint-role-cache.py:783-790 | issues the calls that restore or remove each target in order, up to the first failure |
| Publisher.OutputDirectory.Recover | eval/compile-xrf55-joint-role-cache.py:769-793 | refuses without touching anything, or issues the calls of one recovery |
| Publisher.OutputDirectory.MakeAttempt | eval/compile-xrf55-joint-role-cache.py:860-873 | issues the calls inside the `try` block, up to the first failure |
| Publisher.OutputDirectory.Publish | eval/compile-xrf55-joint-role-cache.py:847-884 | publishes, or after a failure recovers and says whether that succeeded; the new state is that of the calls on the old one |
| Publisher.VisiblePublishes | eval/compile-xrf55-joint-role-cache.py:887-946 | from a directory in which a process sees no journal, the old targets and its temporaries, whatever could come back after a power failure, a publication that is not stopped sees which targets exist, never fails, and ends with all targets new for good |
| FlowMatching.GroupByKey | eval/evaluate-iot23-flow-lineage.py:569-574 | groups the indices of the flows by key, each once and in order |
| FlowMatching.CollectEvents | eval/evaluate-iot23-flow-lineage.py:580-588 | collects exactly the starts, widened by the tolerance on the publisher side, and the ends of the flows of one key |
| FlowMatching.LinkActive | eval/evaluate-iot23-flow-lineage.py:597-607 | links a flow that starts with every active flow of the other side, and fails exactly when the number of edges passes the limit |
| FlowMatching.Sweep | eval/evaluate-iot23-flow-lineage.py:589-610 | one sweep adds exactly the overlapping pairs of one key; removing a flow that ends never fails |
| FlowMatching.MatchFlows | eval/evaluate-iot23-flow-lineage.py:564-611 | succeeds exactly if the overlapping pairs are within the limit, and then the two tables are converse tables of exactly those pairs, each counted once |
| LineageAccounts.SurplusIsEdgesBeyondMatches | eval/evaluate-iot23-flow-lineage.py:763-800 | on both sides the extra fragments are the edges beyond the matched flows |
| LineageAccounts.OneToOneIsInjective | eval/evaluate-iot23-flow-lineage.py:763-811 | the one-to-one pairs are a partial injection into the pairs |
| LineageAccounts.LabelRowsAddUp | eval/evaluate-iot23-flow-lineage.py:618-636 | the rows of all labels add up to the row of all flows |
| LineageAccounts.OverallRow | eval/evaluate-iot23-flow-lineage.py:618-636 | that row counts every flow once, matched or unmatched |
| LineageAccounts.LabelRows | eval/evaluate-iot23-flow-lineage.py:618-636 | one row for each label that occurs, with the counts of its flows; together the counts of all flows |
| LineageAccounts.RowCounts | eval/evaluate-iot23-flow-lineage.py:618-636 | a row counts the flows of its label, and among them those with some edge, with none, with several, and with one that is mutual |
| LineageAccounts.DeltasAddUp | eval/evaluate-iot23-flow-lineage.py:685-706 | the difference of the totals is within the sum of the distances of the pairs, meets it exactly if no packet count is below its publisher count, and that sum is zero exactly if all counted pairs agree |
| LineageAccounts.Metric | eval/evaluate-iot23-flow-lineage.py:685-706 | compared counts the pairs with both counters, the totals are the sums of their two counters, the signed delta is the difference of the totals, is bounded by the sum of the absolute ones, and meets it exactly if no packet count is below its publisher count |
| Balance.LeastLoaded | eval/build-osu-lora-relation-split.py:264-269 | the first of the least loaded roles |
| Balance.GreedyIsBalanced | eval/build-osu-lora-relation-split.py:264-269 | items given largest first to the least loaded of m roles load no role beyond 4/3 - 1/(3m) times the heaviest load of any assignment |
| Balance.FourRoles | eval/build-osu-lora-relation-split.py:264-269 | 5/4 for four roles |
| Balance.GreedySpread | eval/build-osu-lora-relation-split.py:264-269 | in any order the heaviest and the lightest role differ by at most the largest item |
| Balance.NoRoleEmpty | eval/build-osu-lora-relation-split.py:264-271 | with at least m items no role stays empty |
| UnionFind.HalvingKeepsForest | eval/build-osu-lora-relation-split.py:178-182 | halving a path keeps every class, its root, its size and the ranks, and moves to a node of higher rank |
| UnionFind.UnionKeepsForest | eval/build-osu-lora-relation-split.py:184-192 | hanging the smaller root below the larger keeps the forest, with the two classes merged and the sizes added |
| UnionFind.Components.constructor | eval/build-osu-lora-relation-split.py:174-176 | every index starts as its own class of size one |
| UnionFind.Components.Find | eval/build-osu-lora-relation-split.py:178-182 | returns the root of the class, after at most log2 of the class size hops, at most 13 among ten thousand, and changes no class although it rewrites parents |
| UnionFind.Components.Union | eval/build-osu-lora-relation-split.py:184-192 | merges the two classes and no others |
| RelationSplit.LinkObservations | eval/build-osu-lora-relation-split.py:195-207 | two observations end in one class exactly if a chain of shared event or session identifiers links them |
| RelationSplit.AssignmentComponents | eval/build-osu-lora-relation-split.py:195-216 | lists the classes, each ordered by identifier, larger ones first, and of equally large ones that with the least identifier first |
| RelationSplit.SortedIsLargestFirst | eval/build-osu-lora-relation-split.py:195-216 | sorting by size and first identifier is that order, said without the sort key |
| Text.StringLeIsAlphabetical | eval/build-osu-lora-relation-split.py:214-216 | identifiers are compared by the first character in which they differ |
| RelationSplit.ComponentListIsUnique | eval/build-osu-lora-relation-split.py:195-216 | that list depends on the set of observations alone, not on their order |
| RelationSplit.NoLeakage | eval/build-osu-lora-relation-split.py:252-281 | two observations that share an event or a session are in the same role |
| RelationSplit.EveryObservationOnce | eval/build-osu-lora-relation-split.py:252-281 | every observation is in exactly one role, and nothing else is |
| RelationSplit.RolesAreFilledAndBalanced | eval/build-osu-lora-relation-split.py:252-281 | no role is empty, and the largest is within 4/3 - 1/(3m) of any assignment that keeps components whole |
| RelationSplit.IdsDistinctPermutes | eval/build-osu-lora-relation-split.py:236-262 | a permutation of the input passes the duplicate check if the input does |
| RelationSplit.AssignRoles | eval/build-osu-lora-relation-split.py:264-269 | distributes the components as the greedy rule says |
| RelationSplit.BuildSplit | eval/build-osu-lora-relation-split.py:236-281 | each error exactly when its cause is there, and otherwise the components of the set of observations, larger first and then by least identifier, dealt to the roles, whatever order the observations came in |
| RowOrders.SmallestIsSortedPrefix | eval/evaluate-ruff-uwb-heldout-location.py:1033-1061 | streaming selection that holds at most k items returns the first k of the sorted items |
| RowOrders.SortedSetDependsOnMembers | eval/evaluate-ruff-uwb-heldout-location.py:926-965 | the order in which locations or groups are listed depends on their set alone |
| RowSampling.TiledRows | eval/evaluate-ruff-uwb-heldout-location.py:692-755 | spans that tile expand to every row index once, in order |
| RowSampling.SameDeal | eval/evaluate-ruff-uwb-heldout-location.py:926-965 | spans and expanded rows deal the same locations in the same order |
| RowSampling.RoleCommutesWithExpand | eval/evaluate-ruff-uwb-heldout-location.py:1087-1130 | partitioning spans and expanding is expanding and partitioning rows |
| RowSampling.SameDraw | eval/evaluate-ruff-uwb-heldout-location.py:1033-1061 | for one group, selecting the smallest indices of the spans is sorting the rows and taking a prefix |
| RowSampling.SameSelection | eval/evaluate-ruff-uwb-heldout-location.py:986-1084 | for one role, the compact selection is the row-by-row selection: rows, locations, groups and row count |
| RowSampling.FastRefinesSlow | eval/evaluate-ruff-uwb-heldout-location.py:926-1130 | for every role and adapter, partitioning and sampling spans is partitioning and sampling the expanded rows |
| RowSelection.ExpandedAdapterIsValid | eval/evaluate-ruff-uwb-heldout-location.py:866-910 | the rows of a validated adapter are rows the slow procedure accepts |
| Patterns.IdentifierPattern | eval/evaluate-ruff-uwb-heldout-location.py:78-78 | an identifier is what its regular expression matches in full |
| Patterns.DigestPattern | eval/evaluate-ruff-uwb-heldout-location.py:79-79 | and so is an opaque one |
| RowSelection.RolesDoNotOverlap | eval/evaluate-ruff-uwb-heldout-location.py:968-983 | rows of two roles share neither location, group nor index |
| RowSelection.NoSplitOverlap | eval/evaluate-ruff-uwb-heldout-location.py:968-983 | the overlap checks before and after sampling never fail |
| RowSelection.SampleRole | eval/evaluate-ruff-uwb-heldout-location.py:986-1017 | the row-by-row loop returns the specified sample, whose rows `RowDraw.LeastAreSampled` pins down |
| RowSelection.SelectSpanRows | eval/evaluate-ruff-uwb-heldout-location.py:1033-1061 | the compact loop returns the specified sample, which `RowSampling.SameSelection` equates with the row-by-row one |
| RowSelection.SampleRowSpans | eval/evaluate-ruff-uwb-heldout-location.py:1064-1084 | one role sampled from spans |
| RowSelection.PartitionAndSample | eval/evaluate-ruff-uwb-heldout-location.py:1087-1130 | on a validated adapter the compact procedure returns what the row-by-row one returns on the expanded rows, which `RowDraw.ValidAdapterIsDrawn` pins down |
| RowOutcome.ValidRowsAreSplit | eval/evaluate-ruff-uwb-heldout-location.py:926-983 | valid rows are never refused, and of n locations 80n/100 and 10n/100, rounded down, and the rest go to the three roles |
| RowOutcome.ValidAdapterIsSplit | eval/evaluate-ruff-uwb-heldout-location.py:1087-1130 | so a validated adapter is never refused, and its locations are shared out like that |
| RowDraw.GroupLeIsByFields | eval/evaluate-ruff-uwb-heldout-location.py:349-355 | groups are listed by collection, source, device and location, the first that differs deciding |
| RowDraw.LeastAreSampled | eval/evaluate-ruff-uwb-heldout-location.py:986-1017 | in one role each group contributes as many of its rows as allowed, listed by group and index, and every row drawn has a lower digest than each of its group that is not, or the same and a lower index |
| RowDraw.ValidRowsAreDrawn | eval/evaluate-ruff-uwb-heldout-location.py:926-1017 | so in every role; the locations are shared out, and none that trains has a greater digest than one that validates or tests, nor one that validates than one that tests, ties by name |
| RowDraw.ValidAdapterIsDrawn | eval/evaluate-ruff-uwb-heldout-location.py:1033-1130 | the same of a validated adapter's spans and the rows they stand for |
| LabelRuns.EncodeIsSound | eval/compile-ruff-uwb-row-adapter.py:640-690 | the spans tile the rows, have no equal neighbours, give each row its label, and the collected sources and locations are those of the labels |
| LabelRuns.EncodesWithinLimits | eval/compile-ruff-uwb-row-adapter.py:643-680 | encoding succeeds exactly if all values are in range and the numbers of runs, sources and locations are within their limits |
| LabelRuns.EncodingIsUnique | eval/compile-ruff-uwb-row-adapter.py:651-675 | labels have only one encoding of this kind |
| LabelRuns.LengthsAreCounts | eval/compile-ruff-uwb-row-adapter.py:651-690 | the spans of a label are as long, together, as it has rows |
| LabelReading.NextLabels | eval/compile-ruff-uwb-row-adapter.py:636-682 | the carry and the next read hold the next labels, however the payload is cut |
| LabelReading.EncodeMore | eval/compile-ruff-uwb-row-adapter.py:640-681 | the inner loop encodes more labels after those that came before |
| LabelReading.ReadLabels | eval/compile-ruff-uwb-row-adapter.py:611-704 | however the payload is cut into reads, the facts, or the error, are those of the payload as a whole |
| LabelBytes.CarriedAreRead | eval/compile-ruff-uwb-row-adapter.py:636-645 | a payload is read as these labels exactly if it spells them row after row: eight bytes of source, eight of location, least significant first, in two's complement |
| LabelBytes.SomePayloadCarries | eval/compile-ruff-uwb-row-adapter.py:636-645 | any labels of 64 bits can be written like that |
| LabelBytes.WrittenIsRead | eval/compile-ruff-uwb-row-adapter.py:611-704 | on a payload that spells labels the reader succeeds exactly within the limits and the contract, and its runs, rows and counts are those of the labels |
| LabelCounts.CountsWithinLimits | eval/compile-ruff-uwb-oracles.py:478-495 | counting succeeds exactly within the limits, and then every label is counted as often as it occurs |
| LabelCounts.RunsMeetCounts | eval/compile-ruff-uwb-oracles.py:474-499 | for every label the lengths of its spans add up to its count in the other compiler |
| LabelCounts.CountLabels | eval/compile-ruff-uwb-oracles.py:458-504 | however the payload is cut into reads, the counts, or the error, are those of the payload as a whole |
| LabelBytes.WrittenIsCounted | eval/compile-ruff-uwb-oracles.py:458-504 | on such a payload each label is counted as often as it was written, exactly within the limits |
| LabelAdapter.SpansExpandToRows | eval/evaluate-ruff-uwb-heldout-location.py:692-755 | the spans written expand to one row for each label, in order |
| LabelAdapter.NeighboursStayApart | eval/evaluate-ruff-uwb-heldout-location.py:731-738 | no two spans side by side are equivalent to the reader |
| LabelAdapter.IdentifiersAreDistinct | eval/compile-ruff-uwb-row-adapter.py:591-608 | where the digest tells apart the finitely many frames that this adapter hashes, its identifiers differ within each domain and across domains, and have the form the reader demands |
| LabelAdapter.ReaderAccepts | eval/evaluate-ruff-uwb-heldout-location.py:692-780 | the reader accepts every encoding with enough sources and locations whose identifiers are distinct and well formed, and expands it to one row for each label |
| LabelAdapter.PayloadMeetsReader | eval/evaluate-ruff-uwb-heldout-location.py:692-780 | from payload bytes to the reader: where the digest tells apart the frames in use, the adapter passes every check on spans, identifiers and domains, and stands for the labels row by row |
| LabelAdapter.IdentifiersAreSpelled | eval/compile-ruff-uwb-row-adapter.py:591-608 | what is hashed for each identifier: the namespace and the domain in letters, each behind its length, and the collection token, the source or the location as components |
| OpaqueIds.FrameIsReadable | eval/compile-mmwave-jamming-oracles.py:790-811 | the bytes hashed determine the namespace, the domain and the whole component list |
| OpaqueIds.ComponentsAreReadable | eval/compile-ruff-uwb-oracles.py:542-561 | the framed components can be read back one by one |
| OpaqueIds.FrameIsLaid | eval/compile-mmwave-jamming-oracles.py:790-811 | what is hashed: namespace and domain behind their lengths in four bytes, then each component behind its length in eight, a number as `i` and eight bytes, a text as `s` and its bytes, lengths and numbers most significant byte first |
| OpaqueIds.SameFrameSameClaim | eval/compile-mmwave-jamming-oracles.py:790-811 | where truth values are refused, equal bytes mean equal claims |
| OpaqueIds.OpaqueIdentifiers.constructor | eval/compile-mmwave-jamming-oracles.py:817-818 | no claims at first |
| OpaqueIds.OpaqueIdentifiers.Issue | eval/compile-mmwave-jamming-oracles.py:820-829 | issues the digest of a claim and records it; a collision is raised exactly when an earlier claim with the same digest hashed different bytes |
| ObservationPairs.OrderIsIrrelevant | eval/calibrated_event_relation.py:167-175 | swapping the observations changes nothing |
| ObservationPairs.AcceptedReference | eval/calibrated_event_relation.py:138-165 | which references are accepted: schema, identifier and digest, character by character and in their lengths |
| ObservationPairs.OneCharacter | eval/calibrated_event_relation.py:138-165 | a character counts as many bytes as UTF-8 gives its code |
| ObservationPairs.LengthsAdd | eval/calibrated_event_relation.py:138-165 | and a text as many as its parts together |
| Patterns.SchemaPattern | eval/calibrated_event_relation.py:33-33 | a schema is what its regular expression matches in full |
| ObservationPairs.TextTellsPairs | eval/calibrated_event_relation.py:138-175 | the text hashed is the same exactly for the same unordered pair |
| ObservationPairs.TextIsSpelledOut | eval/calibrated_event_relation.py:138-175 | that text in full: the lesser reference first, schema, identifier and digest each closed by a zero byte |
| ObservationPairs.ObservationPairId | eval/calibrated_event_relation.py:167-175 | the nested loop hashes that text |
| Binomial.BelowPascal | eval/counter_capture_eval.py:408-412 | the distribution of n + 1 trials from that of n, by conditioning on one trial |
| Binomial.BelowIsAntitone | eval/counter_capture_eval.py:408-412 | the distribution does not increase with the probability of success |
| Binomial.AllOutcomes | eval/counter_capture_eval.py:408-412 | all outcomes together have probability one |
| BinomialMedian.MeanIsMedian | eval/counter_capture_eval.py:408-412 | a binomial distribution with a whole mean has it as a median: fewer successes, and more, have probability at most one half |
| BinomialInterval.Search | eval/counter_capture_eval.py:425-433 | eighty halvings: the last bracket is 2 to the 80 times narrower than the first, and its ends lie on the two sides of the threshold unless they are the first ones |
| BinomialInterval.ClopperPearson | eval/counter_capture_eval.py:415-445 | fails exactly on illegal input, and otherwise returns the middles of two brackets 2 to the 80 times narrower than [0, s/n] and [s/n, 1] |
| BinomialInterval.ShareIsBetween | eval/counter_capture_eval.py:424-444 | the observed share lies on the far side of both searches, so each search starts around the place where its answer changes |
| BinomialInterval.LowerBoundSeparates | eval/counter_capture_eval.py:425-433 | of all probabilities, those at or below the lower bound less s/n divided by 2 to the 81 have a tail under alpha/2, and those as far above it have not |
| BinomialInterval.UpperBoundSeparates | eval/counter_capture_eval.py:434-444 | the same for the upper bound and 1 - s/n |
| BinomialInterval.LowerCrossingIsFound | eval/counter_capture_eval.py:425-433 | the distance from the lower bound to the probability at which the tail crosses alpha/2, times 2 to the 81, is at most s/n |
| BinomialInterval.UpperCrossingIsFound | eval/counter_capture_eval.py:434-444 | for the upper bound it is at most 1 - s/n |
| BinomialInterval.IntervalHoldsShare | eval/counter_capture_eval.py:415-445 | 0 <= lower <= s/n <= upper <= 1 |
| BinomialInterval.IntervalsCover | eval/counter_capture_eval.py:415-445 | whatever the true probability, the outcomes whose interval holds it, up to the rounding of the bisection, have probability over 1 - alpha |
| BinomialInterval.SignTestIsTail | eval/evaluate-mmwave-jamming-receiver-crossfit.py:624-629 | the sign test is the binomial tail at one half |
| BinomialInterval.SignTestMeetsInterval | eval/evaluate-mmwave-jamming-receiver-crossfit.py:624-629 | up to that rounding it is below alpha/2 exactly if the interval lies above one half |
| Provenance.MergeIsIdempotent | eval/audit-derived-artifacts.py:392-401 | merging a value with itself gives it back |
| Provenance.MergeIsCommutative | eval/audit-derived-artifacts.py:392-401 | the order of two values does not matter |
| Provenance.MergeIsAssociative | eval/audit-derived-artifacts.py:392-401 | nor does their grouping |
| Provenance.MergeIsLeast | eval/audit-derived-artifacts.py:392-401 | the merge is the least value that includes both |
| Provenance.MergeAllIsOrderIndependent | eval/audit-derived-artifacts.py:392-401 | merging any number of values does not depend on their order |
| Provenance.AttributeIsMonotoneExactly | eval/audit-derived-artifacts.py:74-78 | reading an attribute keeps an inclusion exactly if the lesser value knows the attribute, the greater one does not, or what the greater one knows about it covers what the lesser one falls back on |
| Provenance.AttributeIsNotMonotone | eval/audit-derived-artifacts.py:74-78 | an input that fails this condition: knowing more about an attribute makes reading it say less |
| ProducerAnalysis.EnteringUsesFuel | eval/audit-derived-artifacts.py:696-720 | entering a function that is not active leaves less to enter, so following calls ends even for mutually recursive producers |
| ProducerTable.WrittenByIsTable | eval/audit-derived-artifacts.py:488-577 | for every form of call, which operand names an output: the receiver, the first or the second argument, or none |
| ProducerTable.OperandIsRecorded | eval/audit-derived-artifacts.py:541-579 | what a call that is not followed records includes that operand's value |
| ProducerTable.DestinationIs | eval/audit-derived-artifacts.py:441-463 | where a declared argument is stored: its `dest`, or its first long option or first name without leading dashes and with underscores |
| ProducerAnalysis.Expression | eval/audit-derived-artifacts.py:596-599 | only a walrus expression changes variables: an expression without any, evaluated without following calls, leaves them all as they are, and the variables of the module stay as they are unless a call is followed where argument defaults hold one; what is yielded and recorded is stated by `ProducerAnalyzer.Analyzer.Expression` and `ProducerEvidence.ExpressionFrom` |
| ModuleRules.NewHolderMeansRuleDone | eval/audit-derived-artifacts.py:416-432 | when a pass gives a literal a new holder, an assignment has been finished for that literal in that pass |
| ModuleRules.MovingLiteralFinishesRules | eval/audit-derived-artifacts.py:416-432 | a literal still moving in pass k + 1 has finished with more than k assignments |
| ModuleRules.PassesConverge | eval/audit-derived-artifacts.py:416-432 | as many passes as there are assignments reach a fixed point, whatever depends on what |
| ModuleRules.FixedPointIsReachability | eval/audit-derived-artifacts.py:416-432 | there a variable holds exactly the literals with a chain of assignments to it |
| RuleOrder.PassesAreChains | eval/audit-derived-artifacts.py:416-432 | after k passes over assignments in any order a variable holds exactly the literals with a chain of assignments to it that goes back in that order fewer than k times |
| ModuleSources.AssignAllIsPass | eval/audit-derived-artifacts.py:421-429 | one pass over walrus-free assignments, evaluated expression by expression, is one pass of their rules |
| ModuleSources.LoadConverges | eval/audit-derived-artifacts.py:416-432 | without walrus expressions the bounded loop always ends at a fixed point |
| ModuleSources.LoadIsReachability | eval/audit-derived-artifacts.py:416-432 | and a module variable then holds exactly the literals that a chain of assignments carries to it |
| ModuleSources.LoadIsOrderIndependent | eval/audit-derived-artifacts.py:416-432 | so the order of the assignments does not matter |
| ModuleOrder.AssignmentsRun | eval/audit-derived-artifacts.py:421-429 | with walrus expressions, one pass is one pass of the reads and writes of all expressions in the order of evaluation |
| ModuleOrder.AfterIsWithin | eval/audit-derived-artifacts.py:416-432 | after k passes a variable holds exactly the literals with a chain of reads and writes to it that goes back in the order of evaluation fewer than k times |
| ModuleOrder.LoadConvergesExactly | eval/audit-derived-artifacts.py:416-432 | the bounded loop ends at a fixed point exactly if no literal has to go back more often than there are assignments |
| ModuleOrder.WalrusFreeIsShallow | eval/audit-derived-artifacts.py:416-432 | without walrus expressions none has to |
| ModuleSources.WalrusStopsShort | eval/audit-derived-artifacts.py:416-432 | an assignment that fails this condition: it needs three passes where two are made |
| ProducerEvidence.ExpressionFrom | eval/audit-derived-artifacts.py:516-619 | evaluation, following calls to any depth, reports only literals and options written in the producer |
| ProducerEvidence.LoadInventsNothing | eval/audit-derived-artifacts.py:416-432 | loading the module's variables invents nothing |
| ProducerPlaces.MergeHolds | eval/audit-derived-artifacts.py:392-401 | a merge holds a text or option at a place, however deep in attributes, exactly if one of the two does |
| ProducerPlaces.AttributeFits | eval/audit-derived-artifacts.py:74-78 | reading an attribute hands on what the attribute holds, or the value's own sources where it is not known |
| ProducerReach.ExpressionReaches | eval/audit-derived-artifacts.py:516-619 | the value of an expression, the variables after it and what it records hold a token at every place it surely flows to, and only where it perhaps flows |
| ProducerReach.NamespaceReaches | eval/audit-derived-artifacts.py:434-486 | so do the attributes of declared arguments, with their defaults and options |
| ProducerReach.BindReaches | eval/audit-derived-artifacts.py:703-714 | and the parameters of a function: arguments in order, keywords, defaults |
| ProducerReach.StatementReaches | eval/audit-derived-artifacts.py:621-694 | and every kind of statement |
| ProducerReach.EnterReaches | eval/audit-derived-artifacts.py:696-720 | and a function that is followed |
| ProducerReach.LoadReaches | eval/audit-derived-artifacts.py:416-432 | and the loading of the module, however early its passes stop |
| ProducerReach.FollowReaches | eval/audit-derived-artifacts.py:722-725 | and the entry points one after another |
| ProducerAnalyzer.Analyzer.constructor | eval/audit-derived-artifacts.py:405-414 | the module's variables are loaded, nothing is active |
| ProducerAnalyzer.Analyzer.LoadModuleSources | eval/audit-derived-artifacts.py:416-432 | the loop makes the passes of the specification and stops after the first that changes nothing |
| ProducerAnalyzer.Analyzer.Namespace | eval/audit-derived-artifacts.py:434-486 | collects the declared arguments, with their defaults evaluated on the module's own variables |
| ProducerAnalyzer.Analyzer.Call | eval/audit-derived-artifacts.py:516-579 | operands in order, then either the call is followed or the written operand is recorded |
| ProducerAnalyzer.Analyzer.Expression | eval/audit-derived-artifacts.py:581-619 | yields and records what the specification says, with the active functions as before |
| ProducerAnalyzer.Analyzer.Block | eval/audit-derived-artifacts.py:621-694 | runs the statements in order, joins what they return, and leaves the active functions as before |
| ProducerAnalyzer.Analyzer.Statement | eval/audit-derived-artifacts.py:621-694 | each kind of statement on the right copy of the variables |
| ProducerAnalyzer.Analyzer.Enter | eval/audit-derived-artifacts.py:696-720 | nothing while the function is active; otherwise its body is followed and the function is inactive again afterwards |
| ProducerAnalyzer.Analyzer.Analyze | eval/audit-derived-artifacts.py:722-725 | follows each entry point, in some order, on what the ones before left; where defaults assign nothing the outputs are the least value that includes what each records on its own; nothing that is not written in the producer |
| ProducerAnalyzer.OrderIsIrrelevant | eval/audit-derived-artifacts.py:722-725 | two orders of the entry points give the same outputs |
| ProducerReport.Report | eval/audit-derived-artifacts.py:728-750 | every text and option that surely flows through the syntax to a written operand is found, and none that does not perhaps flow there |
| ProducerReport.PathIsSure | eval/audit-derived-artifacts.py:541-579 | `Path(path).write_text(text)` in an entry point: the path surely flows to a written operand |
| ProducerReport.SureWithoutArguments | eval/audit-derived-artifacts.py:728-750 | in a producer that declares no arguments the two flows are one, so exactly those are found |
| ProducerReport.LoadedIsEnough | eval/audit-derived-artifacts.py:728-750 | unless the default of an argument assigns a variable, the flow starts from the variables found by loading the module |
| PacketCapture.ReadUndoesWrite | eval/evaluate-sdr4iot-layer-alignment.py:308-355 | reading a written capture returns it, in each of the four magic forms |
| PacketCapture.OnlyWrittenIsRead | eval/evaluate-sdr4iot-layer-alignment.py:308-355 | whatever is accepted is one legal header and whole legal records, byte for byte |
| PacketCapture.AcceptedIsWritten | eval/evaluate-sdr4iot-layer-alignment.py:308-355 | so the accepted payloads are exactly the written ones |
| PacketCapture.ParsePcap | eval/evaluate-sdr4iot-layer-alignment.py:308-355 | the parser returns the times in nanoseconds of the capture read, or its error |
| PacketCapture.TimeTellsRecord | eval/evaluate-sdr4iot-layer-alignment.py:308-355 | the time returned tells the seconds and the fraction of its record again, in either resolution |
| PacketCapture.WordIsOrdered | eval/evaluate-sdr4iot-layer-alignment.py:308-355 | four bytes count in the order that the magic number tells |
| ComplexTokens.RejoiningRecovers | eval/compile-smorffi-csv-iq-adapter.py:388-408 | tokens are accepted exactly if they are elements, whole or split in two, and then exactly those elements are recovered |
| ComplexTokens.SplittingKeepsText | eval/compile-smorffi-csv-iq-adapter.py:388-408 | every recovered element is well formed, and no character is lost or moved |
| ComplexTokens.ComplexElements | eval/compile-smorffi-csv-iq-adapter.py:388-408 | the greedy loop finds that reading, or refuses |
| Patterns.ComplexPatterns | eval/compile-smorffi-csv-iq-adapter.py:68-71 | real part, imaginary part and element are what the three regular expressions match in full |
| IqStore.SlicesAreRows | eval/compile-smorffi-csv-iq-adapter.py:553-569 | the offsets slice the flat samples back into the rows |
| IqStore.OffsetsIncrease | eval/compile-smorffi-csv-iq-adapter.py:358-380 | the offsets of rows that are not empty increase strictly |
| IqStore.StoredOffsetsIncrease | eval/compile-smorffi-csv-iq-adapter.py:358-380 | so do those of every accepted store |
| IqStore.SpansTileRows | eval/compile-smorffi-csv-iq-adapter.py:578-589 | the spans tile the rows, and the rows of a span are those of its file |
| IqStore.NpyHeader | eval/compile-smorffi-csv-iq-adapter.py:306-315 | magic, version, length of the body, the dictionary, spaces and a line end, 256 bytes in all |
| IqStore.HeaderIsPrinted | eval/compile-smorffi-csv-iq-adapter.py:306-315 | the header holds the dictionary as Python prints it, and is refused exactly if that is too long |
| IqStore.DecimalIsReadable | eval/compile-smorffi-csv-iq-adapter.py:306-315 | lengths are printed in digits that stand for them, without leading zeros |
| IqStore.RewritingKeepsPayload | eval/compile-smorffi-csv-iq-adapter.py:602-605 | rewriting the header leaves the payload in place |
| IqStore.SamplesAreRead | eval/compile-smorffi-csv-iq-adapter.py:411-435 | a row is read exactly if its tokens split elements, not too many or too long, that all stand for finite samples, and its samples are then those, in order |
| IqStore.Compile | eval/compile-smorffi-csv-iq-adapter.py:509-589 | succeeds exactly if every row is readable, every file has one identity, devices and addresses are in bijection and the limits hold, and then stores all rows, offsets and spans |
| Strata.StratifiedIndices | eval/compile-mmwave-jamming-paired-grid.py:196-211 | fails exactly for fewer than two indices or too short an extent; otherwise each index is its quotient rounded down, from end to end, strictly increasing, every gap the floor or the ceiling of the mean gap; the closing guard never fires |
| Strata.WindowStarts | eval/evaluate-ruff-uwb-heldout-location.py:1228-1235 | as many windows as fit, evenly spread, starting at 0, each inside the signal |

## Left out

- Publisher.OutputDirectory.Publish: an exception raised after the journal is unlinked is not modelled as an outcome of its own; a process can be stopped there, and `CrashSafety.OnlyCommitPoint` says what is left.
- Generations.GenerationsAreAtomic: the files a start computes before it publishes are given from outside, and its temporaries may be made, filled or removed anyhow until then.
- CrashSafety.ExceptionMeansOld: assumes that backups can be linked, as `CrashSafety.OnlyCommitPoint` does; `CrashSafety.RecoveryIsSafe` says what happens where they cannot.
- Files: the `lstat`, mode, size and inode checks, the files that `mkstemp` leaves after a hard crash, and the JSON rendering of the journal; a file holds its bytes, or is not yet written.
- Filesystem.LostUpdatesArePowerLoss: a file whose bytes are flushed before it is renamed keeps them; the loss of unflushed bytes shows only in files that are not yet in place.
- Hard links: which names can be linked is a set of the medium; the errors that make a backup fall back to copying are one case.
- RelationSplit.BuildSplit: the schema checks of an oracle, the summaries, `relation_split_audit.py` and the canonical rendering are not part of this model; the roles are a parameter m.
- FlowMatching.MatchFlows: the flows are given with their keys and times; reading the two logs is left out.
- LineageAccounts.Metric: the ratios and rule reports built on the counts are left out.
- RowSelection.PartitionAndSample: the digests that rank rows and locations are functions given from outside; `heapq.nsmallest` is a sorted buffer of at most the maximum, proved equal to sorting.
- RowSelection.ExpandedAdapterIsValid: the schema, the byte counts and the fit with one waveform file are left out of what a valid adapter is.
- LabelReading.ReadLabels: the archive, the array header and its digests are parameters: header bytes, payload size, reads, trailing bytes and the digest function; labels are pairs of eight-byte integers.
- LabelAdapter.PayloadMeetsReader: that the digest tells apart the frames of one adapter, and gives 64 hexadecimal digits for them, is a hypothesis; the digest itself is a parameter.
- OpaqueIds.OpaqueIdentifiers.Issue: texts are given by their UTF-8 bytes; the digest is any function.
- ObservationPairs.ObservationPairId: the type and field checks of a reference are left out; the three checks of its values are kept.
- BinomialInterval.ClopperPearson: over the reals, so the rounding of floating point is left out; the rounding of the bisection is kept.
- BinomialInterval.LowerCrossingIsFound: that there is a crossing (continuity of the tail) is a hypothesis, as for the upper bound; the two separation results need none.
- Provenance.MergeIsAssociative: the sorted tuple of attributes is a map, which it represents.
- ProducerTable.WrittenByIsTable: upper case is that of the ASCII letters.
- ProducerReport.Report: between what surely and what perhaps flows lies only the reading of an attribute that is named like a declared argument from a value that may not know it.
- ProducerAnalyzer.Analyzer.Namespace: walking a function for its `add_argument` calls is left out; the calls are given in the order of the walk.
- ProducerAnalyzer.Analyzer.Statement: the variables of a function, a dictionary in the source, are passed in and handed back; soundness of the analysis is not claimed, because loops are followed once and some copies of the variables are dropped.
- ProducerAnalyzer.Analyzer.Analyze: the search for the entry points and the audit of contracts, recipes and tracked files are left out.
- PacketCapture.ParsePcap: the zone, accuracy and network fields are carried as bytes.
- IqStore.Compile: when it fails is stated, which error it reports is not; headers, errata, receipts and digests of the files and the pinned counts of the corpus are left out.
- IqStore.SamplesAreRead: what a printed element stands for, and whether that is finite, are functions given from outside.
- Strata.WindowStarts: the features computed from the windows are left out.
- Floating-point features, prototypes and metrics, report assembly, privacy counters, argument parsing, network access and the Rust library.
