# Sentinel-visor core, modelled in Dafny

This project models six parts of sentinel-visor, a Filecoin chain indexer:

- **The gap indexer** (`chain/gap/find.go`). It finds chain epochs the processing table never covered and re-reports skipped tipsets as `GAP` rows.
- **The gap filler** (`chain/gap/fill.go`). It picks up open `GAP` rows, re-drives one walker per gap and writes each row back as `FILLED` or with the error text. It also parses a tipset key from its `{cid,cid}` text form.
- **Miner state diffing** (`chain/actors/builtin/miner/diff.go`). It diffs pre-commits and sectors between two miner states. It picks the legacy or the fast strategy by actor version and tree parameters, and decodes each change.
- **The verified-registry extractor** (`tasks/actorstate/verifreg.go`). It decides whether there is a previous state to diff against. It then derives DataCap rows and ADDED/REMOVED events for verifiers and verified clients.
- **The message task** (`tasks/message/message.go`):
  - block-message rows, unique message rows and processing entries;
  - the two gas-limit totals;
  - receipt pairing;
  - the leased-batch loop.
- **Lens helpers** (`lens/util.go`). These are the CID-list comparison and the optimised actor lookup with its fallback.

The modules are:

| module | file |
|---|---|
| `Outcomes` | `outcomes.dfy` |
| `TreeDiff` | `tree_diff.dfy` |
| `GapFind` | `gap_find.dfy` |
| `GapFill` | `gap_fill.dfy` |
| `MinerDiff` | `miner_diff.dfy` |
| `VerifiedRegistry` | `verifreg.dfy` |
| `MessageTask` | `messages.dfy` |
| `Lens` | `lens.dfy` |

`Outcomes` holds `Option` and `Result`.

`TreeDiff` gives the meaning of a list of Add/Remove/Modify changes between two key-value maps. This is what the HAMT and AMT diff libraries return and what the legacy callback diff walks. Both diff consumers are specified against it.

Each loop of the Go code is a `method` with invariants. Each method is proved equal to a reference function built from the back of its input. The properties the code promises are then lemmas about those functions. Three things are modelled as objects:

- the gap ledger that `GapFiller` updates;
- the diff containers whose `Results` the callbacks append to;
- registry states, whose identity the Go code compares by pointer.

The gap array whose statuses `Run` overwrites in place is an `array`.

Some behaviour follows the code as written:

- `detectSkippedTipSets` reports the skipped record's own height, not the height of the tipset the chain returns.
- `arrayRequiresLegacyDiffing` tests the *market* actor codes. It is only ever called with miner states, so for sectors the decision rests on the AMT bitwidths alone (`MinerArraysLegacyOnWidth`, `SectorsStrategyByEra`).
- In `extractMessageModels`, `GasLimitTotal` sums the distinct messages and `GasLimitUniqueTotal` sums every inclusion, which is the reverse of what the names suggest. The model keeps this.
- `GapFiller.Run` writes back the queried gaps. Their statuses were changed through the shared pointers, so the unused `filledGaps` copy makes no difference.

## Model

| member | source | states |
|---|---|---|
| TreeDiff.DescribesUnique | chain/actors/builtin/miner/diff.go:55-70 | a key has at most one correct change description between two maps |
| TreeDiff.ListingClassifies | chain/actors/builtin/miner/diff.go:55-70 | in a diff listing, the Add keys are exactly the keys only in the new map, the Remove keys exactly those only in the old one, and the Modify keys exactly the common keys whose value changed |
| TreeDiff.SelfDiffIsEmpty | chain/actors/builtin/miner/diff.go:55-70 | diffing a map against itself lists no change |
| TreeDiff.AdditiveDiffOnlyAdds | chain/actors/builtin/miner/diff.go:55-70 | when the new map only adds keys to the old one, every listed change is an Add |
| TreeDiff.ListingsAgree | chain/actors/builtin/miner/diff.go:43-70 | two diff listings of the same pair of maps hold the same changes, so the legacy and the fast strategies feed the containers the same changes (in some order) |
| TreeDiff.GenericDiff | chain/actors/builtin/miner/diff.go:43-49 | the legacy key-walk diff lists only correct changes, each for a walked key, and at most one per walked key |
| TreeDiff.GenericDiffReports | chain/actors/builtin/miner/diff.go:43-49 | every walked key whose value differs between the maps is reported |
| TreeDiff.GenericDiffDistinct | chain/actors/builtin/miner/diff.go:43-49 | no key is reported twice when the walked keys are distinct |
| TreeDiff.GenericDiffIsListing | chain/actors/builtin/miner/diff.go:43-49 | walking all keys of both maps yields a complete diff listing |
| GapFind.SortAscendingCorrect | chain/gap/find.go:142-145 | sorting the candidates gives an ascending permutation of them |
| GapFind.PairGapsExact | chain/gap/find.go:129-137 | the heights strictly between consecutive reports are exactly the heights between the newest and the oldest that no report holds, each once |
| GapFind.CandidatesExact | chain/gap/find.go:129-141 | the candidates are exactly the heights from 0 up to the newest report that no report holds, each once |
| GapFind.FindEpochGaps | chain/gap/find.go:125-147 | no reports give no gaps; otherwise the result is the candidates sorted ascending; for strictly descending non-negative heights it is exactly the missing heights below the newest, strictly increasing |
| GapFind.SortedCandidatesExact | chain/gap/find.go:125-147 | for strictly descending non-negative heights, the sorted candidates are strictly increasing and are exactly the unrecorded heights below the newest |
| GapFind.CandidatesOfExample | chain/gap/find.go:129-141 | reports at 10, 8 and 5 give the unsorted candidates 9, 6, 7 and then 0 to 4 |
| GapFind.SortedCandidatesDetermined | chain/gap/find.go:125-147 | for strictly descending non-negative heights, any strictly increasing sequence of the right length holding exactly the unrecorded heights below the newest is the sorted candidate list |
| GapFind.CandidatesExample | chain/gap/find.go:118-124 | reports at 10, 8 and 5 give the gaps 0,1,2,3,4,6,7,9 |
| GapFind.HeightReportsSound | chain/gap/find.go:96-113 | every height report is a GAP by the gap indexer at the candidate's own height, with a listed task and the tipset the chain returned there |
| GapFind.HeightReportsComplete | chain/gap/find.go:96-113 | every candidate at which the chain has a tipset of exactly that height is reported for every task |
| GapFind.HeightReportsCount | chain/gap/find.go:102-112 | the number of reports is the number of tasks times the number of real (non-null-round) epochs |
| GapFind.HeightReportsFails | chain/gap/find.go:98-101 | the scan fails if and only if some candidate's tipset lookup fails |
| GapFind.AppendEpochReports | chain/gap/find.go:103-112 | appends one GAP report per task, in task order |
| GapFind.ReportHeights | chain/gap/find.go:96-115 | the candidate loop yields the reference height reports, or the first lookup error |
| GapFind.DetectProcessingGaps | chain/gap/find.go:81-116 | a query error is returned; otherwise the candidate loop runs over the sorted gap candidates |
| GapFind.SkippedGapsShape | chain/gap/find.go:63-78 | skipped records give one GAP report each, in order, with the record's height and task and the chain's tipset key; this fails if and only if some lookup fails |
| GapFind.DetectSkippedTipSets | chain/gap/find.go:56-79 | a query error is returned; otherwise each skipped record yields its GAP report, or the first lookup error |
| GapFind.IndexGaps | chain/gap/find.go:29-54 | an open error, a processing-gap error or a skip-gap error each stop the run with nothing persisted; otherwise the skip reports followed by the height reports, each detector's reports stamped with its own clock reading, are persisted in one batch and the persist error is returned |
| GapFill.QueryGapsExact | chain/gap/fill.go:68-87 | the queried gaps are exactly the ledger rows with status GAP whose task is among the filler's tasks, or any task when none are set |
| GapFill.WalksAreSingleHeight | chain/gap/fill.go:45-56 | each walk covers exactly one gap's height and task; every gap whose indexer can be built gets its walk |
| GapFill.FillGaps | chain/gap/fill.go:44-64 | each gap's status becomes the indexer error, else the walk error, else FILLED, with all other fields unchanged; walks are launched in gap order, only where the indexer was built |
| GapFill.UpdateRowUntouched | chain/gap/fill.go:89-95 | a row that no update matches by primary key is left as it was |
| GapFill.UpdateRowReplaced | chain/gap/fill.go:89-95 | a row whose primary key some updates match, all of them equal, becomes that update |
| GapFill.FillOutcome | chain/gap/fill.go:36-95 | after a successful run, with unique primary keys, every selected ledger row holds its fill status and every other row is unchanged |
| GapFill.GapFiller.constructor | chain/gap/fill.go:28-34 | the filler holds the given tasks and the ledger |
| GapFill.GapFiller.UpdateGaps | chain/gap/fill.go:89-95 | an empty list is a no-op; otherwise one bulk update either lands as a whole or fails with its error and changes nothing |
| GapFill.GapFiller.Run | chain/gap/fill.go:36-87 | a query error is wrapped and returned with no walks; otherwise the queried gaps are walked and written back with their new statuses |
| GapFill.TrimLeft | chain/gap/fill.go:101 | drops exactly the leading run of the brace character |
| GapFill.TrimRight | chain/gap/fill.go:102 | drops exactly the trailing run of the brace character |
| GapFill.Split | chain/gap/fill.go:108 | splitting always yields at least one token |
| GapFill.SplitJoin | chain/gap/fill.go:108 | joining the tokens with the separator gives back the string, and no token holds the separator |
| GapFill.DecodeTokens | chain/gap/fill.go:109-116 | succeeds if and only if every token decodes, giving the decoded CIDs in token order; otherwise the empty key and the error of the first token that fails |
| GapFill.TipSetKeyFromString | chain/gap/fill.go:97-118 | succeeds if and only if every token decodes, giving the decoded CIDs in token order; otherwise the empty key and the first token's error |
| MinerDiff.SectorsAmtBitwidth | chain/actors/builtin/miner/diff.go:221-235 | miner v0 and v2 use bitwidth 3, v3 and v4 the v3 sectors bitwidth 5; any other code gives -1 and an unknown-actor-code error |
| MinerDiff.MapRequiresLegacyDiffing | chain/actors/builtin/miner/diff.go:258-277 | legacy map diffing if and only if either state is a v0/v2 miner or the map options differ |
| MinerDiff.ArrayRequiresLegacyDiffing | chain/actors/builtin/miner/diff.go:237-256 | legacy array diffing if and only if either state is a v0/v2 market actor or the bitwidths differ |
| MinerDiff.MinerArraysLegacyOnWidth | chain/actors/builtin/miner/diff.go:237-256 | for miner states the array strategy depends only on the bitwidths |
| MinerDiff.SectorsStrategyByEra | chain/actors/builtin/miner/diff.go:129-138 | for known miner codes, sectors are diffed the legacy way exactly when one side is v0/v2 and the other v3/v4 |
| MinerDiff.PreCommitResultsShape | chain/actors/builtin/miner/diff.go:55-72 | pre-commit diffing succeeds if and only if no needed decode fails; Added holds the decoded Add values in order and Removed the decoded Remove values; modifications are ignored |
| MinerDiff.SectorResultsShape | chain/actors/builtin/miner/diff.go:150-167 | sector diffing succeeds if and only if no needed decode fails; a modification is an extension exactly when the expiration changed |
| MinerDiff.ListedValues | chain/actors/builtin/miner/diff.go:55-70 | over a diff listing, there is one added value per added key and one removed value per removed key; the added values are the new map's values at the added keys and the removed values the old map's values at the removed keys |
| MinerDiff.ListedAdded | chain/actors/builtin/miner/diff.go:55-60 | over a diff listing, the keys of the Add changes, in order, are the added keys, each once, and the i-th added value is the new map's value at the i-th of them |
| MinerDiff.ListedRemoved | chain/actors/builtin/miner/diff.go:61-64 | over a diff listing, the keys of the Remove changes, in order, are the removed keys, each once, and the i-th removed value is the old map's value at the i-th of them |
| MinerDiff.PreCommitsOfListing | chain/actors/builtin/miner/diff.go:22-73 | over a diff listing of the two loaded pre-commit maps, diffing succeeds if and only if every added key's new value and every removed key's old value decodes; then Added holds exactly the decodings at the added keys, one per key, and Removed the decodings at the removed keys, one per key |
| MinerDiff.SectorsOfListing | chain/actors/builtin/miner/diff.go:118-168 | over a diff listing of the two loaded sector arrays, diffing succeeds if and only if every added, removed and modified sector decodes; then Added and Removed are exactly the decodings at the added and removed sector numbers, one per number, and an extension is listed exactly for a modified sector number whose decoded expiration changed |
| MinerDiff.ValuesOfAdds | chain/actors/builtin/miner/diff.go:55-70 | the added (removed) values are exactly the values carried by the Add (Remove) changes |
| MinerDiff.UnchangedStateDiffsEmpty | chain/actors/builtin/miner/diff.go:22-168 | the change listings of unchanged pre-commit and sector trees give no pre-commit and no sector changes |
| MinerDiff.PreCommitDiffContainer.constructor | chain/actors/builtin/miner/diff.go:75-81 | a new container holds both states and empty results |
| MinerDiff.PreCommitDiffContainer.Add | chain/actors/builtin/miner/diff.go:96-103 | decodes the value with the new state and appends it to Added, or returns the decode error and changes nothing |
| MinerDiff.PreCommitDiffContainer.Modify | chain/actors/builtin/miner/diff.go:105-107 | ignores modifications and never fails |
| MinerDiff.PreCommitDiffContainer.Remove | chain/actors/builtin/miner/diff.go:109-116 | decodes the value with the old state and appends it to Removed, or returns the decode error and changes nothing |
| MinerDiff.SectorDiffContainer.constructor | chain/actors/builtin/miner/diff.go:170-176 | a new container holds both states and empty results |
| MinerDiff.SectorDiffContainer.Add | chain/actors/builtin/miner/diff.go:183-190 | decodes with the new state and appends to Added, or returns the error and changes nothing |
| MinerDiff.SectorDiffContainer.Modify | chain/actors/builtin/miner/diff.go:192-210 | decodes the old value with the old state and the new value with the new state; appends an extension only if the expiration differs; the first decode error is returned with nothing changed |
| MinerDiff.SectorDiffContainer.Remove | chain/actors/builtin/miner/diff.go:212-219 | decodes with the old state and appends to Removed, or returns the error and changes nothing |
| MinerDiff.DispatchPreCommits | chain/actors/builtin/miner/diff.go:55-72 | feeding the changes to the container in order yields the reference pre-commit results or the first decode error |
| MinerDiff.DispatchSectors | chain/actors/builtin/miner/diff.go:150-167 | feeding the changes to the container in order yields the reference sector results or the first decode error |
| MinerDiff.DiffPreCommits | chain/actors/builtin/miner/diff.go:22-73 | the errors of loading either map or reading either map's options come first, in order; otherwise the legacy or fast diff is chosen by MapRequiresLegacyDiffing and its changes are dispatched |
| MinerDiff.DiffSectors | chain/actors/builtin/miner/diff.go:118-168 | the errors of loading either array or of an unknown code come first, in order; otherwise the legacy or fast diff is chosen by ArrayRequiresLegacyDiffing on the two bitwidths and its changes are dispatched |
| VerifiedRegistry.RegistryState.constructor | tasks/actorstate/verifreg.go:46-49 | a loaded state holds the given registry content, as a new object |
| VerifiedRegistry.NewExtractionContext | tasks/actorstate/verifreg.go:45-81 | the current state loads first; at epoch 0 or when the actor is absent from the parent, the previous state is the current one; a failed parent lookup is an error; otherwise the parent state is loaded separately; there is a previous state exactly when the height is not 1, the epoch is not 0 and the parent actor was found |
| VerifiedRegistry.DiffCounts | tasks/actorstate/verifreg.go:143-175 | a diff gives one row per added or modified entry and one event per added or removed entry, all at the current height and state root; modified rows carry the new DataCap; ADDED events precede REMOVED events |
| VerifiedRegistry.GenesisCounts | tasks/actorstate/verifreg.go:117-136 | without a previous state, each entry yields one row with its DataCap and one ADDED event |
| VerifiedRegistry.ChangesOfMembers | tasks/actorstate/verifreg.go:138-141 | the registry diff's added, removed and modified lists are exactly the Add, Remove and Modify changes of the underlying map diff |
| VerifiedRegistry.DiffRowsMatchListing | tasks/actorstate/verifreg.go:143-175 | over a complete map diff, the rows are exactly the new DataCaps of the added or changed addresses |
| VerifiedRegistry.DiffEventsMatchListing | tasks/actorstate/verifreg.go:143-166 | over a complete map diff, an address has an ADDED event exactly when it is new and a REMOVED event exactly when it is gone |
| VerifiedRegistry.AddedEventFor | tasks/actorstate/verifreg.go:151-156 | an ADDED event for an address exists exactly when the diff has an Add change for it |
| VerifiedRegistry.RemovedEventFor | tasks/actorstate/verifreg.go:159-166 | a REMOVED event for an address exists exactly when the diff has a Remove change for it |
| VerifiedRegistry.AppendRows | tasks/actorstate/verifreg.go:144-150 | appends one row per entry at the current height and state root |
| VerifiedRegistry.AppendEvents | tasks/actorstate/verifreg.go:159-166 | appends one event of the given kind per entry |
| VerifiedRegistry.ExtractAll | tasks/actorstate/verifreg.go:117-136 | one row and one ADDED event per entry, in order |
| VerifiedRegistry.ExtractVerifiers | tasks/actorstate/verifreg.go:113-177 | without a previous state, every verifier as row and ADDED event, or the walk error; otherwise the diff's rows and events, or the wrapped diff error with nothing extracted |
| VerifiedRegistry.ExtractVerifiedClients | tasks/actorstate/verifreg.go:179-240 | the same for verified clients, with the clients' wrapped diff error |
| VerifiedRegistry.Extract | tasks/actorstate/verifreg.go:83-111 | a failed current-state load fails the extraction; at epoch 0 the four lists are the whole state's rows and ADDED events |
| MessageTask.FirstOccurrencesDistinct | tasks/message/message.go:238-270 | the unique messages have pairwise distinct CIDs, cover every CID included and come from the inclusions |
| MessageTask.SumGasAppend | tasks/message/message.go:238-242 | the gas sum over a concatenation is the sum of the sums |
| MessageTask.FirstOccurrenceGasBounded | tasks/message/message.go:238-242 | with non-negative gas limits, the distinct-message total never exceeds the every-inclusion total |
| MessageTask.ExtractedModelsShape | tasks/message/message.go:231-270 | one block-message row per inclusion; one message row and one processing entry per distinct CID, in the same order, at the tipset height |
| MessageTask.ExtractionFailsExactly | tasks/message/message.go:247-252 | extraction fails exactly when some distinct message fails to serialise |
| MessageTask.FailureExactly | tasks/message/message.go:247-252 | the reported error is that of the first distinct message that fails to serialise |
| MessageTask.RecordMessage | tasks/message/message.go:231-270 | one step of the inner loop keeps the accumulators equal to the reference models of the inclusions seen, or returns the first serialisation error |
| MessageTask.RecordBlock | tasks/message/message.go:222-270 | one block's messages, BLS first then secp256k1, keep the accumulators equal to the reference models, or give the first serialisation error |
| MessageTask.ExtractMessageModels | tasks/message/message.go:205-294 | the extracted rows, processing entries and gas totals equal the reference models, or the first serialisation error |
| MessageTask.ReceiptRowsShape | tasks/message/message.go:296-328 | fetching succeeds exactly when every block's receipts and parent messages load and no block has more receipts than parent messages; each receipt row carries its parent message's CID and its index |
| MessageTask.BlockReceiptsPairing | tasks/message/message.go:316-324 | a block's receipts pair up with its parent messages by index exactly when there are no more receipts than messages |
| MessageTask.FetchReceipts | tasks/message/message.go:296-328 | the loop yields the reference receipt rows or the first fetch or indexing error |
| MessageTask.ItemsBegun | tasks/message/message.go:93-99 | the items begun are exactly those reached before the clock first passes the lease deadline |
| MessageTask.ProcessBatch | tasks/message/message.go:68-115 | a lease error ends the processing loop (done flag true) with that error; otherwise the loop carries on (done flag false), and each item begun before the deadline is marked complete in order with its error text, empty on success |
| MessageTask.AllBegunBeforeDeadline | tasks/message/message.go:93-112 | when the deadline is never reached, every leased item is marked |
| Lens.CidsEqual | lens/util.go:55-65 | true exactly when both lists have the same length and agree elementwise; false on a length mismatch |
| Lens.SameCidsIsEquality | lens/util.go:55-65 | the elementwise comparison is sequence equality |
| Lens.SameCidsReflexiveSymmetric | lens/util.go:55-65 | the comparison is reflexive and symmetric |
| Lens.EfficientStateGetActor | lens/util.go:33-53 | success means the child at the next height has exactly the tipset's blocks as parents and the actor is read from the child's parent state; a child with other parents is refused |
| Lens.OptimizedStateGetActorWithFallback | lens/util.go:24-31 | the optimised result when it succeeds, otherwise the fallback's result |
| Lens.FallbackUnusedOnContinuousChain | lens/util.go:24-53 | on a continuous chain whose child state holds the actor, the result is that actor and the fallback is never consulted |

## Left out

- Database access is a parameter. The query results and the update outcome are given, and `QueryGaps` filters the ledger in ledger order rather than ordering by height descending. The `DistinctOn("height")` query result is given as the heights list.
- Opening the lens node and closing it, the logging, the metrics and the tracing spans have no observable effect on the results and are left out.
- `time.Now()` is a parameter: the two report times of the gap indexer (one reading per detector), the lease clock and the per-item clock readings. The jittered idle sleep on an empty batch is left out. The indexer names built from the clock (`gapfill_%d`) are not modelled: the indexer factory is a function of the task only.
- The chain node's calls are function parameters: `ChainGetTipSetByHeight`, `ChainGetTipSet`, `ChainGetParentReceipts`, `ChainGetParentMessages`, `StateGetActor`, state-tree loading, and the walker and indexer.
- `cid.Decode`, message serialisation and the CBOR decoding of pre-commit and sector records are function parameters.
- `adt.MapOptsForActorCode` is a parameter.
- The HAMT and AMT diff libraries (`diff.Hamt`, `diff.Amt`) and the legacy callback walk (`diff.GenericMap`, `diff.GenericArray`) are given as the change list they produce. A failure inside the library itself is not modelled.
- `preCommitDiffContainer.AsKey` (key parsing for the HAMT walk) is not modelled.
- `verifreg.DiffVerifiers` and `verifreg.DiffVerifiedClients` are parameters. Their change lists are related to map diffs by `ChangesOfMembers`.
- Addresses, DataCaps, CIDs and state roots are strings and unbounded integers. int64 and uint64 wrap-around is not modelled.
- Map iteration order (`blkMsgs`, the registry's `ForEach`) is modelled as a sequence in a given order.
- The floating-point part of the gas economy row (base fee, base-fee change, fill, capacity and waste ratios, message.go:273-291) is left out. So is `ComputeNextBaseFee`.
- `processItem`, `fetchMessages` and `processTipSet` (the orchestration around extraction, with its persistence) are not modelled. Neither is `MessageProcessor.Run`'s repeat loop.
- Context cancellation inside `extractMessageModels` and `fetchReceipts` is not modelled. Cancellation in `processBatch` is modelled through the clock readings.
- The completion timestamp passed to `MarkTipSetMessagesComplete` is left out, and so is a failure of that call, which the code only logs.
- A panic when a block has more receipts than parent messages is modelled as the error `IndexOutOfRange`.
- Verifier and client rows share one row type, and their events share one event type.
- The Extractor registration in `init`, the processor service, the CLI commands, the schemas and the migrations are not part of this model.
- `VerifiedRegistry.NewExtractionContext`: the parent-lookup error text is abbreviated to its prefix and the lookup's own message; the parent tipset key and the epoch that the source formats into it are not part of the model's actor record.
- `VerifiedRegistry.Extract`: the contract states the load-error case and the epoch-0 case only. The diffed case follows from the contracts of `NewExtractionContext`, `ExtractVerifiers` and `ExtractVerifiedClients`, but it involves the freshly loaded state objects.
- `GapFind.FindEpochGaps`: the "exactly the missing heights" property is stated for strictly descending, non-negative heights, which is what the height-descending distinct query returns. For other inputs only the sorted-permutation property is stated.
