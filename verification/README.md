# Verified models of the block explorer's indexing core

This project models, in Dafny, the parts of the Stellar block explorer backend whose correctness is hardest to see from
the code: stack walkers that stand in for recursion, binary parsers, a contract runner over a partial store, a
crash-and-resume pipeline, event identity, last-wins folds, drains over a changing table, and calendar arithmetic.
`dafny verify dfyconfig.toml` proves everything. Nothing is executed.

| module | what it models |
|---|---|
| `CallTree` | `crates/xdr-parser/src/invocation.rs`: the auth-tree flattener, the host-trace walker, the two-pass JSON builder |
| `Wasm` | `crates/xdr-parser/src/contract.rs`: LEB128, custom sections, the import walker, against an encoder of whole modules |
| `DemandLoading` | `contract-executor`, `contract_state.rs`, `contract_metadata.rs`: runs over a partial store, missing keys loaded on demand |
| `Partitions`, `Sync`, `Ingest`, `BackfillExecute`, `BackfillRun` | the backfill: partition arithmetic, sync decision, indexing and commit, the driver loop, and the whole run as a protocol of steps with crashes |
| `EventIds` | `event.rs`: TOID packing, ledger-wide counters, random access to one transaction's events |
| `Folds`, `ExecutableRefs`, `ClaimableBalances` | the last-wins fold and two of its clients, the second one up to a replay of the raw changes |
| `PoolAmounts`, `KeysetDrain`, `NftReclassify`, `VerdictCache` | ledger-aligned streaming, keyset pagination under interference, a crash-safe table move, a memo over a store |
| `Calendar` | `fmt_utc` and `dir_stamp` of the load-test tool |
| `Bits`, `Bytes`, `Decimal`, `Sets`, `Options`, `ContractTypes` | shared arithmetic, UTF-8, decimal text and its order, small datatypes |

Code that updates variables is a method with loops, or a class, proved against a specification function; what the source
promises is then proved of that function. Values (trees, changes, rows) are datatypes.

## Conventions

- The Soroban host is a deterministic reader: what it asks next depends only on the answers so far, and a budget bounds
  a run (`DemandLoading.View`).
- A ClickHouse table is a set or map of rows; a replacing merge keeps the newest row of a key. What the server, the file
  system, `aws` or a spawned process does is a parameter of the method that calls it, or a step of the protocol.
- An `ScAddress`, balance id or asset stands for its StrKey or rendered form, which are one to one.
- Magnitudes are unbounded except where the width matters: LEB128 values modulo 2^32, `u32` partition arithmetic, the
  `usize as i64` cast of the drains, 20- and 12-bit TOID fields.

## Where the code and its description part

- `invocation_to_json` says left-to-right (crates/xdr-parser/src/invocation.rs:456), but the second pass takes children
  off its stack right to left: siblings come out reversed at every node. `CallTree.InvocationToJson` states what it
  does, `CallTree.JsonInOrderIff` when that is the intended tree, `CallTree.ReversedChildrenGiveTreeOrder` that
  reversing each `split_off` result repairs it.
- `load_entry` files an instance under its persistent key whatever durability was asked for
  (crates/indexer/src/contract_state.rs:56-63). For a temporary instance key that can put the stored entry in the place
  of this ledger's own: `DemandLoading.LoadKeepsAgreementIff` gives the exact condition, `DemandLoading.TemporaryKeyExample`
  an input. The host asks for instances under their persistent key only, so no run reaches it; the theorems about runs say
  so (`DemandLoading.ReadsPersistentInstances`).
- `ledger_metadata_writes` keeps the last *Wasm* hash of a contract (crates/indexer/src/contract_metadata.rs:98-101) and
  takes from it the list of functions to try. A contract that moves in one ledger from a program of its own to an external
  reference is run as the reference, but with the old program's list: `DemandLoading.FunctionsTriedAreThoseRunIff`,
  `DemandLoading.MoveToReferenceExample`.
- `effective_chunk` casts the remainder to `i64` (crates/backfill-enrichment-runner/src/main.rs:700): with 2^63 or more
  left it asks for nothing and the drain ends at once. `KeysetDrain.ChunkPositiveIff`.
- `Partition::from_ledger` overflows `u32` exactly from ledger 4294912000 on: `Partitions.FromLedgerIff`. The model
  treats overflow as the panic it is in an overflow-checked build.
- The RPC id strings do not always sort as the ids do once TOIDs need 20 digits, from transaction 564864 of ledger
  2328306436 on. `EventIds.RpcStringOrderIff` says for which pairs they do not, `EventIds.RpcStringsSortExactlyBelow` that
  no longer initial stretch of TOIDs sorts right than those of 19 digits.
- The NFT pass reads the verdicts anew in every statement. A contract that becomes an NFT between promotion and drop
  loses its quarantined rows: `NftReclassify.SafeIffNoLateVerdict`.
- `fetch_prior_contract_verdicts` says a failed query gives an empty map (crates/db-clickhouse/src/persist.rs:456-458);
  it gives the verdicts cached before. `VerdictCache.FetchPriorContractVerdicts`. The documented staleness after an
  upgrade is stated exactly by `VerdictCache.AnswerIsStoreIff`.
- `fmt_utc` strings sort as the times do up to the end of the year 9999 and not one second further:
  `Calendar.SortsExactlyBelow`.

## Model

| member | source | states |
|---|---|---|
| `CallTree.FlattenInvocation` | crates/xdr-parser/src/invocation.rs:224-275 | the explicit stack emits exactly the pre-order rows of the tree, after what was there, and moves the index on by the tree's size |
| `CallTree.RowsIndexed` | crates/xdr-parser/src/invocation.rs:249-263 | one row for each node, numbered consecutively, none above the root's depth |
| `CallTree.RowsNested` | crates/xdr-parser/src/invocation.rs:265-273 | depth is nesting depth: every row below the root is called by the contract of the innermost call still open, and only roots carry the return value |
| `CallTree.RowsShowCalls` | crates/xdr-parser/src/invocation.rs:246-261 | each row names the contract, function and arguments of its own call, in pre-order |
| `CallTree.FlattenAuthTree` | crates/xdr-parser/src/invocation.rs:169-209 | the fallback list is the rows of every auth entry of every contract call, the caller being the operation's source or else the transaction's |
| `CallTree.AuthRowsNumbered` | crates/xdr-parser/src/invocation.rs:178-208 | one counter runs across operations and auth entries: indexes 0, 1, 2, … |
| `CallTree.RootsCalledBySource` | crates/xdr-parser/src/invocation.rs:191-195 | the roots of an operation are called by its own source where it has one, else by the transaction's |
| `CallTree.WalkDiagnostics` | crates/xdr-parser/src/invocation.rs:310-370 | the walker is a fold over the call and return signals of the diagnostic-typed events |
| `CallTree.CallEncodings` | crates/xdr-parser/src/invocation.rs:381-426 | a called contract is read from 32 raw bytes or a contract address alike; an account, another length, a missing topic, another symbol or a contract-typed event is no call, and a return is a return |
| `CallTree.EventInserted` | crates/xdr-parser/src/invocation.rs:327-339 | any other event, wherever it stands in the stream, changes nothing |
| `CallTree.WalkBrackets` | crates/xdr-parser/src/invocation.rs:341-366 | walking a traced forest, whatever follows it, emits its rows and leaves the frame stack as it was |
| `CallTree.TraceAgreesWithFlatten` | crates/xdr-parser/src/invocation.rs:277-370 | on every forest of contract calls the trace gives the flattener's rows in contract, caller, depth and index |
| `CallTree.TrapGivesPrefix` | crates/xdr-parser/src/invocation.rs:299-301 | a trace cut anywhere gives the prefix of those rows with one row for each call entered |
| `CallTree.ExtractInvocations` | crates/xdr-parser/src/invocation.rs:67-162 | trace rows when the trace has any call, else the auth rows; the trees of all auth entries in order, or none; the meta's return value is on every root of the trees and of the auth rows and on nothing else |
| `CallTree.FindRootCaller` | crates/xdr-parser/src/invocation.rs:118-129 | the root caller is the source of the first contract call, or of the transaction when it has none |
| `CallTree.EitherPathAgrees` | crates/xdr-parser/src/invocation.rs:109-156 | with one contract call whose auth trees are its whole execution, both paths give the same contracts, callers, depths and indexes |
| `CallTree.InvocationToJson` | crates/xdr-parser/src/invocation.rs:431-483 | the result stack never underflows and ends with one value: the JSON of the tree with siblings mirrored at every node, the return value on the root only |
| `CallTree.BuildsMirror` | crates/xdr-parser/src/invocation.rs:462-480 | the second pass over any forest's visits leaves the mirrored forest on top of whatever was on the stack |
| `CallTree.BuildsForward` | crates/xdr-parser/src/invocation.rs:468-469 | with each `split_off` result reversed, it builds the forest itself |
| `CallTree.ReversedChildrenGiveTreeOrder` | crates/xdr-parser/src/invocation.rs:468-469 | so the repaired builder gives the left-to-right tree for every input |
| `CallTree.JsonInOrderIff` | crates/xdr-parser/src/invocation.rs:456-480 | as written, the JSON has the tree's order exactly when the tree is its own mirror image |
| `CallTree.ChainIsItsMirror` | crates/xdr-parser/src/invocation.rs:456-480 | which every tree without siblings is |
| `CallTree.SiblingsSwapped` | crates/xdr-parser/src/invocation.rs:456-480 | and a root with two different leaves is not: they come out swapped |
| `Wasm.ReadLeb128` | crates/xdr-parser/src/contract.rs:115-129 | the or-and-shift loop gives the sum of the 7-bit groups modulo 2^32 and the byte count, or nothing past five bytes or at the end of input |
| `Wasm.ReadEncoded` | crates/xdr-parser/src/contract.rs:115-129 | every encoding of one to five bytes is read wherever it stands, non-minimal ones included |
| `Wasm.ReadIffEncoding` | crates/xdr-parser/src/contract.rs:115-129 | an integer is read exactly where an encoding stands |
| `Wasm.LebIsU32` | crates/xdr-parser/src/contract.rs:114-129 | every u32 has an encoding of at most five bytes with its own value |
| `Bytes.ValidUtf8Iff` | crates/xdr-parser/src/contract.rs:89 | a section name is accepted exactly when it is the encoding of Unicode scalar values |
| `Wasm.ExtractCustomSection` | crates/xdr-parser/src/contract.rs:59-112 | on arbitrary bytes the walker ends, reads within bounds, and decides section by section as specified |
| `Wasm.CustomSectionFound` | crates/xdr-parser/src/contract.rs:70-111 | over the encoding of any list of well-formed sections the search is a search of that list |
| `Wasm.ExtractInvertsEncode` | crates/xdr-parser/src/contract.rs:54-112 | on every encoded module it returns the content of the first custom section of the name, or nothing |
| `Wasm.SkipLimits` | crates/xdr-parser/src/contract.rs:367-377 | stays within the body and lands after the limits, or reports that it cannot |
| `Wasm.LimitsHeld` | crates/xdr-parser/src/contract.rs:365-377 | exactly the bytes of an encoded limits are skipped, with and without a maximum |
| `Wasm.DescHeld` | crates/xdr-parser/src/contract.rs:327-360 | exactly the bytes of an import descriptor are skipped, for all four kinds |
| `Wasm.ImportSectionHasUpgrade` | crates/xdr-parser/src/contract.rs:291-363 | on arbitrary bytes the import walk ends within bounds and gives the specified verdict |
| `Wasm.ImportsScanned` | crates/xdr-parser/src/contract.rs:295-362 | on an encoded import vector the verdict is true exactly when a function import named ("l", "6") is in it, at any place among other kinds |
| `Wasm.WasmImportsUpgradeFn` | crates/xdr-parser/src/contract.rs:261-289 | a header that cannot be read and a module without imports both give false |
| `Wasm.ImportSectionFound` | crates/xdr-parser/src/contract.rs:270-288 | the search reaches the import section past any others and judges that one |
| `Wasm.UpgradeFoundIff` | crates/xdr-parser/src/contract.rs:237-289 | on every encoded module: true exactly when a function import ("l", "6") exists |
| `DemandLoading.CallView` | crates/contract-executor/src/lib.rs:64-127 | missing keys win over any result and are reported once each; otherwise the value, or failure |
| `DemandLoading.Snapshot.Get` | crates/contract-executor/src/lib.rs:137-147 | a known key is answered, an unknown one reads as absent and is recorded |
| `DemandLoading.NothingMissingMeansExact` | crates/contract-executor/src/lib.rs:45-50 | a run that misses nothing over entries agreeing with a store is the run over that store |
| `DemandLoading.MissingIsAsked` | crates/contract-executor/src/lib.rs:113-119 | a run misses something exactly when the run over the whole store asks for a key not yet known, and reports one such key |
| `DemandLoading.LoadEntry` | crates/indexer/src/contract_state.rs:37-66 | what is inserted under which key, and that only contract data is not found |
| `DemandLoading.StoredProgram` | crates/indexer/src/contract_state.rs:43-55 | a stored program is its entry, unless it is empty or too long for XDR |
| `DemandLoading.LoadInstances` | crates/indexer/src/contract_state.rs:70-101 | each contract's instance becomes known, present or absent, and nothing else changes |
| `DemandLoading.LoadKeepsAgreementIff` | crates/indexer/src/contract_state.rs:56-63 | loading a missed key keeps agreement with this ledger over the database exactly when it is not a temporary instance key shadowed by a differing entry of this ledger |
| `DemandLoading.TemporaryKeyExample` | crates/indexer/src/contract_state.rs:56-63 | one such key: the stored instance replaces the one this ledger wrote |
| `DemandLoading.LoadedGrows` | crates/indexer/src/contract_state.rs:37-66 | otherwise just that key becomes known and no known entry is touched |
| `DemandLoading.LoadAll` | crates/indexer/src/contract_metadata.rs:205-211 | a whole round of loads keeps agreement and every known entry, and makes all reported keys known unless one is contract data |
| `DemandLoading.RunRounds` | crates/indexer/src/contract_metadata.rs:197-216 | a value is the function's value over the whole store; with fewer than five unknown keys and no contract data it is found; giving up means the function fails or five keys were learned, asking for contract data that it can ask for some |
| `DemandLoading.ReadMetadata` | crates/indexer/src/contract_metadata.rs:181-231 | in a metadata answer each field holds what the function of its own name returns over the whole store, valid UTF-8 for the texts, and is empty exactly when that function is not declared; within reach the answer is metadata exactly when each declared function returns its type; the two failures have their causes |
| `DemandLoading.WholeFillsFields` | crates/indexer/src/contract_metadata.rs:217-228 | filling the fields in turn over the whole store succeeds exactly when every declared function returns its type, and puts each value in the field of its name |
| `DemandLoading.ReadTwice` | crates/indexer/src/contract_metadata.rs:178-231 | two reads of one store from different starting entries: where both give metadata it is the same, and within reach the answers are the same |
| `DemandLoading.BuildOverlay` | crates/indexer/src/contract_metadata.rs:90-125 | the three maps are built as specified: this ledger's entries, each contract's last Wasm hash, and what each program declares, this ledger's upload before the stored one |
| `DemandLoading.LedgerEntriesAre` | crates/indexer/src/contract_metadata.rs:90-125 | this ledger's entries are each contract's last decodable instance and each program's last upload, and nothing else |
| `DemandLoading.OwnHashes` | crates/indexer/src/contract_state.rs:125-138 | only an instance with a Wasm program of its own has a hash |
| `DemandLoading.FunctionsTriedAreThoseRunIff` | crates/indexer/src/contract_metadata.rs:94-102 | the host always runs the instance the contract ends the ledger with; the functions tried are those of its last own program, which is the program run exactly when the last instance has one of its own |
| `DemandLoading.MoveToReferenceExample` | crates/indexer/src/contract_metadata.rs:94-102 | a move from an own program to an external reference: the reference is run, the old program's functions are tried |
| `DemandLoading.WriteOf` | crates/indexer/src/contract_metadata.rs:158-174 | one contract's write, if any, holds field by field what its functions return over the whole store, for a program that declares decimals, or name and symbol; and it is made when due |
| `DemandLoading.LedgerMetadataWrites` | crates/indexer/src/contract_metadata.rs:84-176 | every write is sound over the overlay shared by all contracts, and no contract that is due one goes without |
| `Partitions.SomePartitions` | crates/backfill-runner/src/partition.rs:25-42 | the genesis partition, its neighbour and the one of ledger 62016086, with their counts |
| `Partitions.FromLedgerIff` | crates/backfill-runner/src/partition.rs:26-31 | the u32 arithmetic holds exactly below ledger 4294912000 |
| `Partitions.PartitionsForRange` | crates/backfill-runner/src/partition.rs:107-120 | the loop lists the tiles of the range, and overflows exactly when the range reaches the cut-off partition |
| `Partitions.TilesAscend` | crates/backfill-runner/src/partition.rs:102-120 | whole partitions in ascending order, none outside the range |
| `Partitions.TilesCover` | crates/backfill-runner/src/partition.rs:86-88 | a ledger lies in the clamped part of a tile exactly when it is in the range and not before the first closed ledger |
| `Partitions.TilesDisjoint` | crates/backfill-runner/src/partition.rs:86-88 | of one tile only |
| `Partitions.FilesCount` | crates/backfill-runner/src/partition.rs:35-42 | `ledger_count` is the number of ledgers a complete copy holds, the shorter genesis partition included |
| `Partitions.CountMeansComplete` | crates/backfill-runner/src/sync.rs:268-272 | by pigeonhole, a folder of this partition's files is complete exactly when the count is right |
| `Sync.DirStats` | crates/backfill-runner/src/sync.rs:381-397 | the number of ledgers present and their bytes, other files left out |
| `Sync.CountCompletePartition` | crates/backfill-runner/src/sync.rs:284-310 | a result exactly when the folder exists with the expected number of ledgers |
| `Sync.RunSyncWithRetry` | crates/backfill-runner/src/sync.rs:315-339 | fails exactly when all three attempts do, stops at the first success, and waits 2 and then 4 seconds between them, the capped doubles of the base delay |
| `Sync.SyncPartition` | crates/backfill-runner/src/sync.rs:172-260 | complete means every file is there; lag and each of the three errors come exactly in the cases the decision procedure gives them |
| `Ingest.PartitionWriter.WriteLedger` | crates/db-clickhouse/src/persist/writer.rs:261-535 | one more ledger staged and the inserts of its tables opened, nothing visible |
| `Ingest.PartitionWriter.Commit` | crates/db-clickhouse/src/persist/writer.rs:536-633 | succeeds exactly when every opened insert is taken and, if ledgers are staged, the markers' too; markers appear only after every table's rows, all or none, and a marked ledger has its rows whichever insert fails |
| `Ingest.PartitionWriter.Abort` | crates/backfill-runner/src/sink.rs:285-290 | what was staged is gone |
| `Ingest.IndexPartition` | crates/backfill-runner/src/ingest.rs:173-262 | succeeds exactly when every due ledger parses and every insert is taken, and then has written exactly the ledgers of the clamped range not yet in the database, in order; indexed plus skipped is the clamped length; only its own files go, each only once its ledger was staged or known done; the file assertion holds; on a parse error nothing is marked or visible |
| `BackfillExecute.LoadCompleted` | crates/backfill-runner/src/sink.rs:87-129 | exactly the stored sequences of the range |
| `BackfillExecute.PartitionFullyDone` | crates/backfill-runner/src/run.rs:347-355 | true exactly when the whole clamped range is completed |
| `BackfillExecute.PartitionsToDo` | crates/backfill-runner/src/run.rs:83-86 | the partitions not fully done, in order |
| `BackfillExecute.SyncFolder` | crates/backfill-runner/src/sync.rs:172-260 | syncs that deliver the partition end complete, as does a folder that was whole before; only a short listing ends as lag; no other folder is touched |
| `BackfillExecute.HandlePartition` | crates/backfill-runner/src/run.rs:152-194 | fails exactly on a synced partition with a due ledger that does not parse or an insert that is not taken; otherwise what is due is written or the lagging partition passed over, and just its folder is cleared, unless folders are kept |
| `BackfillExecute.IndexAll` | crates/backfill-runner/src/run.rs:133-208 | the outcome carried round the loop always belongs to the partition it is used for; the run's books match what it wrote; it stops only at a partition whose syncs did not deliver or that cannot be indexed, with all before it handled, and passes over only lagging ones; kept files stay, otherwise a finished loop leaves no file of its partitions, and other files are never touched |
| `BackfillExecute.Execute` | crates/backfill-runner/src/run.rs:32-208 | when all syncs deliver, all due ledgers parse and all inserts are taken, the run succeeds with nothing passed over and adds exactly the range (from the first closed ledger) to the markers, writing all of it again under reindex; an error names a partition that gave cause, with exactly the due ledgers before it written; indexed plus skipped is the clamped length of what was indexed; files are kept or cleared as asked, others untouched; a range already marked is left alone |
| `BackfillExecute.WroteRange` | crates/backfill-runner/src/run.rs:76-86 | with nothing passed over, a ledger is written exactly when it is in the range and was not there before |
| `BackfillRun.TodoMembers` | crates/backfill-runner/src/run.rs:83-86 | filtering drops a partition exactly when it is fully done |
| `BackfillRun.StepKeepsInv` | crates/backfill-runner/src/run.rs:126-208 | every step of the protocol (fetches, one ledger, each insert ended, marker, part or all of a cleanup, crash, restart) keeps the invariant |
| `BackfillRun.LedgerKeepsInv` | crates/backfill-runner/src/ingest.rs:200-229 | deleting a file while the next partition is being fetched takes nothing either partition still needs |
| `BackfillRun.MarkedLedgersHaveRows` | crates/db-clickhouse/src/persist/writer.rs:40-48 | in every reachable state, over any runs and crashes, a marked ledger has its rows in every table |
| `BackfillRun.MarkersNeverShrink` | crates/backfill-runner/src/run.rs:70-74 | the marker set only grows |
| `BackfillRun.FileNeverMissing` | crates/backfill-runner/src/ingest.rs:211-217 | the assertion that a ledger's file exists cannot fail in any interleaving with the prefetch |
| `BackfillRun.WrittenOnce` | crates/backfill-runner/src/ingest.rs:200-220 | no run writes a ledger twice, or one that was completed when it started |
| `BackfillRun.FinishedMarksOrSkips` | crates/backfill-runner/src/run.rs:153-194 | when a run is over, a ledger of its range is marked or lies in a partition passed over because the archive lacked part of it |
| `BackfillRun.FinishedRunMarksRange` | crates/backfill-runner/src/run.rs:135-208 | with a whole archive, the whole range is marked |
| `BackfillRun.FinishedRunWroteRange` | crates/backfill-runner/src/run.rs:135-208 | a finished run that passed over nothing wrote each ledger of its range that was not done before exactly once, and nothing else |
| `BackfillRun.StartCounts` | crates/backfill-runner/src/run.rs:60-74 | a reindexing run takes nothing for done, any other the marked ledgers of its range |
| `BackfillRun.IndexedFileGoes` | crates/backfill-runner/src/ingest.rs:133-145 | a ledger's file goes as it is indexed, unless files are kept or the unlink fails |
| `BackfillRun.FinishedRunLeavesNoFiles` | crates/backfill-runner/src/run.rs:266-296 | after any crashes and restarts, a finished run that keeps no files has none of its partitions' on disk |
| `BackfillRun.KeptFilesStay` | crates/backfill-runner/src/run.rs:273-280 | a run that keeps its files deletes none |
| `BackfillRun.WorkShrinks` | crates/backfill-runner/src/run.rs:135-208 | every step of work leaves less to do |
| `BackfillRun.NeverStuck` | crates/backfill-runner/src/run.rs:135-208 | with a whole archive an unfinished run can always fetch and then work |
| `BackfillRun.RunsToItsEnd` | crates/backfill-runner/src/run.rs:126-208 | so from every reachable state a continuation without crashes finishes the run with its range marked |
| `EventIds.ToidValue` | crates/xdr-parser/src/event.rs:33-37 | shift-or packing is ledger·2^32 + transaction·2^12 + operation within the fields' widths |
| `EventIds.ToidInverse` | crates/xdr-parser/src/event.rs:33-37 | and each part is read back from it |
| `EventIds.ToidOrder` | crates/xdr-parser/src/event.rs:15-37 | TOIDs order exactly as (ledger, transaction, operation) do |
| `EventIds.RpcStringReads` | crates/xdr-parser/src/event.rs:39-42 | the text is the TOID in at least 19 digits, a dash and the event number in at least 10, and both read back |
| `EventIds.RpcStringOrder` | crates/xdr-parser/src/event.rs:39-42 | the padded strings sort and coincide exactly as the ids do while TOIDs have 19 digits |
| `EventIds.NineteenDigits` | crates/xdr-parser/src/event.rs:39-42 | which are exactly those before transaction 564864 of ledger 2328306436, all below ledger 2^31 among them |
| `EventIds.RpcStringOrderIff` | crates/xdr-parser/src/event.rs:39-42 | over all ids, two strings compare as the ids do exactly when it is not that one TOID has 19 digits, the other 20, and the shorter exceeds the first 19 digits of the longer |
| `EventIds.RpcStringsSortExactlyBelow` | crates/xdr-parser/src/event.rs:39-42 | all strings of TOIDs below a bound sort as the ids exactly when the bound is at most 10^19 |
| `EventIds.RpcStringOrderBreaks` | crates/xdr-parser/src/event.rs:39-42 | two neighbouring transactions of ledger 2328306436 whose strings sort the wrong way round |
| `EventIds.EventLists` | crates/xdr-parser/src/event.rs:183-206 | which events each version of a meta holds |
| `EventIds.LedgerEvents.constructor` | crates/xdr-parser/src/event.rs:76-98 | each transaction's starting counters are the ledger-wide stage counts ahead of it |
| `EventIds.LedgerEvents.Extract` | crates/xdr-parser/src/event.rs:103-165 | one transaction's events numbered from those counters, and none for a transaction the ledger does not have |
| `EventIds.RandomAccessIsPassSlice` | crates/xdr-parser/src/event.rs:60-70 | random access to transaction i is slice i of one sequential pass |
| `EventIds.ExtractedAtPlaces` | crates/xdr-parser/src/event.rs:124-157 | every extracted event carries the id of its place in the ledger, its origin and its body |
| `EventIds.IdOrderIsExecutionOrder` | crates/xdr-parser/src/event.rs:48-51 | sorting a ledger's events by id gives all before-all events, each transaction's operations then its after-tx events, all after-all events |
| `EventIds.IdsDistinct` | crates/xdr-parser/src/event.rs:15-31 | no two events of a ledger share an id |
| `Folds.KeepLastByKey` | crates/xdr-parser/src/fold.rs:21-35 | the position map and slot overwriting give the last item of each key at the place of its first |
| `Folds.KeepKeeps` | crates/xdr-parser/src/fold.rs:18-20 | folding keeps every key, its place in the order and its last item |
| `Folds.KeepIdempotent` | crates/xdr-parser/src/fold.rs:18-35 | folding a folded list changes nothing |
| `Folds.KeepOfKeeps` | crates/xdr-parser/src/fold.rs:18-35 | folding two parts and then their concatenation is one fold of the whole |
| `Folds.FoldPerPart` | crates/xdr-parser/src/fold.rs:1-8 | so folding each transaction and then the ledger is one fold of the ledger |
| `ExecutableRefs.ExtractExecutableRefTargets` | crates/xdr-parser/src/executable_ref.rs:95-134 | the mappings of the accepted changes, folded by owner, tag and ledger |
| `ExecutableRefs.MappingWritten` | crates/xdr-parser/src/executable_ref.rs:101-123 | a tagged 32-byte contract-data entry is a mapping exactly when created, updated or restored; pre-images and removals are none |
| `ExecutableRefs.LedgerKeepsLastWrite` | crates/db-clickhouse/src/persist/stage.rs:516-539 | after both folds the rows are exactly the mappings with no later one of the same owner, tag and ledger, whichever transaction wrote them, one each |
| `ClaimableBalances.ExtractClaimableBalances` | crates/xdr-parser/src/claimable_balance.rs:52-119 | a created, updated or restored entry with the last word on its balance is there as an open holding, a removal with the last word as a tombstone under the asset last named before it, and every holding comes from such a change |
| `ClaimableBalances.BuildClaimableBalanceRows` | crates/db-clickhouse/src/persist/claimable_balances.rs:26-49 | the second fold, over the ledger |
| `ClaimableBalances.RowsAreEffects` | crates/xdr-parser/src/claimable_balance.rs:46-51 | on a well-formed transaction every removal yields a tombstone under the asset of its live row |
| `ClaimableBalances.LedgerRowIsLastEffect` | crates/db-clickhouse/src/persist/claimable_balances.rs:18-25 | a balance's row for the ledger is its last change in application order, across transactions |
| `ClaimableBalances.TableTellsLive` | crates/xdr-parser/src/claimable_balance.rs:1-12 | over any run of ledgers the newest row of every balance says of it what the replayed changes say |
| `ClaimableBalances.MergedViewIsReplay` | crates/xdr-parser/src/claimable_balance.rs:44-51 | the open balances read from the merged table are the replayed state, and only that |
| `ClaimableBalances.SupplyIsLiveTotal` | crates/xdr-parser/src/claimable_balance.rs:3-9 | an asset's amounts summed over the merged rows are what the live balances hold of it |
| `ClaimableBalances.TombstonesAddNothing` | crates/xdr-parser/src/claimable_balance.rs:37-42 | tombstones never count in such a sum |
| `PoolAmounts.StreamPool` | crates/backfill-runner/src/soroban_pool_amounts.rs:102-124 | for every ledger-local decoder the chunk outputs are the decoding of the whole stream, every event is counted, every cut lies between ledgers, every buffer but the last has at least 100000 events and none exceeds 99999 plus the largest ledger |
| `PoolAmounts.CutIsLocal` | crates/backfill-runner/src/soroban_pool_amounts.rs:105-110 | a buffer is cut off only where no ledger is split |
| `PoolAmounts.BufferBound` | crates/backfill-runner/src/soroban_pool_amounts.rs:36-39 | how long a buffer can get |
| `KeysetDrain.EffectiveChunk` | crates/backfill-enrichment-runner/src/main.rs:697-705 | a chunk never takes the total past the limit |
| `KeysetDrain.ChunkIs` | crates/backfill-enrichment-runner/src/main.rs:697-705 | a chunk is whole, or what is left to the limit if that is less, or nothing from 2^63 left on |
| `KeysetDrain.ChunkPositiveIff` | crates/backfill-enrichment-runner/src/main.rs:697-709 | before the limit is reached a chunk asks for something exactly when the remainder is below 2^63 |
| `KeysetDrain.Report.CollectJoin` | crates/backfill-enrichment-runner/src/main.rs:713-784 | every joined task counts once under one outcome, a panic as a database failure |
| `KeysetDrain.Drain` | crates/backfill-enrichment-runner/src/main.rs:303-329 | with candidates coming and going: visits strictly ascend and stay within the limit; each key up to the last one visited is passed by a page and visited exactly when it is a candidate at that query, limit or not; without a binding limit every key that stays a candidate until it is reached is visited; the loop ends; the report counts each visited key once, under its own outcome |
| `KeysetDrain.PageDrained` | crates/backfill-enrichment-runner/src/main.rs:388-416 | a page taken after the cursor visits exactly the candidates among the keys it passes, and leaves what earlier pages passed as it was |
| `KeysetDrain.ReachedOnce` | crates/backfill-enrichment-runner/src/main.rs:312 | every key not ahead of the cursor was passed by some page |
| `KeysetDrain.NothingAhead` | crates/backfill-enrichment-runner/src/main.rs:309-311 | an empty page means that every key that stayed a candidate until it was reached has been visited |
| `KeysetDrain.CursorAdvances` | crates/backfill-enrichment-runner/src/main.rs:312 | every page leaves fewer keys ahead |
| `NftReclassify.PromoteOrCount` | crates/backfill-runner/src/nft_reclassify.rs:197-238 | copies, or only counts, the quarantined rows of NFT contracts |
| `NftReclassify.DropOrCount` | crates/backfill-runner/src/nft_reclassify.rs:243-286 | deletes, or only counts, the rows of the given classes |
| `NftReclassify.Execute` | crates/backfill-runner/src/nft_reclassify.rs:87-135 | row by row: quarantine keeps exactly the rows without a decisive verdict, the hot table gains the quarantined NFT rows and loses those of tokens and fungibles; every count is the number of such rows; a dry run reports the same counts and changes nothing |
| `NftReclassify.StepKeepsInv` | crates/backfill-runner/src/nft_reclassify.rs:94-135 | a statement carried out in full, in part, or cut off by a crash keeps the invariant |
| `NftReclassify.NothingLost` | crates/backfill-runner/src/nft_reclassify.rs:7-33 | at every point an NFT contract's row is in quarantine or in the hot table, and rows without a decisive verdict have not moved |
| `NftReclassify.RerunReachesSameTables` | crates/backfill-runner/src/nft_reclassify.rs:94-135 | after any number of interrupted passes a finished one leaves the tables of an uninterrupted pass |
| `NftReclassify.SecondRunFindsNothing` | crates/backfill-runner/src/nft_reclassify.rs:137-142 | a further pass moves and drops nothing |
| `NftReclassify.RacedIsFinal` | crates/backfill-runner/src/nft_reclassify.rs:87-135 | with verdicts that stay, statements that read them anew make the plain pass |
| `NftReclassify.SafeIffNoLateVerdict` | crates/backfill-runner/src/nft_reclassify.rs:204-263 | with verdicts read anew by each statement, NFT rows are safe on all tables exactly when every contract that ends as an NFT and is decisive at the drop was an NFT at the promotion |
| `NftReclassify.LateVerdictLosesRow` | crates/backfill-runner/src/nft_reclassify.rs:94-121 | every other contract loses a quarantined row for good |
| `NftReclassify.LateVerdictExample` | crates/backfill-runner/src/nft_reclassify.rs:94-121 | one such contract |
| `VerdictCache.ClassificationCache.ExtendDefinitive` | crates/domain/src/classification_cache.rs:71-84 | the definitive entries are inserted in order, others passed over |
| `VerdictCache.ClassificationCache.Missing` | crates/domain/src/classification_cache.rs:89-100 | the ids not cached, in order |
| `VerdictCache.ClassificationCache.SnapshotFor` | crates/domain/src/classification_cache.rs:106-117 | the cache restricted to the ids |
| `VerdictCache.ExtendedByMap` | crates/domain/src/classification_cache.rs:71-84 | a fetched map, walked in whatever order, makes the cache the union of the two |
| `VerdictCache.WantedIds` | crates/db-clickhouse/src/persist.rs:481-495 | the contracts of the ledger's NFT rows and events not deployed in it, each once |
| `VerdictCache.FetchPriorContractVerdicts` | crates/db-clickhouse/src/persist.rs:474-521 | a reachable store adds its decisive verdicts for the uncached wanted ids, a failed query adds nothing, and the answer is the cache restricted to the wanted ids |
| `VerdictCache.AnswerIsStoreIff` | crates/db-clickhouse/src/persist.rs:466-473 | a lookup that reaches the store answers for it exactly when no wanted id is cached with another verdict |
| `VerdictCache.CacheAgrees` | crates/domain/src/classification_cache.rs:16-28 | while verdicts are only promoted, over any history with restarts and failures, the cache holds nothing the store does not |
| `VerdictCache.LookupsAgree` | crates/db-clickhouse/src/persist.rs:497-520 | hence every lookup that reaches the store answers for it, and a failed one never contradicts it |
| `VerdictCache.FirstVerdictHeld` | crates/domain/src/classification_cache.rs:30-35 | on any history a cached verdict is what the store said at the lookup that cached it, held ever since |
| `VerdictCache.UpgradeNotSeen` | crates/db-clickhouse/src/persist.rs:466-473 | a Fungible contract that becomes an NFT keeps being answered as Fungible |
| `VerdictCache.RestartSeesStore` | crates/domain/src/classification_cache.rs:30-33 | after a restart the next lookup that reaches the store answers for it |
| `Calendar.InEra` | crates/load-tests/src/main.rs:334-337 | the nested divisions give the year of the 400-year era that holds the day |
| `Calendar.MonthTable` | crates/load-tests/src/main.rs:338-339 | the month index is the month that holds the day of the year |
| `Calendar.CivilNext` | crates/load-tests/src/main.rs:333-341 | the next day's date is the calendar successor of this day's, leap rule and month lengths included |
| `Calendar.CivilIsCalendar` | crates/load-tests/src/main.rs:333-341 | for every day the date is valid, and counting calendar days from 1970 to it gives the day back |
| `Calendar.BreakInverts` | crates/load-tests/src/main.rs:330-342 | for every timestamp the fields are a valid date and time that converts back to the same seconds |
| `Calendar.FourDigitYears` | crates/load-tests/src/main.rs:341-342 | the year has four digits exactly before day 2932897 |
| `Calendar.TextSortsAsTime` | crates/load-tests/src/main.rs:328-348 | below 253402300800 seconds both strings sort exactly as the times do |
| `Calendar.SortsExactlyBelow` | crates/load-tests/src/main.rs:328-343 | and on no longer initial stretch of time |
| `Calendar.OrderEndsWithYear9999` | crates/load-tests/src/main.rs:342 | the two neighbouring seconds whose strings sort the wrong way round |
| `Calendar.TextLayout` | crates/load-tests/src/main.rs:342-348 | the texts are `YYYY-MM-DD HH:MM:SS` and `YYYY-MM-DDTHH-MM-SSZ`, each field in its place |
| `Calendar.FieldsRead` | crates/load-tests/src/main.rs:342 | the year takes at least four digits, the other fields two, and each reads back |
| `Calendar.StampIsText` | crates/load-tests/src/main.rs:346-348 | the two replacements change exactly the separators |
| `Calendar.DirStampInjective` | crates/load-tests/src/main.rs:345-348 | two runs share a directory name only in the same second, in any year |

## Left out

- I/O: S3, ClickHouse, RPC, SQS, Lambda, the CLI, logging, dashboards, progress bars and timings.
- Library code: the Soroban host itself, XDR decoding, zstd, hashing, StrKey and JSON rendering.
- Decoding of function names, arguments and return values in `invocation.rs`; a node's target is taken as decoded.
- `u32` and `usize` counters (invocation and event indexes, statistics) are unbounded naturals; the `expect`s that
  would fail past their width are not modelled.
- The backfill's bootstrap of account state after the loop, `--lp-amounts`, targeted `--only` writes, and the parsing of a
  ledger file into rows: a table either holds all rows of a ledger or not.
- `Sync.DirStats` and `Sync.CountCompletePartition` take it that a directory names each ledger file once.
- `Sync.SyncPartition`: files a failed `aws s3 sync` left behind are not counted, because the run ends there.
- `BackfillExecute.Execute`: the prefetch is carried out where it is awaited; its interleavings with indexing are in `BackfillRun`.
- `BackfillRun.RunsToItsEnd`: a parse or insert error ends a run as a crash does; the theorem is about continuations without one. When the driver loop itself succeeds is stated by `BackfillExecute.Execute`.
- `DemandLoading.CallView`: the missing keys are deduplicated but in the order asked, not sorted, because no result depends on it.
- `DemandLoading.LedgerMetadataWrites`: contracts are taken in any order rather than by id, because the writes do not depend on it.
- `EventIds.LedgerEvents.Extract`: the decoded event body and the transaction hash are carried along unread.
- `PoolAmounts.StreamPool`: one pool; the loop over pools and the SQL that orders and deduplicates its events are not modelled, and the decoder is any function that works ledger by ledger.
- `KeysetDrain.Drain`: a chunk's concurrent tasks are counted in key order; the `nft-collection-name` drain, which takes one page only, and the candidate SQL are not modelled.
- `NftReclassify.Execute`: the closing `OPTIMIZE` statements change no merged row; unmerged duplicates are not told apart.
- `VerdictCache.WantedIds`: the wanted ids come in order of first mention, not sorted, because the answer is a map.
- `VerdictCache.ClassificationCache.ExtendDefinitive`: one caller at a time; the mutex is not modelled.
- `asset_transfers.rs`, `event_filters.rs`, `classification.rs`, `ledger_entry_changes.rs` and the staging of other tables would add only easier members.
