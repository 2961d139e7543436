# Verified model of the energy chain keepers and the DEX indexer

This project models, in Dafny, the parts of the repository that keep state under
invariants, and proves what they promise over every run:

* **Four keeper modules over one ordered key-value store** (`chain/x/energy`, `audit`, `oracle`,
  `identity`). Each keeper is a class whose `store` field maps byte strings to values; the keys are
  built byte by byte as the Go code builds them, and every query walks the store in byte order. A
  ghost field `tables` is the typed content of the store, and `Valid()` says that the store holds
  exactly that and nothing else. Every method is proved to take the step that the tables take
  (`Handle`, `PutData`, `Import`, ...), and the theorems are about those steps and their runs.
* **The Merkle commitment of a batch** (`chain/x/energy/keeper/msg_server.go`): the level-by-level
  root, a top-down tree as its independent definition, sibling paths, binding, and the run-level
  invariant that every stored batch can be verified again from the stored records.
* **The incremental algorithms of `dex-indexer`**: candles rebuilt from the last candle on, the
  batched historical sync over a growing set of tracked pairs, and the polling loop whose
  asynchronous ticks may overlap, fail and finish in any order.

| file | content |
|---|---|
| `bytes.dfy` | byte order, big-endian and decimal encodings, NUL separators, 64-bit wrap-around |
| `scan.dfy` | ordered store iteration, the index-scan theorem, export and rebuild of tables |
| `merkle.dfy` | Merkle trees for any pair function, then pair hashing, verification and binding |
| `energy*.dfy`, `audit*.dfy`, `oracle*.dfy`, `identity*.dfy` | per module: tables and steps, runs, genesis (and numbering after it), keeper class |
| `candles.dfy`, `price_service.dfy`, `intervals.dfy`, `candle_runs.dfy`, `generator_overlap.dfy` | aggregation, the incremental generator, the named intervals, which runs end with the right candles, and overlapping runs |
| `historical_sync.dfy`, `sync_exact.dfy`, `event_indexer.dfy` | batched sync, when it does not depend on the batch size, and the indexer object |
| `polling.dfy`, `checkpoints.dfy` | the polling protocol and the checkpoint it saves |
| `indexing.dfy`, `resumption.dfy` | sync and polling together over the tables, and what a restart resumes |

## Where the code does not meet the obvious claim

Each of these is proved with its exact condition.

* **Index queries.** Category, event type and oracle category are unrestricted strings, so a NUL
  inside a stored name can make a query return a foreign record. The energy queries are exact if and
  only if no stored name is the queried one followed by a NUL (`EnergyRuns.CategoryQueryExactIff`).
  The audit queries read an id from the first eight bytes after the separator; they are exact if and
  only if no foreign entry reads as a stored id or is too short, in two cases on stored names and ids
  (`Audit.NameQueryExactIff`, `Audit.FalseEntryIff`), and panic exactly when the queried name and a NUL
  reach into a stored id (`Audit.NameQueryPanicsIff`), as a stored name followed by a NUL does. The oracle history is exact if and only if no foreign key falls
  between the bounds, which is spelled out on stored categories and times in two cases
  (`Oracle.HistoryQueryExactIff`, `Oracle.FallsBetweenIff`). NUL-free names satisfy all three
  conditions. The identity role query is exact if and only if no entry is read as an identity of another
  role (`Identity.RoleQueryExactIff`), which NUL-free addresses ensure.
* **Time ranges.** The bound `to + 1` wraps at 2^63 and keys compare unsigned. The window is the
  interval [from, to] on non-negative times exactly for the bounds in
  `ByteStrings.WindowIsIntervalIff`, which include every 0 <= from <= to.
* **Energy genesis omits the counter.** Everything else survives a round trip, but numbering restarts
  at energy-1. All later runs that take at most n identifiers leave every imported record and batch as
  it is if and only if no record is called energy-1 to energy-n; only an export without records is safe
  for ever; an imported batch numbered q stays verifiable if and only if n <= q
  (`EnergyRestart.AppendOnlyAfterImportIff`, `SafeForeverIff`, `BatchSurvivesImportIff`). For any valid
  genesis, exported or not, energy-1 to energy-(n-1) must be free of batches too
  (`EnergyRestart.AppendOnlyAfterGenesisIff`). Validation
  accepts record ids with a NUL; an imported index agrees with the records if and only if no two records
  share an index entry (`EnergyGenesis.ImportIsFaithful`).
* **A batch count is a 32-bit conversion** of the number of items (`EnergyRuns.CountIsExactIff`).
* **Audit genesis validation does not relate the counter to the log ids.** Imported logs survive all
  later logging if and only if no id exceeds the counter (`AuditGenesis.AppendOnlyAfterImportIff`).
* **An oracle's latest entry is the last submitted, not the newest.** It survives a round trip if and
  only if it already was the newest of its category (`OracleGenesis.LatestSurvivesIff`).
* **The drift window** of the oracle is refused entirely when its upper end exceeds 2^63 - 1
  (`Oracle.DriftCheckIff`).
* **Candles.** The refetch from the last candle uses a strict comparison, so a swap exactly on the
  start of the last bucket is dropped from the rebuilt candle, and a late swap is never fetched. From
  nothing, any run followed by one more generator run leaves the candles of a full rebuild if and only if
  every swap arrived with a time after the start of the then last candle, and no generator run found
  swaps both on and strictly inside the last candle's bucket (`CandleRuns.RebuildIffClean`,
  `CandleRuns.IncrementalExactIff`).
* **Historical sync** leaves out a range of one block (`HistoricalSync.SingleBlockIsSkipped`). Its
  result (tracked pairs, rows, reserves, checkpoint) is the same for all batch sizes if and only if no
  row event comes in a block before the block that creates its pair, and every pair created after the
  first block either syncs again from its creating block on or its last earlier sync event repeats the
  reserves it already has (`SyncExact.SyncIndependentIff`). Pairs that emit nothing before their creation
  satisfy this (`SyncExact.QuietSettles`); whether a factory's pairs can emit earlier is up to contracts
  that are not part of this model.
* **Polling** starts at the head it finds; no block is skipped if and only if that head is at most the
  block after the synced one (`Polling.NoGapIff`). First ticks may overlap: no run loses a block if and
  only if the heads they report are never more than one block apart, and otherwise the blocks in between
  are lost for ever (`Polling.FirstHeadsIff`, `Polling.OverlappingFirstTicksLoseABlock`). Processing is at
  least once; a run is free of repeats if and only if no range opens beside another and failed ticks had
  processed nothing (`Polling.ExactlyOnceIff`).
* **Sync and polling together.** If no block has come since the sync, the first poll processes the last
  synced block again. After serial polling the tables are those of processing every block once if and
  only if that did not happen or the block holds no row of a known pair; otherwise exactly its rows are
  stored twice (`Indexing.SyncThenPollIff`).
* **Checkpoints.** A save that completes late sets the checkpoint back to an older block, even in a
  serial run without failures (`Checkpoints.LateSaveSetsBack`). In whatever order open saves complete, the
  checkpoint ends as the last processed block if and only if no range finishes while another tick is
  still saving (`Checkpoints.CheckpointIff`). A restart from that checkpoint, more than one block behind
  the head, stores every later block once (`Resumption.RestartResumes`).
* **Overlapping generator runs.** Runs of one series that do not overlap are as good as atomic, whatever
  swaps arrive in between, so the condition above applies to them (`GeneratorOverlap.ApartExactIff`).
  Passes start every 30 seconds whether or not the last one has ended; when two overlap around an
  arrival, the slower one can overwrite a candle that is never fetched again
  (`GeneratorOverlap.OverlapLosesSwap`).
* **Merkle binding needs equal depth**, since leaves and inner nodes are hashed alike
  (`Merkle.NodeReadsAsLeaf`), or data hashes that are not hashed for an inner node
  (`Merkle.MerkleBindingAnyDepth`).

## What is assumed

* Strings are byte sequences and the JSON codec is exact, so the store holds typed values; the SDK's
  iterators enumerate keys in byte order.
* Keccak-256 is an arbitrary function parameter. Binding theorems ask for 32-byte digests and for no
  collision among the finitely many strings that are hashed for the inputs at hand.
* The transaction hash of an audit log, block heights, block times and the chain's event lists are inputs.
* Lower-casing acts on ASCII letters. A declared root with other characters is rejected either way.
* Runs of the energy module take fewer than 2^64 identifiers, refused messages taking none, and accept
  no batch of 2^32 items or more; runs of the audit module have fewer than 2^64 messages.
* A generator run is one step, except in `generator_overlap.dfy`, where its fetch and its write are two;
  its single upserts are never interleaved with those of another run.
* Swap prices and volumes are real-valued inputs; the database returns rows with equal timestamps in
  the order of insertion.

## Model

| member | source | states |
|---|---|---|
| ByteStrings.WindowIsIntervalIff | chain/x/audit/types/keys.go:59-70 | the unsigned window from the from-key to the key of to+1 selects exactly from <= t <= to on non-negative times, if and only if the bounds satisfy a stated condition, met by all 0 <= from <= to including MaxInt64 |
| ByteStrings.BE8Order | chain/x/audit/types/keys.go:21-29 | byte order and equality of eight-byte big-endian keys are integer order and equality |
| ByteStrings.BE8RoundTrip | chain/x/audit/types/keys.go:21-29 | decoding an encoded 64-bit integer gives it back |
| ByteStrings.SeparatorUnique | chain/x/energy/types/keys.go:21-44 | name, NUL, id determines both name and id when ids are NUL-free, whatever the names contain |
| ByteStrings.DecimalRoundTrip | chain/x/energy/keeper/keeper.go:48 | decimal printing is injective: parsing recovers the number |
| ByteStrings.DecimalOrder | chain/x/energy/keeper/keeper.go:48 | with equally many digits, byte order of decimals is integer order |
| Scan.ScanExactIff | chain/x/energy/keeper/keeper.go:78-108 | for a complete index, gathering the looked-up entries equals filtering the primary records in the same order, if and only if the scan resolves no foreign entry |
| Scan.RebuildValues | chain/x/audit/keeper/keeper.go:201-228 | storing the exported rows of a table under their own keys gives the table back |
| Scan.PrefixKeysAre | chain/x/energy/keeper/keeper.go:78-87 | a prefix iterator walks exactly the suffixes under the prefix, in the suffixes' own order |
| Scan.RangeKeysAre | chain/x/audit/keeper/keeper.go:150-161 | a range iterator whose bounds share a prefix never leaves that prefix |
| Scan.EncodesUnique | chain/x/energy/types/keys.go:7-49 | the typed tables determine the byte store completely |
| MerkleTree.DepthIsCeilLog2 | chain/x/energy/keeper/msg_server.go:136-150 | the number of levels is log2 of the number of leaves, rounded up |
| MerkleTree.RootIsTree | chain/x/energy/keeper/msg_server.go:136-150 | for every n >= 1 the level-by-level root equals the top-down tree that splits at the largest power of two below n and self-pairs the shorter part up to equal depth |
| MerkleTree.RepeatedLastLeaf | chain/x/energy/keeper/msg_server.go:141-148 | for odd n >= 3, appending a copy of the last leaf leaves the root unchanged |
| MerkleTree.EmptyLevelStaysEmpty | chain/x/energy/keeper/msg_server.go:136-150 | an empty level is its own next level, so the recursion needs the guard of the caller |
| MerkleTree.EveryLeafHasPath | chain/x/energy/keeper/msg_server.go:136-162 | each leaf has a sibling path of the tree's depth whose fold is the root |
| MerkleTree.BindingOfLevels | chain/x/energy/keeper/msg_server.go:136-150 | for any commutative pairing that separates the pairs used, equal depth and equal root force equal leaf sets |
| MerkleTree.PathStartsAtLeaf | chain/x/energy/keeper/msg_server.go:136-150 | a path of the tree's depth that folds to the root starts at a leaf |
| Merkle.HexOrder | chain/x/energy/keeper/msg_server.go:154 | lower-case hex is injective and keeps byte order, for strings of any two lengths |
| Merkle.HashPairCommutes | chain/x/energy/keeper/msg_server.go:152-162 | the order of children does not matter, and the hex test is byte order |
| Merkle.PairInputInjective | chain/x/energy/keeper/msg_server.go:152-162 | digests of one length that are hashed as the same string form the same unordered pair |
| Merkle.HashLevel | chain/x/energy/keeper/msg_server.go:141-148 | the loop over a level pairs neighbours and the odd last node with itself |
| Merkle.ComputeMerkleRoot | chain/x/energy/keeper/msg_server.go:136-150 | the loop and its recursion compute the root of the level-by-level definition, and terminate on every non-empty list |
| Merkle.VerifyMerkleRoot | chain/x/energy/keeper/msg_server.go:114-134 | rejects the empty batch, and otherwise accepts exactly the declared roots that AcceptedSpellings describes |
| Merkle.AcceptedSpellings | chain/x/energy/keeper/msg_server.go:127-132 | accepted is exactly the hex of the true root, bare or behind 0x or 0X, with each letter a-f in lower or upper case, stated byte by byte |
| Merkle.MerkleBinding | chain/x/energy/keeper/msg_server.go:119-162 | two batches of equal depth and equal root have the same set of data hashes unless two hashed strings collide |
| Merkle.MerkleBindingAnyDepth | chain/x/energy/keeper/msg_server.go:119-162 | without the depth: if no data hash of the one batch is hashed for an inner node of the other, an equal root means equal depth and equal sets, unless two hashed strings collide |
| Merkle.OtherLengthIsNoNode | chain/x/energy/keeper/msg_server.go:152-162 | data hashes that are not 64 bytes long are never hashed for an inner node |
| Merkle.NodeReadsAsLeaf | chain/x/energy/keeper/msg_server.go:119-162 | a batch of two shares its root with the batch whose one data hash is their concatenated digests, at another depth |
| Merkle.BindingIsSharp | chain/x/energy/keeper/msg_server.go:136-162 | sets cannot be strengthened to multisets: [a,a,c] and [c,c,a] share a root |
| Merkle.PathProvesMembership | chain/x/energy/keeper/msg_server.go:119-162 | a path that leads from a data hash to the root proves the hash belongs to the batch, unless two hashed strings collide |
| Energy.EnergyIdInjective | chain/x/energy/keeper/keeper.go:37-49 | the counter value can be read back from the identifier, which is NUL-free |
| Energy.BumpedCounts | chain/x/energy/keeper/keeper.go:39-47 | allocating an id adds one to the counter modulo 2^64 and changes nothing else |
| Energy.IdOrder | chain/x/energy/keeper/keeper.go:78-124 | records come in byte order of ids: numeric within one length, energy-10 before energy-9 across |
| Energy.IndexQueryExactIff | chain/x/energy/keeper/keeper.go:78-108 | an index query equals the filter over all records, in order, if and only if no stored name extends the queried one past a NUL |
| Energy.AppendRecordKeeps | chain/x/energy/keeper/msg_server.go:32-43 | a new record takes an id never used, keeps both indexes in agreement and changes no stored record |
| Energy.AppendItemsKeeps | chain/x/energy/keeper/msg_server.go:76-88 | item i of a batch becomes record number c+i with every field of message, item and block; all earlier records unchanged |
| Energy.StoredHashesAreDeclared | chain/x/energy/keeper/msg_server.go:76-98 | reading back the records that follow the batch gives the declared data hashes in order |
| Energy.NewBatchReverifiable | chain/x/energy/keeper/msg_server.go:68-98 | the batch just stored can be verified again from the records just stored |
| Energy.BatchKeeps | chain/x/energy/keeper/msg_server.go:56-110 | a batch keeps every earlier batch verifiable and disjoint from the new id range |
| Energy.SubmitKeeps | chain/x/energy/keeper/msg_server.go:25-54 | a single submission keeps every batch verifiable and all id ranges disjoint |
| EnergyRuns.HandleKeeps | chain/x/energy/keeper/msg_server.go:25-110 | any message keeps the invariant and all stored entries; a refused one changes nothing; an accepted one writes a fresh id with the message's fields (SubmissionAcceptedIff and BatchAcceptedIff say which are accepted) |
| EnergyRuns.SubmissionAcceptedIff | chain/x/energy/keeper/msg_server.go:28-30 | a submission is accepted if and only if there are no parameters, no listed submitters, or the submitter is listed; otherwise it is refused as not allowed |
| EnergyRuns.OnlyListedSubmitters | chain/x/energy/keeper/msg_server.go:25-110 | over every run from a genesis with a non-empty list, every stored record and batch has a listed submitter |
| EnergyRuns.BatchAcceptedIff | chain/x/energy/keeper/msg_server.go:56-134 | a batch below 2^32 items is accepted if and only if the submitter is allowed by the parameters in force, the number of items is positive and within their limit (100 without parameters), and the declared root is the hex root, bare or behind 0x or 0X, in any letter case |
| EnergyRuns.RefusalReasons | chain/x/energy/keeper/msg_server.go:59-70 | which error a refused batch gets, in the order of the checks |
| EnergyRuns.BatchStoresItems | chain/x/energy/keeper/msg_server.go:72-98 | an accepted batch takes the next number and item i the number i+1 after it, with all seven fields spelled out |
| EnergyRuns.CountIsExactIff | chain/x/energy/keeper/msg_server.go:64-98 | the stored count is the number of items if and only if there are fewer than 2^32; a count that wraps to 0 cannot be verified again |
| EnergyRuns.RunKeeps | chain/x/energy/keeper/msg_server.go:25-110 | over every run, records and batches are append-only and the invariant holds |
| EnergyRuns.BatchesStayVerifiable | chain/x/energy/keeper/msg_server.go:56-110 | in every state reachable from an empty genesis, for each batch b of n items, records b+1 to b+n exist with its submitter, category and time, verification of their hashes accepts its root, and no other batch overlaps |
| EnergyRuns.RecordsNeverChange | chain/x/energy/keeper/keeper.go:37-62 | a record read at any point of a run reads the same at every later point |
| EnergyRuns.CategoryQueryExactIff | chain/x/energy/keeper/keeper.go:78-92 | in every state satisfying the run invariant the category query is the filter over all records if and only if no stored category extends the queried one past a NUL |
| EnergyRuns.SubmitterQueryExact | chain/x/energy/keeper/keeper.go:94-108 | for NUL-free submitters the submitter query is the filter, for every queried string |
| EnergyRuns.NulCategoryLeaks | chain/x/energy/types/keys.go:21-31 | an accepted submission under "a", NUL, "b" is returned by the query for "a" |
| EnergyGenesis.Validate | chain/x/energy/types/genesis.go:40-77 | accepts exactly: positive batch limit, complete records, distinct record ids, non-empty distinct batch ids |
| EnergyGenesis.ImportIsFaithful | chain/x/energy/keeper/keeper.go:207-215 | any valid genesis is imported into exactly its records and batches, whatever their ids; each index is complete and not stale if and only if no two records share an entry of it |
| EnergyGenesis.NulFreeIdsHaveOwnEntries | chain/x/energy/types/keys.go:20-38 | NUL-free ids never share an index entry, whatever the categories and submitters |
| EnergyGenesis.SharedEntryDisagreesOnImport | chain/x/energy/types/keys.go:20-25 | a valid genesis of two records, a NUL moved from the category of the one to the id of the other, whose imported index cannot agree |
| EnergyGenesis.RoundTripLosesCounter | chain/x/energy/keeper/keeper.go:207-223 | export then import restores every table except the counter |
| EnergyGenesis.OverwriteLeavesStaleEntry | chain/x/energy/keeper/keeper.go:37-62 | the next accepted submission after a round trip overwrites record energy-1, which is still returned under its old category |
| EnergyRestart.RunWrites | chain/x/energy/keeper/msg_server.go:25-110 | from any tables whatever, a run writes records only under the numbers it takes and batches only under those before the last, and the counter moves by exactly the identifiers of accepted messages |
| EnergyRestart.AppendOnlyAfterImportIff | chain/x/energy/keeper/keeper.go:207-223 | after a round trip, all runs of messages that take at most n identifiers leave every record and batch unchanged if and only if no record is called energy-1 to energy-n |
| EnergyRestart.AppendOnlyAfterGenesisIff | chain/x/energy/types/genesis.go:40-77 | after importing any valid genesis, all runs of messages that take at most n identifiers are append-only if and only if no record is called energy-1 to energy-n and no batch energy-1 to energy-(n-1) |
| EnergyRestart.SafeForeverIff | chain/x/energy/keeper/keeper.go:207-223 | after a round trip, all runs up to the wrap of the counter are append-only if and only if no records were exported |
| EnergyRestart.BatchSurvivesImportIff | chain/x/energy/keeper/keeper.go:207-223 | an imported batch numbered q stays unchanged and verifiable in all runs that take at most n identifiers if and only if n <= q |
| EnergyKeeper.StoreCategoryEntry | chain/x/energy/types/keys.go:20-25 | writing a category entry changes that table alone: its key meets no data, submitter, batch, counter or params key |
| EnergyKeeper.StoreBatch | chain/x/energy/types/keys.go:46-49 | writing a batch changes the batch table alone |
| EnergyKeeper.StoreData | chain/x/energy/types/keys.go:15-18 | writing a record changes the record table alone |
| EnergyKeeper.KeyLayout | chain/x/energy/types/keys.go:7-49 | the bytes of every key in the store, and the table entry each stands for |
| EnergyKeeper.CategoryIterator | chain/x/energy/keeper/keeper.go:78-81 | the category prefix selects exactly the entries under that name, in order |
| EnergyKeeper.Keeper.GenerateID | chain/x/energy/keeper/keeper.go:37-49 | the stored counter is incremented modulo 2^64 and the identifier prints the new value; nothing else changes |
| EnergyKeeper.Keeper.SubmitEnergyData | chain/x/energy/keeper/keeper.go:55-62 | the record and both its index entries are stored, nothing else changes |
| EnergyKeeper.Keeper.GetEnergyData | chain/x/energy/keeper/keeper.go:64-75 | finds exactly the stored records |
| EnergyKeeper.Keeper.GetEnergyDataByCategory | chain/x/energy/keeper/keeper.go:78-92 | the loop over the byte store computes the index scan that CategoryQueryExactIff characterises |
| EnergyKeeper.Keeper.GetEnergyDataBySubmitter | chain/x/energy/keeper/keeper.go:94-108 | the same for submitters |
| EnergyKeeper.Keeper.GetAllData | chain/x/energy/keeper/keeper.go:110-124 | all records, in key order |
| EnergyKeeper.Keeper.SubmitBatch | chain/x/energy/keeper/keeper.go:130-134 | the batch is stored under its id, nothing else changes |
| EnergyKeeper.Keeper.GetBatch | chain/x/energy/keeper/keeper.go:136-147 | finds exactly the stored batches |
| EnergyKeeper.Keeper.GetAllBatches | chain/x/energy/keeper/keeper.go:149-163 | all batches, in key order |
| EnergyKeeper.Keeper.GetParams | chain/x/energy/keeper/keeper.go:177-188 | the stored parameters, or the defaults |
| EnergyKeeper.Keeper.IsAllowedSubmitter | chain/x/energy/keeper/keeper.go:190-201 | true if and only if the list is empty or holds the address |
| EnergyKeeper.Keeper.HandleSubmit | chain/x/energy/keeper/msg_server.go:25-54 | the store takes the step that HandleKeeps and RunKeeps are about |
| EnergyKeeper.Keeper.HandleBatch | chain/x/energy/keeper/msg_server.go:56-110 | the same for a batch, its checks in the source's order |
| EnergyKeeper.Keeper.InitGenesis | chain/x/energy/keeper/keeper.go:207-215 | the store takes the import step that ImportIsFaithful is about |
| EnergyKeeper.Keeper.ExportGenesis | chain/x/energy/keeper/keeper.go:217-223 | exports all rows in key order and the parameters in force |
| Audit.PutLogIndexed | chain/x/audit/keeper/keeper.go:81-93 | a log under a new id keeps all three indexes free of missing and stale entries |
| Audit.NameQueryExactIff | chain/x/audit/keeper/keeper.go:113-148 | actor and type queries equal the filter in ascending id order if and only if no log of another name has a false entry |
| Audit.FalseEntryIff | chain/x/audit/types/keys.go:35-57 | a log of another name has one in exactly two cases: its name is the queried one, a NUL and more, and the next eight bytes are a stored id; or the queried name and a NUL reach into its id |
| Audit.NameQueryPanicsIff | chain/x/audit/keeper/keeper.go:121-123 | the query panics if and only if the queried name and a NUL reach into the id of some entry |
| Audit.NulQueryPanics | chain/x/audit/keeper/keeper.go:121-123 | it does for a stored name followed by a NUL, for every log whose id is below 2^56 |
| Audit.NulFreeNamesAreExact | chain/x/audit/types/keys.go:35-57 | NUL-free names satisfy the condition |
| Audit.NulTypeLeaks | chain/x/audit/types/keys.go:46-57 | a type that holds the query, a NUL and the log's own key is returned by that query |
| Audit.TimeEntryOrder | chain/x/audit/types/keys.go:59-62 | time keys order by time, then by id |
| Audit.TimeQueryIs | chain/x/audit/keeper/keeper.go:150-173 | for all bounds, exactly the stored logs in the window, ordered by time and then id |
| AuditRuns.AppendKeeps | chain/x/audit/keeper/msg_server.go:48-69 | a recorded log extends ids 1..counter by one and changes no other log |
| AuditRuns.HandleKeeps | chain/x/audit/keeper/msg_server.go:36-80 | refusal exactly for an unlisted auditor under a non-empty list, or data over a positive limit (65536 without parameters); a refused message changes nothing; a recorded one writes a new id with all nine fields spelled out |
| AuditRuns.RunKeeps | chain/x/audit/keeper/msg_server.go:36-80 | over every run ids are exactly 1 to the counter, logs never change and all indexes agree |
| AuditRuns.ReachableNameQueries | chain/x/audit/keeper/keeper.go:113-148 | over all runs from an empty genesis, NUL-free actor and type queries are the filter over all logs |
| AuditRuns.AllLogsById | chain/x/audit/keeper/keeper.go:179-195 | the full listing holds exactly the stored logs in strictly ascending id order |
| AuditRuns.RunTimesFollowIds | chain/x/audit/keeper/msg_server.go:56-69 | if block times never decrease along a run, stored times follow ids |
| AuditRuns.TimeQueryIsSlice | chain/x/audit/keeper/keeper.go:150-195 | then a time query is a contiguous slice of the full listing |
| AuditRuns.ReachableTimeQuery | chain/x/audit/keeper/keeper.go:150-173 | over all runs from an empty genesis with non-negative block times, and all 0 <= from <= to including MaxInt64: exactly the logs with from <= timestamp <= to, ordered by timestamp and id |
| AuditRuns.ReachableTimeSlice | chain/x/audit/keeper/keeper.go:150-195 | if those block times also never decrease, the query is a contiguous slice of the full listing |
| AuditGenesis.Validate | chain/x/audit/types/genesis.go:45-68 | accepts exactly: non-negative limits, complete logs, distinct ids; the counter is unconstrained |
| AuditGenesis.ImportIsFaithful | chain/x/audit/keeper/keeper.go:201-211 | a valid genesis is imported into exactly its logs, with agreeing indexes and its counter |
| AuditGenesis.RoundTrip | chain/x/audit/keeper/keeper.go:201-228 | export then import restores the whole state: every query and the next id |
| AuditGenesis.AppendOnlyAfterImportIff | chain/x/audit/types/genesis.go:45-68 | stored logs survive every later run of messages, refused ones included, if and only if no stored id exceeds the counter; the failing run comes from an allowed auditor within the size limit |
| AuditKeeper.KeyLayout | chain/x/audit/types/keys.go:12-70 | the bytes of every key in the store, and the table entry each stands for |
| AuditKeeper.Keeper.GetNextID | chain/x/audit/keeper/keeper.go:37-44 | one more than the stored counter modulo 2^64, or 1 |
| AuditKeeper.Keeper.IncrementCounter | chain/x/audit/keeper/keeper.go:46-49 | stores the counter and nothing else |
| AuditKeeper.Keeper.RecordAuditLog | chain/x/audit/keeper/keeper.go:81-93 | stores the log and its three index entries and nothing else |
| AuditKeeper.Keeper.GetAuditLog | chain/x/audit/keeper/keeper.go:95-107 | finds exactly the stored logs |
| AuditKeeper.Keeper.GetAuditLogsByActor | chain/x/audit/keeper/keeper.go:113-129 | the loop over the byte store computes the query, panic included, that NameQueryExactIff characterises |
| AuditKeeper.Keeper.GetAuditLogsByType | chain/x/audit/keeper/keeper.go:132-148 | the same for event types |
| AuditKeeper.Keeper.GetAuditLogsByTimeRange | chain/x/audit/keeper/keeper.go:150-173 | the loop over the range iterator computes the query of TimeQueryIs |
| AuditKeeper.Keeper.GetAllLogs | chain/x/audit/keeper/keeper.go:179-195 | all logs, in key order |
| AuditKeeper.Keeper.IsAllowedAuditor | chain/x/audit/keeper/msg_server.go:23-34 | true if and only if the list is empty or holds the address |
| AuditKeeper.Keeper.HandleRecordAudit | chain/x/audit/keeper/msg_server.go:36-80 | the store takes the step of HandleKeeps |
| AuditKeeper.Keeper.InitGenesis | chain/x/audit/keeper/keeper.go:201-211 | the store takes the import step; a counter of 0 is not written |
| AuditKeeper.Keeper.ExportGenesis | chain/x/audit/keeper/keeper.go:213-228 | exports all logs, the counter (0 without one) and the parameters |
| Oracle.DriftCheckIff | chain/x/oracle/keeper/msg_server.go:30-43 | a non-negative time is accepted if and only if it lies within the drift of the block time and the upper end fits in 63 bits |
| Oracle.HandleKeeps | chain/x/oracle/keeper/msg_server.go:22-110 | a refused message changes nothing; accepted data comes from an authorised oracle and touches only its own history key and latest entry; oracles change only by the authority, and only the named one; coherence holds |
| Oracle.SubmissionAcceptedIff | chain/x/oracle/keeper/msg_server.go:22-43 | non-negative times: data is accepted if and only if the oracle is registered, active, and lists the category or none, and the time is within dataMaxAge (3600 when not positive or unset) of the block time with the window's end below 2^63; unauthorised exactly otherwise by the oracle's fields |
| Oracle.SubmittedIs | chain/x/oracle/keeper/msg_server.go:45-54 | the stored history and latest entry carry all six fields of message and block |
| Oracle.OraclesAreManaged | chain/x/oracle/keeper/msg_server.go:66-110 | the authority always adds, with the message's name and categories and active, and removes exactly registered oracles; anyone else is refused |
| Oracle.RunKeeps | chain/x/oracle/keeper/msg_server.go:22-110 | the invariant holds over every run |
| Oracle.ReachableIsCoherent | chain/x/oracle/keeper/keeper.go:35-54 | in every reachable state a category's latest entry is its history entry at that time |
| Oracle.HistKeyInjective | chain/x/oracle/types/keys.go:14-20 | category and timestamp can be read back from a history key, so there is one entry per timestamp |
| Oracle.HistoryQueryExactIff | chain/x/oracle/keeper/keeper.go:56-74 | the history query is the filter by category and window if and only if no stored pair of another category and time falls between the bounds |
| Oracle.FallsBetweenIff | chain/x/oracle/types/keys.go:14-20 | a foreign pair does so in exactly two cases: its category is the queried one, a NUL and more, with the next eight bytes a time in the window; or the queried category ends inside its time, before a zero byte, with the rest, zero-filled, just above the lower bound up to the upper |
| Oracle.NulFreeCategoriesAreExact | chain/x/oracle/keeper/keeper.go:56-74 | NUL-free categories never leak, even when one is a prefix of another |
| Oracle.HistoryQueryIs | chain/x/oracle/keeper/keeper.go:56-74 | for NUL-free categories, non-negative times and 0 <= from <= to including MaxInt64: exactly the category's entries with from <= timestamp <= to |
| Oracle.NulCategoryLeaks | chain/x/oracle/types/keys.go:14-20 | a category that holds the query, a NUL and a time key in the window is returned by that query |
| Oracle.HistoryAscends | chain/x/oracle/keeper/keeper.go:56-74 | the entries of one category come in strictly ascending time |
| OracleGenesis.Validate | chain/x/oracle/types/genesis.go:41-73 | accepts exactly: positive limits, named oracles with distinct addresses, complete data with positive times |
| OracleGenesis.PutAllDataIs | chain/x/oracle/keeper/keeper.go:157-165 | import rebuilds the history and leaves the last listed row of each category as its latest entry |
| OracleGenesis.RoundTrip | chain/x/oracle/keeper/keeper.go:157-186 | export then import keeps history, oracles and parameters, and makes the newest entry of each category its latest |
| OracleGenesis.LatestSurvivesIff | chain/x/oracle/keeper/keeper.go:157-186 | a latest entry survives if and only if it already was the newest |
| OracleGenesis.OlderSubmissionIsLost | chain/x/oracle/keeper/keeper.go:35-41 | accepted data older than a stored entry of its category becomes the latest entry and is no longer after a round trip |
| OracleKeeper.KeyLayout | chain/x/oracle/types/keys.go:7-36 | the bytes of every key in the store, and the table entry each stands for |
| OracleKeeper.CheckAuthorizedFor | chain/x/oracle/types/types.go:32-45 | true if and only if active and either unrestricted or listed |
| OracleKeeper.Keeper.SetOracleData | chain/x/oracle/keeper/keeper.go:35-41 | stores the history and the latest entry and nothing else |
| OracleKeeper.Keeper.GetLatestData | chain/x/oracle/keeper/keeper.go:43-54 | finds exactly the latest entries |
| OracleKeeper.Keeper.GetDataHistory | chain/x/oracle/keeper/keeper.go:56-74 | the loop over the range iterator computes the query of HistoryQueryExactIff |
| OracleKeeper.Keeper.DeleteOracle | chain/x/oracle/keeper/keeper.go:86-89 | removes that oracle and nothing else |
| OracleKeeper.Keeper.GetAllOracles | chain/x/oracle/keeper/keeper.go:112-126 | all oracles, in address order |
| OracleKeeper.Keeper.HandleSubmitData | chain/x/oracle/keeper/msg_server.go:22-64 | the store takes the step of HandleKeeps, checks in the source's order |
| OracleKeeper.Keeper.HandleAddOracle | chain/x/oracle/keeper/msg_server.go:66-89 | the same for adding an oracle |
| OracleKeeper.Keeper.HandleRemoveOracle | chain/x/oracle/keeper/msg_server.go:91-110 | the same for removing one |
| OracleKeeper.Keeper.InitGenesis | chain/x/oracle/keeper/keeper.go:157-165 | the store takes the import step of RoundTrip |
| OracleKeeper.Keeper.ExportGenesis | chain/x/oracle/keeper/keeper.go:167-186 | exports the history in key order, the oracles and the parameters |
| Identity.HandleKeeps | chain/x/identity/keeper/msg_server.go:33-128 | a refused message changes nothing; only an admin, or for updates the owner, changes anything, and only the named identity; each message succeeds exactly under its conditions on caller, address and status |
| Identity.RegisterIs | chain/x/identity/keeper/msg_server.go:33-64 | each answer by caller, parameters and address, in the order of the checks, and all seven fields of the new identity |
| Identity.UpdateIs | chain/x/identity/keeper/msg_server.go:66-97 | each answer; empty name or metadata keep the old ones, others replace them, the update time is the block's |
| Identity.RevokeIs | chain/x/identity/keeper/msg_server.go:99-128 | each answer; only status and update time change |
| Identity.RunKeeps | chain/x/identity/keeper/msg_server.go:33-128 | over every run address, role and registration time never change, status only becomes revoked, and the role index agrees with the identities |
| Identity.RevokedIsTerminal | chain/x/identity/keeper/msg_server.go:99-128 | a revoked identity stays revoked, holds no role, and can be neither registered nor revoked again in any continuation |
| Identity.RoleKeptUntilRevoked | chain/x/identity/keeper/keeper.go:147-153 | an active role is kept in every run until revocation, only revocation takes it, and no other role is ever held |
| Identity.RoleQueryExactIff | chain/x/identity/keeper/keeper.go:98-114 | the role query is the filter over all identities, in address order, if and only if no stored entry is read as an identity of another role |
| Identity.NulAddressLeaks | chain/x/identity/types/keys.go:19-30 | two identities, a NUL in the role of the one and in the address of the other, for which the query returns an identity of another role |
| Identity.RoleQueryExact | chain/x/identity/types/keys.go:15-30 | NUL-free addresses satisfy the condition, for every role string |
| Identity.RemoveUndoesSet | chain/x/identity/keeper/keeper.go:57-92 | deleting what was just registered under a free NUL-free address restores the tables |
| Identity.Validate | chain/x/identity/types/genesis.go:27-48 | accepts exactly complete identities with distinct addresses |
| Identity.ImportIsFaithful | chain/x/identity/module.go:83-94 | a valid genesis is imported into exactly its identities, with an agreeing role index |
| Identity.RoundTrip | chain/x/identity/module.go:83-103 | export then import restores the whole state, hence every query |
| IdentityKeeper.KeyLayout | chain/x/identity/types/keys.go:10-30 | the bytes of every key in the store, and the table entry each stands for |
| IdentityKeeper.Keeper.PutIdentity | chain/x/identity/keeper/keeper.go:57-67 | stores the identity and its role entry and nothing else |
| IdentityKeeper.Keeper.GetIdentity | chain/x/identity/keeper/keeper.go:69-81 | finds exactly the stored identities |
| IdentityKeeper.Keeper.DeleteIdentity | chain/x/identity/keeper/keeper.go:83-92 | removes the identity and its role entry, or nothing if it is absent |
| IdentityKeeper.Keeper.GetIdentitiesByRole | chain/x/identity/keeper/keeper.go:98-114 | the loop over the byte store computes the query of RoleQueryExact |
| IdentityKeeper.Keeper.GetAllIdentities | chain/x/identity/keeper/keeper.go:116-132 | all identities, in address order |
| IdentityKeeper.Keeper.CheckRole | chain/x/identity/keeper/keeper.go:147-153 | true if and only if the address is registered, active and has the role |
| IdentityKeeper.Keeper.CheckAdmin | chain/x/identity/keeper/msg_server.go:22-31 | true if and only if the address is the authority or the configured non-empty admin |
| IdentityKeeper.Keeper.RegisterIdentity | chain/x/identity/keeper/msg_server.go:33-64 | the store takes the step of HandleKeeps |
| IdentityKeeper.Keeper.UpdateIdentity | chain/x/identity/keeper/msg_server.go:66-97 | the same for updates; empty fields are kept |
| IdentityKeeper.Keeper.RevokeIdentity | chain/x/identity/keeper/msg_server.go:99-128 | the same for revocation |
| IdentityKeeper.Keeper.InitGenesis | chain/x/identity/module.go:83-94 | the store takes the import step of ImportIsFaithful |
| IdentityKeeper.Keeper.ExportGenesis | chain/x/identity/keeper/keeper.go:134-139 | exports all identities in address order and the parameters |
| Candles.CandleMeaning | dex-indexer/src/services/PriceService.ts:78-86 | a candle opens with the first and closes with the last price, its high and low are attained bounds of all prices with open and close between them, its volume is the sum |
| Candles.AggregateAt | dex-indexer/src/services/PriceService.ts:71-87 | each bucket holds the candle of exactly the swaps that fall into it, in their order |
| Candles.SortByTimeIs | dex-indexer/src/services/PriceService.ts:62-65 | the query's order is ascending and a permutation of the rows |
| Candles.TickExactIff | dex-indexer/src/services/PriceService.ts:56-95 | for every non-empty table with positive volumes, a run equals a full rebuild if and only if all earlier candles are right and, when some swap lies strictly inside the last bucket, none lies on its start, otherwise the last candle is right |
| Candles.FirstTickExactIff | dex-indexer/src/services/PriceService.ts:61-65 | the first run equals a full rebuild if and only if no swap is at time 0 |
| Candles.TickIsRebuild | dex-indexer/src/services/PriceService.ts:56-95 | without a swap on the start of the last bucket a run equals a full rebuild |
| Intervals.NamedIntervals | dex-indexer/src/services/PriceService.ts:50-54 | after a rebuild, 1m candles start at whole minutes; a 5m, 15m, 1h, 4h or 1d candle starts at a multiple of 5, 15, 60, 240 or 1440 minutes, exists exactly when one of its 1m candles does, and is their merge (first open, last close, greatest high, least low, sum of volumes); any other interval gives the 1h candles |
| Intervals.LongIsMerged | dex-indexer/src/services/PriceService.ts:71-87 | for any lengths: a candle k times as long is the merge of the k short ones |
| Intervals.MergedIsMerge | dex-indexer/src/services/PriceService.ts:81-86 | what merging candles means |
| Intervals.GeneratedIsRebuilt | dex-indexer/src/services/PriceService.ts:43-96 | from nothing, one generator run leaves exactly these candles |
| PriceService.UnknownPairIsSkipped | dex-indexer/src/services/PriceService.ts:44-48 | a pair without a row gets no candles |
| PriceService.Service.AggregateSwaps | dex-indexer/src/services/PriceService.ts:69-87 | the loop over the swaps fills the buckets that AggregateAt describes |
| PriceService.Service.GenerateOHLCV | dex-indexer/src/services/PriceService.ts:43-96 | as one step and with price and volume given, the loops over swaps and buckets leave the database of the declarative step; other pairs and intervals are untouched |
| PriceService.Service.UpsertAll | dex-indexer/src/services/PriceService.ts:89-95 | upserting the buckets in any order overlays exactly their rows |
| PriceService.RunProjects | dex-indexer/src/services/PriceService.ts:43-96 | over every interleaving for all pairs and intervals, each series evolves on its own events alone |
| PriceService.RunKeeps | dex-indexer/src/services/PriceService.ts:56-95 | under timely arrivals, all candles before the last one agree with a full rebuild at every moment |
| PriceService.IncrementalIsRebuild | dex-indexer/src/services/PriceService.ts:43-96 | after any such interleaving one more run leaves exactly the candles of one aggregation of all swaps from scratch |
| CandleRuns.RebuildIffClean | dex-indexer/src/services/PriceService.ts:56-95 | from nothing, after any order of arrivals and runs, one more run leaves the candles of a full rebuild if and only if every swap came with a time after the then last candle's start and no run found swaps both on and inside the last bucket |
| CandleRuns.IncrementalExactIff | dex-indexer/src/services/PriceService.ts:43-96 | the same in the database, with all other pairs and intervals running in between |
| CandleRuns.RunMissed | dex-indexer/src/services/PriceService.ts:56-95 | a swap once missed leaves its candle short of volume in every continuation |
| CandleRuns.TimelyRunIsClean | dex-indexer/src/services/PriceService.ts:56-95 | swaps neither older than the last candle's bucket nor on a bucket boundary satisfy the condition |
| GeneratorOverlap.ApartExactIff | dex-indexer/src/services/PriceService.ts:56-95 | runs split into a fetch and a write, with swaps arriving in between but no overlap, leave the tables of atomic runs, so one more run rebuilds if and only if those are clean |
| GeneratorOverlap.OverlapLosesSwap | dex-indexer/src/index.ts:27-35 | two runs that overlap around the arrivals of a swap of a fetched candle and of one that opens a later candle: no continuation ends with the candles of a full rebuild |
| PriceService.BoundarySwapIsDropped | dex-indexer/src/services/PriceService.ts:61-65 | a concrete run with a swap on a minute boundary that ends in a wrong candle |
| HistoricalSync.ProcessJoin | dex-indexer/src/indexer/EventIndexer.ts:59-73 | two ranges processed in turn equal one joint range when no pair emits before it is known |
| HistoricalSync.ProcessMeans | dex-indexer/src/indexer/EventIndexer.ts:59-73 | one range: created pairs become known, exactly the row events of known pairs are added, as often as they occur, known pairs' reserves follow their sync events from (0, 0) for a new pair, and nothing else changes |
| HistoricalSync.LastSyncMeans | dex-indexer/src/indexer/EventIndexer.ts:185-197 | the reserves are those of the last sync event of the pair, or the earlier ones without any |
| HistoricalSync.BatchSizeIrrelevant | dex-indexer/src/indexer/EventIndexer.ts:46-50 | tracked pairs, rows and final reserves of the batched sync are those of one range over all blocks, for every batch size |
| HistoricalSync.SyncIndependentOfBatch | dex-indexer/src/indexer/EventIndexer.ts:34-57 | any two batch sizes give the same state, checkpoint included |
| HistoricalSync.RowsIndependentIff | dex-indexer/src/indexer/EventIndexer.ts:46-73 | the stored rows are independent of the batch size if and only if no row event precedes the block that creates its pair |
| HistoricalSync.BatchesStoreNoMore | dex-indexer/src/indexer/EventIndexer.ts:46-73 | without any such condition, batches never store a row more often than one joint range |
| HistoricalSync.SingleBlockIsSkipped | dex-indexer/src/indexer/EventIndexer.ts:36-42 | the sync covers its range and checkpoints it if and only if the range is more than the head block alone |
| SyncExact.StateIndependentIff | dex-indexer/src/indexer/EventIndexer.ts:46-73 | every batch size leaves the whole state of one joint range, reserves included, if and only if no row event precedes its pair's creating block and the sync events of every pair settle |
| SyncExact.SyncIndependentIff | dex-indexer/src/indexer/EventIndexer.ts:34-57 | any two batch sizes give the same sync, checkpoint included, if and only if that holds |
| SyncExact.QuietSettles | dex-indexer/src/indexer/EventIndexer.ts:46-73 | pairs that emit nothing before the block that creates them satisfy the condition |
| SyncExact.EarlySyncDepends | dex-indexer/src/indexer/EventIndexer.ts:185-197 | a pair that syncs only before its creation ends with reserves that depend on the batch size, although no row does |
| EventIndexer.Indexer.LoadExistingPairs | dex-indexer/src/indexer/EventIndexer.ts:26-32 | afterwards exactly the pairs with a row are tracked |
| EventIndexer.Indexer.HandlePairCreated | dex-indexer/src/indexer/EventIndexer.ts:75-95 | the pair is tracked and has a row; an existing row keeps its reserves |
| EventIndexer.Indexer.IndexPairEvents | dex-indexer/src/indexer/EventIndexer.ts:121-198 | stores exactly the pair's swap, mint and burn events and sets the reserves of its last sync event, if any |
| EventIndexer.Indexer.ProcessBlockRange | dex-indexer/src/indexer/EventIndexer.ts:59-73 | creations first, then every tracked pair in any order: the declarative step of the range |
| EventIndexer.Indexer.SyncRanges | dex-indexer/src/indexer/EventIndexer.ts:47-50 | the loop is the batched sync that BatchSizeIrrelevant is about |
| EventIndexer.KindsAreRows | dex-indexer/src/indexer/EventIndexer.ts:131-183 | the rows of a pair are its swap, mint and burn events together |
| EventIndexer.Indexer.Sync | dex-indexer/src/indexer/EventIndexer.ts:34-57 | the whole sync with its early return, batches of 500 and checkpoint at the end |
| Resumption.SyncResumes | dex-indexer/src/indexer/EventIndexer.ts:34-57 | on quiet chains, without a checkpoint before: a sync to c1 and one more than a block further to c2, in any batch sizes, equal one sync to c2, store every block from the start block to c2 once, and save c2 |
| Resumption.NothingToResume | dex-indexer/src/indexer/EventIndexer.ts:36-42 | a second sync at most one block further changes nothing |
| Polling.StepKeeps | dex-indexer/src/indexer/EventIndexer.ts:203-220 | every step of every tick keeps coverage by finished ranges, up to the last processed block, every open range, every value about to be saved and the checkpoint |
| Polling.RunKeeps | dex-indexer/src/indexer/EventIndexer.ts:203-220 | that coverage holds over every interleaving of overlapping, failing and reordered ticks |
| Polling.PollCovers | dex-indexer/src/indexer/EventIndexer.ts:200-220 | once the first tick to finish has finished alone, whatever ticks failed before, every block from its head to the last processed one and to any checkpoint lies in a range whose processing finished, and none below its head does (Checkpoints says which checkpoints are written) |
| Polling.NoGapIff | dex-indexer/src/indexer/EventIndexer.ts:208 | no block after the synced one is ever skipped if and only if the first head is at most the next block |
| Polling.PassedForever | dex-indexer/src/indexer/EventIndexer.ts:203-220 | a block below every open range and below the last processed one that was not processed never will be |
| Polling.FirstHeadsIff | dex-indexer/src/indexer/EventIndexer.ts:201-210 | for any set of heads that ticks may report before one has finished: no run has a hole between its first finished and its last processed block if and only if no two of the heads are more than one block apart |
| Polling.OverlappingFirstTicksLoseABlock | dex-indexer/src/indexer/EventIndexer.ts:201-210 | for any two heads further apart, two overlapping first ticks pass over every block in between, and no continuation processes it |
| Polling.ExactlyOnceIff | dex-indexer/src/indexer/EventIndexer.ts:203-220 | a run is free of repeats, at every point and however it goes on serially, if and only if no range opens beside another and failed ticks had processed nothing; then each block from the first head to the last processed one is processed exactly once |
| Polling.SerialStepIff | dex-indexer/src/indexer/EventIndexer.ts:203-220 | after a serial past, a step that is not serial always lets some serial continuation process a block twice, and a serial one never does |
| Checkpoints.OnlySavesWrite | dex-indexer/src/indexer/EventIndexer.ts:212-216 | a completing save writes its tick's block as the checkpoint, and no other action writes one |
| Checkpoints.RangeIsSaved | dex-indexer/src/indexer/EventIndexer.ts:203-216 | after any run, a tick that is given a range up to c, finishes and saves leaves checkpoint c |
| Checkpoints.CheckpointIff | dex-indexer/src/indexer/EventIndexer.ts:208-216 | in a serial run whose saves all succeed: at every point, in whatever order open saves complete, the checkpoint ends as the last processed block, if and only if no range finishes while another tick is saving |
| Checkpoints.CheckpointIsLast | dex-indexer/src/indexer/EventIndexer.ts:208-216 | then, with all saves done, the checkpoint is the last processed block, or none before the first |
| Checkpoints.LateSaveSetsBack | dex-indexer/src/indexer/EventIndexer.ts:210-216 | for any two heads: a serial run in which both ticks saved and the checkpoint is the older block |
| Indexing.SyncThenPollIff | dex-indexer/src/indexer/EventIndexer.ts:34-57 | on quiet chains, after the sync and serial polling from the last synced block or the next, the tables are those of processing every block once if and only if the polls did not process the last synced block again or it holds no row of a known pair; otherwise just those rows are stored twice |
| Indexing.SerialPollingIs | dex-indexer/src/indexer/EventIndexer.ts:200-220 | serial polling leaves the tables of one range, from its first head to the last processed block |
| Resumption.RestartResumes | dex-indexer/src/indexer/EventIndexer.ts:17-57 | sync, serial polling with the last processed block as checkpoint, a restart and a sync more than one block behind: all blocks are stored as by one pass, later ones exactly once, and only the rows that polling stored twice stay so |
| Resumption.SettledRunResumes | dex-indexer/src/indexer/EventIndexer.ts:17-57 | if no range finishes beside an open save, all saves are done and the last synced block was not polled again, the restart leaves every block from the first to the head stored once |

## Left out

- EnergyRuns.BatchesStayVerifiable: stated for runs that accept fewer than 2^32 items in each batch and take fewer than 2^64 identifiers, because the stored count and the counter wrap there; `EnergyRuns.CountIsExactIff` shows the first bound is where the count stops being exact.
- AuditRuns.RunKeeps: stated for runs of fewer than 2^64 messages; the counter wraps at 2^64 logs.
- Audit.NulTypeLeaks: an instance; the exact condition is `Audit.NameQueryExactIff`.
- Candles.TickExactIff: assumes positive volumes, since a dropped swap of volume 0 can leave the candle unchanged; the direction to agreement is `Candles.CleanTickIsRebuild`, without that assumption.
- CandleRuns.RebuildIffClean: assumes positive volumes for the same reason, and non-negative times.
- PriceService.Service.GenerateOHLCV: one atomic step (see `GeneratorOverlap` for the split run); price and volume are given with each swap in real arithmetic; their computation from amounts and floating-point rounding are not modelled, nor are partial writes when an upsert fails.
- HistoricalSync.SyncIndependentOfBatch: a sync that completes; a crash in the middle saves no checkpoint and would store rows twice on restart. Timestamps and other columns of a row are one opaque value.
- Polling.PollCovers: processing a range is one step, or a partial step on failure; the tracked set that overlapping ticks share while processing is not modelled.
- Resumption.RestartResumes: a restart whose sync is exactly one block behind the head does nothing, as `Resumption.NothingToResume` says for syncs; `Polling` then starts at the head.
- GeneratorOverlap.OverlapLosesSwap: one family of overlaps that goes wrong, not the exact condition on all overlapping runs.
- Indexing.SyncThenPollIff: serial polls only, whose first head is the last synced block or the next; `Polling` treats the others at the level of blocks.
- Order of rows inserted for different pairs and kinds of one range: the tables are multisets.
- Error texts, emitted events, gas and logging.
- gRPC query servers and `ValidateBasic`: thin wrappers; no theorem needs the positivity or non-emptiness they check.
- Failing JSON decoding of a stored value: cannot happen with an exact codec.
- `ensureToken`, `updatePairStats`, `getTokenPrice`: token metadata lookup and display statistics.
- Internals of Keccak-256, SHA-256 and bech32.
- `chain_backup/`: a superseded copy of the modules with fixed-width keys.
- Application wiring, Solidity contracts, front ends, SDK and scripts: no state invariants of their own, or source not present.
