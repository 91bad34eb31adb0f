# Verified model of the wallet PIR and compact-filter services

This project models, in Dafny, the logic that decides whether a wallet gets the right answer from the
private-retrieval servers and the public filter server, and proves it for every input, every run or
every reachable state.

- **Generations.** `ShardEvaluation`, `Worker` and `Generations` model a coordinator that prepares shards on
  replicas, activates numbered generations, swaps them in and keeps eight answerable, while workers evict,
  restart and answer; an activation's three phases are separate steps, and requests may arrive late, twice or
  overlapping. `Served.AnswersStanding` says, of every run and with nothing assumed of deliveries, which database a query is
  answered from, and `Served.IsolationExactly` when it is the one published under the number the query names.
  `Agreement` says which deliveries keep that so, `Replicas` what a single replica answers, `Answers` models
  the query path, `LateRun` a run in which isolation breaks, and `Hints` how the public CRS is collected.
- **Filters.** `CompactSize`, `BitStream`, `GolombRice`, `FilterValidation` and `Matching` model the
  strict BIP 158 decoder, the encoder written from BIP 158 ("Golomb-Rice Coding", "Set Construction"),
  and the matcher. `Codec`, `Cursor`, `Envelope` and `WorkerWire` model the message formats, and
  `RangeClient` the wallet's range synchronization.
- **Filter store and service.** `FilterStore` models the content, index, chain and checkpoint files with
  crashes at any write boundary; `RangeService` models the range endpoint and its agreement with the client.
- **Journals and index.** `Journal` and `Positions` model exactly-once block ingest and how positions,
  rows, shards and the logical table fit together; `BucketIndex` models the spend table.
- **Incremental wallet sync.** `Ledger`, `History`, `Budget` and `WalletSync` model the UTXO ledger, the page
  and directory layout of a history generation, and the sync that can pause on a budget and reads only rows
  it has journaled. `SyncExact` compares it with a plan made from the whole generation, `Bloom` and `Targets`
  model the filters that choose the scripts, and `WalletRuns` follows a wallet through its whole life.

`Results`, `Bytes`, `Arithmetic`, `Sorting` and `Chain` are shared. Code that updates state is modelled by
classes and methods (`FilterValidation.BitReader`, `Cursor.ByteCursor`, `FilterStore.LiveStore`,
`Journal.RecordJournal`, `Worker.WorkerNode`, `WalletSync.Session` and the loops around them), each proved
equal to a function on values; the theorems are about those functions and about runs of them. Members whose names
end in `Exactly`, `Layout` or `Least` say in plain terms, without those functions, when an operation succeeds and
what it yields.

## What the code does not promise

These statements about the program turned out false or narrower than its comments say; each has a lemma
with the exact condition.

- `pir/transparent-filter/src/validate.rs:57` calls decoded values strictly ascending. They are
  nondecreasing: a zero delta is accepted (`Matching.RepeatedValueAccepted`). For every accepted byte string
  they are strict exactly when no delta after the first is zero (`FilterValidation.StrictExactly`), which
  for a built filter means that no two elements share a mapped value (`Matching.BuiltRepeatsExactly`).
- A failed publish does not consume its generation number, so the next attempt takes it again. If an
  activation of the abandoned attempt reaches a worker after the second attempt was published, and an older
  generation still keeps its shards cached, the worker answers for the published generation from the
  abandoned rows (`LateRun.LateActivationBreaksIsolation`). Answers come from the published database exactly
  when each replica that answered was last activated with the published digests (`Served.IsolationExactly`,
  `Replicas.ReplicaExact`). An activation keeps that so exactly when it is refused, evicted at once, or names
  no other digest for shards something relies on (`Agreement.DeliveryExact`, `Agreement.RunIntactExactly`);
  one that arrives before its number is taken again always does (`Agreement.TimelyHarmless`).
- `activate_local` releases its locks between checking, extending and dropping shards. Two overlapping
  activations can leave a generation active whose shard was dropped, so that its queries fail
  (`Worker.OverlapLosesShard`; exact conditions in `Worker.WidenRetainsExactly` and
  `Worker.SweepRetainsExactly`). Answers that are given stay right.
- `build_generation` does not check the bounds that every wallet checks: a generation of more than 10000 blocks
  or 131072 pages is published and then refused (`History.BuildGeneration`).
- `crs_local` returns the hint of the newest runtime of a shard, not of the digest just prepared. The two
  agree exactly when the digest was not already cached or nothing newer was prepared
  (`Worker.HintBelongsExactly`, `Worker.RecurringDigestGetsWrongHint`); then the published CRS is the sum
  over the manifest's rows (`Hints.CollectHints`).
- Rewinding a committed sync restores the wallet, but its height-to-hash map only if it already held the
  accepted hashes of the generation's blocks up to the old checkpoint (`WalletSync.RewindUndoesCommit`).
- An event batch that both receives and spends an outpoint usually leaves it unheld, but a coin of the base that
  is spent and whose outpoint is received again is accepted and stays (`Ledger.ReceivedAgain`); the exact
  condition for an outpoint to be held is in `Ledger.CoinsExactly`.
- `sync_range` with a start above the stop height succeeds with nothing checked
  (`RangeClient.SyncCoversExactly`).
- A crash between the two writes of a rollback or of a journal rewind makes the next open fail, exactly
  when something committed was being dropped (`FilterStore.RollbackWindow`, `Journal.RewindWindow`).
- A filter of 2^32 bytes or more would be stored under a truncated length
  (`FilterStore.OversizedFilterTruncated`).
- A block that skips ahead is refused, except on an empty journal where skipped blocks without records go
  unnoticed (`Journal.IngestLater`).

## Model

| member | source | states |
|---|---|---|
| `ShardEvaluation.AddIntermediateAssignMod` | server/enhance-pir-server/src/ipir.rs:42-71 | succeeds exactly when the modulus is at least two, widths agree and both vectors are canonical; then the accumulator is the sum mod q in place; the error names the first failed check |
| `ShardEvaluation.SliceByGroup` | server/enhance-pir-server/src/coordinator.rs:1219-1234 | slices exist exactly when every shard lies inside the query; each group gets exactly its shards' slices in manifest order |
| `ShardEvaluation.GroupAnswer` | server/enhance-pir-server/src/worker.rs:340-364 | what a group returns is the integer sum over its shards, reduced mod q |
| `ShardEvaluation.GroupsPartition` | server/enhance-pir-server/src/coordinator.rs:1219-1240 | for every assignment of shards to groups and every order of groups each shard is counted exactly once |
| `ShardEvaluation.DistributedEqualsMonolithic` | server/enhance-pir-server/src/coordinator.rs:1219-1294 | whatever the assignment and arrival order, the combined vector is the query times the whole zero-padded database mod q |
| `ShardEvaluation.Combine` | server/enhance-pir-server/src/coordinator.rs:1284-1294 | one failed, mis-sized or unreduced partial fails the query; otherwise the result is the sum of all partials; no partial is an error |
| `ShardEvaluation.FoldColumn` | server/enhance-pir-server/src/coordinator.rs:1284-1294 | whatever was folded, a column of the result is the integer sum of that column over all vectors, reduced once mod q |
| `Worker.WorkerNode.PrepareLocal` | server/enhance-pir-server/src/worker.rs:149-200 | digest check, early return for a cached digest, load or build, persist outcome; it succeeds exactly when the digest is right and the shard is cached, on disk under that digest and row, or buildable inside its table and saved |
| `Worker.WorkerNode.EnsureLocal` | server/enhance-pir-server/src/worker.rs:202-237 | succeeds exactly when the shard is cached or on disk under that digest and row, and then it is cached and nothing else changed |
| `Worker.WorkerNode.CheckRequest` | server/enhance-pir-server/src/worker.rs:242-273 | the first phase: the tables to activate exactly when some shard is named, none twice, and all are prepared |
| `Worker.WorkerNode.ExtendActive` | server/enhance-pir-server/src/worker.rs:274-306 | the second phase, in any state: what was listed before and is not in the request stays, what the request names is listed as it says, nothing else is, and exactly the eight newest generations remain; the shards then named are noted |
| `Worker.WorkerNode.RetainShards` | server/enhance-pir-server/src/worker.rs:307-311 | the last phase, in any state: exactly the noted shards stay |
| `Worker.WorkerNode.ActivateLocal` | server/enhance-pir-server/src/worker.rs:241-312 | the three phases in turn: refused exactly when no shard is named, one is named twice, or one is not cached; otherwise every earlier table stays and the request's tables are added, the eight newest generations remain, and the cache becomes exactly the referenced set |
| `Worker.WorkerNode.LookUp` | server/enhance-pir-server/src/worker.rs:314-339 | the assignment read under the first lock, refused in order at the evaluation limit, for an unknown generation or table, or when the request is not the complete assignment |
| `Worker.WorkerNode.SumLocal` | server/enhance-pir-server/src/worker.rs:340-364 | the sum over the cached rows of an assignment taken earlier, an error when a shard has disappeared since |
| `Worker.WorkerNode.EvaluateLocal` | server/enhance-pir-server/src/worker.rs:314-365 | look-up then sum: errors in order, or the sum over the digests the generation names |
| `Worker.WorkerNode.CrsLocal` | server/enhance-pir-server/src/worker.rs:368-377 | finds the newest prepared runtime of the shard, none exactly when there is none |
| `Worker.PrepareExactly` | server/enhance-pir-server/src/worker.rs:149-200 | when a prepare must succeed, over the rows, the cache and the disk; a failure leaves cache and listings alone |
| `Worker.LoadExactly` | server/enhance-pir-server/src/worker.rs:202-237 | a load succeeds if and only if the shard is cached or its artifact is on disk, and installs that artifact's rows |
| `Worker.WidenedAccumulates` | server/enhance-pir-server/src/worker.rs:274-293 | listings add up: unless its generation is evicted for being older than eight others, every listed table keeps its assignment, every requested table gets the requested one, and nothing else is listed |
| `Worker.TablesAccumulate` | server/enhance-pir-server/src/worker.rs:274-293 | two activations of one generation, one table each, leave both tables listed |
| `Worker.TrimKeepsNewest` | server/enhance-pir-server/src/worker.rs:290-293 | eviction keeps at most eight generations and drops only older ones, unchanged otherwise |
| `Worker.ActivationExact` | server/enhance-pir-server/src/worker.rs:239-312 | after an activation the cache is exactly the shards some retained generation names |
| `Worker.RunRetains` | server/enhance-pir-server/src/worker.rs:149-312 | over every run of prepares, loads, restarts and activations that do not overlap: at most eight generations, every referenced shard cached under its digest, and the cache exact after each activation |
| `Worker.PhasesCompose` | server/enhance-pir-server/src/worker.rs:241-312 | the three phases with nothing in between are the whole activation |
| `Worker.WidenRetainsExactly` | server/enhance-pir-server/src/worker.rs:274-293 | the second phase keeps every named shard cached if and only if the request's own shards still are |
| `Worker.SweepRetainsExactly` | server/enhance-pir-server/src/worker.rs:294-311 | the last phase keeps every named shard cached if and only if the set noted earlier has all shards named by now |
| `Worker.OverlapLosesShard` | server/enhance-pir-server/src/worker.rs:241-312 | two overlapping activations leave a generation active whose shard is gone, so its queries fail |
| `Worker.SumShardsExact` | server/enhance-pir-server/src/worker.rs:340-364 | a successful evaluation is the sum over exactly the rows of the assigned digests |
| `Worker.HintBelongsExactly` | server/enhance-pir-server/src/worker.rs:166-170 | the newest runtime after a prepare is the prepared one if and only if it was not cached before or already newest |
| `Worker.RecurringDigestGetsWrongHint` | server/enhance-pir-server/src/worker.rs:367-377 | preparing d1, d2, d1 leaves d2's hint as the one handed out |
| `Generations.NextGenerationAdvances` | server/enhance-pir-server/src/coordinator.rs:57-61 | a new number exceeds the newest exactly below the saturation point and never drops below the tip |
| `Generations.NextGenerationIsLeast` | server/enhance-pir-server/src/coordinator.rs:57-61 | the new number is the least that exceeds the newest one and reaches the tip |
| `Generations.RetainNewest` | server/enhance-pir-server/src/coordinator.rs:686-696 | the new snapshot first, then exactly the first seven others, or all if fewer, in their order |
| `Generations.SwapKeeps` | server/enhance-pir-server/src/coordinator.rs:686-696 | in any reachable state a swap puts the new snapshot before the first seven live ones |
| `Generations.StepInv` | server/enhance-pir-server/src/coordinator.rs:634-699 | every step, unrestricted, keeps the invariant: a worker lists for a generation and table exactly what the last activation that took effect there assigned, and published numbers are backed by acknowledged activations |
| `Generations.AcknowledgeAdds` | server/enhance-pir-server/src/coordinator.rs:874-902 | an acknowledgement makes its worker a replica of its group and changes no other |
| `Generations.RunInv` | server/enhance-pir-server/src/coordinator.rs:634-937 | the invariant holds in every state of every run, with late, repeated and overlapping deliveries, whatever former coordinators left on the workers |
| `Generations.EightNewestLive` | server/enhance-pir-server/src/coordinator.rs:634-699 | over every run the live snapshots are exactly the last eight published, newest first, in strictly falling number |
| `Generations.RequestedIs` | server/enhance-pir-server/src/worker.rs:242-273 | what passes the check is what the second phase adds |
| `Agreement.TimelyHarmless` | server/enhance-pir-server/src/coordinator.rs:650-655 | a request that reaches a worker before its number is taken again names no other digest for anything relied upon |
| `Agreement.DeliveryExact` | server/enhance-pir-server/src/worker.rs:274-293 | for every request that passed its check: extending keeps every relied-upon listing right if and only if it is evicted at once or harmless to what a publish under way or a published snapshot relies on |
| `Agreement.RunIntactExactly` | server/enhance-pir-server/src/coordinator.rs:634-937 | over every run: all listings stay right if and only if every extension that took effect was harmless |
| `Generations.NumbersUnique` | server/enhance-pir-server/src/coordinator.rs:650-655 | two snapshots published under one number are the same attempt |
| `Answers.ReplicaAnswer` | server/enhance-pir-server/src/worker.rs:314-365 | where the last request that took effect agrees, a successful evaluation on a ready replica uses exactly the published rows of its group, also when the assignment is read in one state and the shards in a later one |
| `Served.GroupIsServed` | server/enhance-pir-server/src/coordinator.rs:1131-1279 | after any retries of embedded or remote replicas at any later times, with lost and unusable replies, a group's result is the sum over the rows of the activation standing at the replica that answered |
| `Served.AnswersStanding` | server/enhance-pir-server/src/coordinator.rs:1193-1294 | in every run, with nothing assumed of deliveries: an answered query is the query times the database of the shards last activated on the replicas that answered |
| `Served.IsolationExactly` | server/enhance-pir-server/src/coordinator.rs:1193-1294 | in every run: that is the database published for the named generation if and only if each replica that answered was last activated with the published digests |
| `Served.GenerationIsolation` | server/enhance-pir-server/src/coordinator.rs:1193-1294 | then the combined answer is the query times the published database |
| `Served.DisagreementTells` | server/enhance-pir-server/src/coordinator.rs:1193-1294 | otherwise some query to the same replicas has a wrong answer |
| `Served.HarmlessRunsIsolate` | server/enhance-pir-server/src/coordinator.rs:1193-1294 | in every run whose effective extensions were harmless, every answer comes from the published database |
| `Answers.EvaluateGroup` | server/enhance-pir-server/src/coordinator.rs:1131-1279 | replicas are tried in turn from the counter on; the result is that of the first one that answers or whose error ends the tries (embedded: anything but the limit, an unknown generation or a lost shard; remote: an unreadable reply), or of the last one |
| `Answers.UsableReplicaAnswers` | server/enhance-pir-server/src/coordinator.rs:1131-1183 | when one replica answers and every other only fails with errors that are passed over, the group answers |
| `Answers.TriesConclude` | server/enhance-pir-server/src/coordinator.rs:1131-1183 | also over tries at any times of a run: the outcome is that of one try, all earlier ones were passed over, and nothing comes after it |
| `Answers.RotatedSame` | server/enhance-pir-server/src/coordinator.rs:197-202 | the round-robin order offers every ready replica and nothing else |
| `Answers.TurnsReachAll` | server/enhance-pir-server/src/coordinator.rs:197-202 | every replica has its turn, and the next call starts one further on |
| `Answers.FindGeneration` | server/enhance-pir-server/src/coordinator.rs:370-376 | finds a retained snapshot of that number, none exactly when there is none |
| `Answers.AnswerQuery` | server/enhance-pir-server/src/coordinator.rs:1193-1294 | in any reachable state, where the ready replicas agree, an answer is the product with the published database; an error means that the number or table is not retained, the length is wrong, or a group owning a shard of the table has no usable replica |
| `Replicas.OverwrittenIsWrong` | server/enhance-pir-server/src/worker.rs:314-365 | a worker whose assignment was overwritten by other digests answers some query with wrong values |
| `Replicas.ReplicaExact` | server/enhance-pir-server/src/worker.rs:275-365 | in every reachable state and for every activation that reached its worker: all the replica's answers are right if and only if it cannot answer or the last request that took effect names the same digests for the same shards |
| `LateRun.LateActivationBreaksIsolation` | server/enhance-pir-server/src/coordinator.rs:634-699 | a run of publishes in which an abandoned attempt's activation arrives after its number was reused and published, and a ready replica then answers a query with something other than the query times the published database |
| `Hints.PrepareReplicaShard` | server/enhance-pir-server/src/coordinator.rs:940-992 | a hint, cached or fetched, is the one of the asked rows, unless the digest recurred; it is missing only if the worker refused the shard |
| `Hints.PrepareShard` | server/enhance-pir-server/src/coordinator.rs:755-828 | all successful replicas report the same hint, so a replica is dropped only for refusing the shard itself |
| `Hints.CollectHints` | server/enhance-pir-server/src/coordinator.rs:731-866 | the combined hint is the sum over exactly the manifest's rows and every replica left holds every shard of its group; failure means a group none of whose replicas took all its shards |
| `CompactSize.ParseEncode` | pir/transparent-filter/src/validate.rs:128-167 | every integer is read back, whatever follows |
| `CompactSize.EncodeParse` | pir/transparent-filter/src/validate.rs:128-167 | an accepted encoding is the only one of its value |
| `CompactSize.EncodedShape` | pir/transparent-filter/src/validate.rs:128-167 | marker, width and little-endian digits of every encoding |
| `GolombRice.DecodeOfEncode` | pir/transparent-filter/src/validate.rs:214-247 | decoding undoes encoding for every nondecreasing sequence below the range |
| `GolombRice.EncodeOfDecode` | pir/transparent-filter/src/validate.rs:214-247 | whatever decodes is the encoding of its values |
| `GolombRice.EncodedLength` | pir/transparent-filter/src/validate.rs:190-247 | between 20 bits a value and what the range can pay for |
| `GolombRice.DeltaBits` | pir/transparent-filter/src/validate.rs:214-247 | bit by bit: a quotient by 2^19 in unary ones, a zero, and 19 remainder bits, most significant first |
| `FilterValidation.ValidateOfEncode` | pir/transparent-filter/src/validate.rs:174-259 | every encodable sequence within the limits is accepted and comes back, so no early count check refuses a real filter |
| `FilterValidation.EncodeOfValidate` | pir/transparent-filter/src/validate.rs:174-259 | accepted bytes, including count, padding and length, are exactly the encoding of their values |
| `FilterValidation.FilterLayout` | pir/transparent-filter/src/validate.rs:174-259 | a filter is its count, the code bits in order, and zero padding to a byte |
| `FilterValidation.LimitsFirst` | pir/transparent-filter/src/validate.rs:174-190 | the byte limit is checked before anything is read, the element limit before anything is decoded, and both hold of what is accepted |
| `FilterValidation.AcceptedLength` | pir/transparent-filter/src/validate.rs:190-253 | an accepted filter of n elements uses between 20n and 20n + (nM - 1)/2^19 bits, rounded up to bytes |
| `FilterValidation.StrictExactly` | pir/transparent-filter/src/validate.rs:55-60 | for every accepted byte string, the values are strictly ascending if and only if no delta after the first decodes to zero |
| `FilterValidation.ValidateFilter` | pir/transparent-filter/src/validate.rs:174-259 | the one-pass bit reader returns the specified value or error, all arithmetic within 64 bits |
| `FilterValidation.BitReader.ReadBit` | pir/transparent-filter/src/validate.rs:88-96 | next bit, most significant first, or truncation |
| `FilterValidation.BitReader.ReadBits` | pir/transparent-filter/src/validate.rs:98-104 | a big-endian field, or truncation |
| `FilterValidation.BitReader.PaddingIsZero` | pir/transparent-filter/src/validate.rs:113-124 | true exactly when the unread bits of the last byte are zero |
| `FilterValidation.ReadDelta` | pir/transparent-filter/src/validate.rs:219-240 | quotient shifted by P never overflows 64 bits on any input |
| `Matching.BuildFilter` | pir/transparent-filter/src/build_filter.rs:46-69 | the bytes are the encoding of the sorted mapped values of the distinct eligible scripts |
| `Matching.BuildCanonical` | pir/transparent-filter/src/build_filter.rs:46-79 | a filter depends only on its element set, not on order or repetition |
| `Matching.MapProportional` | pir/transparent-filter/src/matching.rs:15-17 | the value v of a hash h in the range n satisfies v 2^64 <= h n < (v + 1) 2^64 |
| `Matching.BuiltExactly` | pir/transparent-filter/src/build_filter.rs:46-79 | as many ascending values as there are distinct scripts that are neither empty nor OP_RETURN, each the mapped value of one and every one mapped |
| `Matching.MapWalletScripts` | pir/transparent-filter/src/matching.rs:49-67 | mapped values with original positions, sorted; empty scripts skipped |
| `Matching.MatchMapped` | pir/transparent-filter/src/matching.rs:70-89 | the single-cursor merge finds every mapped value in the set, also repeated ones |
| `Matching.MatchesExact` | pir/transparent-filter/src/matching.rs:33-89 | exactly the positions whose mapped value is in the decoded set, strictly ascending |
| `Matching.NoFalseNegatives` | pir/transparent-filter/src/matching.rs:15-89 | after build, validate, map and match every eligible script's position is returned |
| `Matching.BuiltStrictExactly` | pir/transparent-filter/src/validate.rs:55-60 | a built filter's values are strict if and only if no two elements share a mapped value |
| `Matching.BuiltRepeatsExactly` | pir/transparent-filter/src/validate.rs:55-60 | a built filter stores a zero delta after its first element if and only if two elements share a mapped value |
| `Matching.RepeatedValueAccepted` | pir/transparent-filter/src/validate.rs:235-246 | a filter with a repeated value is accepted and its values are not strictly ascending |
| `Envelope.BatchRoundTrip` | pir/transparent-filter/src/envelope.rs:138-236 | decode undoes encode for every batch within the limits, so no pre-allocation check refuses one |
| `Envelope.BatchCanonical` | pir/transparent-filter/src/envelope.rs:138-236 | an accepted envelope is the one encoding of its batch, and no proper prefix is accepted |
| `Envelope.DecodedExactly` | pir/transparent-filter/src/envelope.rs:159-236 | bytes decode to a batch if and only if they are its encoding, it is no larger than 64 MiB, version 1, a profile of at most 64 bytes of UTF-8, and at most 1000 records |
| `Envelope.BatchLayout` | pir/transparent-filter/src/envelope.rs:138-157 | the position, width and byte order of every header field |
| `Envelope.RecordLayout` | pir/transparent-filter/src/envelope.rs:138-157 | height, hash, length and filter of a record at their positions |
| `Envelope.Utf8Exactly` | pir/transparent-filter/src/envelope.rs:186-190 | the accepted profiles are exactly the encodings of section 3 of RFC 3629 |
| `Envelope.Encode` | pir/transparent-filter/src/envelope.rs:140-157 | the buffer-pushing writer yields that encoding |
| `Envelope.DecodeEnvelope` | pir/transparent-filter/src/envelope.rs:166-236 | the cursor-driven reader accepts exactly what the grammar does |
| `Cursor.ByteCursor.Take` | pir/transparent-filter/src/envelope.rs:76-87 | the next bytes, or nothing consumed when too few remain |
| `Cursor.ByteCursor.TakeCompact` | pir/transparent-filter/src/envelope.rs:108-131 | a canonical compact size |
| `WorkerWire.RequestRoundTrip` | server/enhance-pir-server/src/wire.rs:26-73 | every valid evaluate request survives the trip |
| `WorkerWire.RequestCanonical` | server/enhance-pir-server/src/wire.rs:46-73 | one encoding per request, prefix-free |
| `WorkerWire.RequestExactly` | server/enhance-pir-server/src/wire.rs:46-73 | bytes decode to a request if and only if they are its encoding and it names 1 to 4096 shards |
| `WorkerWire.RequestLayout` | server/enhance-pir-server/src/wire.rs:26-44 | magic, generation, count and then the shards, at their positions |
| `WorkerWire.ShardLayout` | server/enhance-pir-server/src/wire.rs:26-44 | identifier, count and eight-byte little-endian coefficients of a shard |
| `WorkerWire.ResponseRoundTrip` | server/enhance-pir-server/src/wire.rs:75-102 | every response survives the trip |
| `WorkerWire.ResponseCanonical` | server/enhance-pir-server/src/wire.rs:86-102 | one encoding per response, prefix-free |
| `WorkerWire.ResponseExactly` | server/enhance-pir-server/src/wire.rs:86-102 | bytes decode to a response if and only if they are its encoding |
| `WorkerWire.ResponseLayout` | server/enhance-pir-server/src/wire.rs:75-84 | magic, generation, count and coefficients at their positions |
| `WorkerWire.HintRoundTrip` | server/enhance-pir-server/src/wire.rs:104-164 | CRS blocks of every count and degree survive the trip |
| `WorkerWire.HintCanonical` | server/enhance-pir-server/src/wire.rs:126-164 | one encoding per hint, prefix-free |
| `WorkerWire.HintExactly` | server/enhance-pir-server/src/wire.rs:126-164 | bytes decode to hint blocks if and only if they are their encoding, there are as many as expected, and each is a square of the expected degree |
| `WorkerWire.HintLayout` | server/enhance-pir-server/src/wire.rs:104-124 | magic and block count at their positions, then the blocks |
| `WorkerWire.BlockLayout` | server/enhance-pir-server/src/wire.rs:104-124 | row count, then each row as its length and eight-byte little-endian words |
| `WorkerWire.EncodeRequest` | server/enhance-pir-server/src/wire.rs:26-44 | the nested writing loops yield the specified bytes |
| `WorkerWire.DecodeRequest` | server/enhance-pir-server/src/wire.rs:46-73 | the reading loop accepts exactly the grammar |
| `WorkerWire.DecodeResponse` | server/enhance-pir-server/src/wire.rs:86-102 | the reading loop accepts exactly the grammar |
| `WorkerWire.DecodeHint` | server/enhance-pir-server/src/wire.rs:126-164 | accepts exactly square blocks of the expected count and degree |
| `RangeClient.HeightOf` | pir/transparent-filter/src/client.rs:58-69 | the lowest height that carries the hash |
| `RangeClient.CheckBatch` | pir/transparent-filter/src/client.rs:85-161 | accepts exactly a batch for the request's chain, profile, start and stop whose records sit in order at accepted heights with valid filters, and that ends at the stop or holds 1000 records with the stop further on |
| `RangeClient.AcceptedExactly` | pir/transparent-filter/src/client.rs:85-161 | the same, as one equivalence over batch, request, accepted chain and limits |
| `RangeClient.SyncCoverage` | pir/transparent-filter/src/client.rs:199-249 | against any transport, success means every height was validated exactly once, in order, under the wallet's own hash |
| `RangeClient.SyncCoversExactly` | pir/transparent-filter/src/client.rs:205-249 | coverage is the stop block with one filter per height; with start above stop nothing is checked |
| `RangeClient.ScanExact` | pir/transparent-filter/src/client.rs:225-238 | matches are strictly ascending and exactly the heights whose filter matched |
| `RangeClient.BatchingIrrelevant` | pir/transparent-filter/src/client.rs:192-249 | two transports with the same filters give the same outcome whatever their batches |
| `RangeClient.SyncRange` | pir/transparent-filter/src/client.rs:192-249 | the loop terminates against any transport with the specified outcome |
| `FilterStore.OpenIgnoresTails` | server/transparent-filter-server/src/store.rs:152-221 | whatever was written after the checkpoint is invisible to a reopen |
| `FilterStore.OpenExactly` | server/transparent-filter-server/src/store.rs:152-221 | an open succeeds if and only if every file reaches the checkpoint in whole records; memory then holds the last index record of each hash and the chain record by record |
| `FilterStore.IndexRecordLayout` | server/transparent-filter-server/src/store.rs:324-328 | hash, offset, length and digest of a 76-byte index record at their positions |
| `FilterStore.AppendExactly` | server/transparent-filter-server/src/store.rs:291-354 | an append is taken if and only if it is at the next height and its block is new or known with that digest; the exact bytes added to each file |
| `FilterStore.CrashesCoverAppend` | server/transparent-filter-server/src/store.rs:291-354 | the modelled crash points reach from the untouched disk to the finished append, one byte at a time, file after file |
| `FilterStore.StepRefines` | server/transparent-filter-server/src/store.rs:291-389 | each append, commit, rollback, crash or restart does on disk and in memory what it does to the views |
| `FilterStore.RunRefines` | server/transparent-filter-server/src/store.rs:152-389 | over every run with crashes at any write boundary no reopen fails and the store means exactly the last checkpoint plus what followed |
| `FilterStore.FreshMeans` | server/transparent-filter-server/src/store.rs:91-221 | a fresh directory opens empty |
| `FilterStore.DurableForever` | server/transparent-filter-server/src/store.rs:272-354 | over every run from a fresh directory, once durable a block's bytes never change, on disk or in memory |
| `FilterStore.ReadsFirstAppend` | server/transparent-filter-server/src/store.rs:272-354 | over every run from a fresh directory, the bytes read for a hash are those of the first surviving append of it, unchanged ever since |
| `FilterStore.CoveredHasContent` | server/transparent-filter-server/src/store.rs:272-285 | every covered height has content that reads back |
| `FilterStore.RollbackWindow` | server/transparent-filter-server/src/store.rs:361-375 | dying inside a rollback breaks the next open if and only if committed coverage was being dropped |
| `FilterStore.OversizedFilterTruncated` | server/transparent-filter-server/src/store.rs:291-354 | content reads back if and only if it is shorter than 2^32 bytes |
| `FilterStore.HeightOf` | server/transparent-filter-server/src/store.rs:260-265 | the first covered height of the hash, none exactly when it is not on the branch |
| `FilterStore.LiveStore.AppendFilter` | server/transparent-filter-server/src/store.rs:291-354 | refused exactly at a wrong height or for a known block with another digest; otherwise the new state of files and memory |
| `FilterStore.LiveStore.CommitAll` | server/transparent-filter-server/src/store.rs:377-389 | the checkpoint records the current lengths |
| `FilterStore.LiveStore.RollbackTo` | server/transparent-filter-server/src/store.rs:361-375 | a block stays covered if and only if it was covered, a height is given and the block is not above it, under the same hash; then committed, content kept |
| `FilterStore.OpenStore` | server/transparent-filter-server/src/store.rs:152-221 | fails exactly when a file is short or ragged; otherwise rebuilds index and branch record by record |
| `RangeService.ServeRange` | server/transparent-filter-server/src/service.rs:202-289 | the batch of stored records from the start to the stop or to the thousandth, or nothing exactly when the stop is not on the branch, the start lies outside, a record is missing, or the bytes exceed 64 MiB |
| `RangeService.AssembledExactly` | server/transparent-filter-server/src/service.rs:202-275 | a batch is assembled if and only if it answers the request from the stored branch, record by record |
| `RangeService.ServedBatchAccepted` | server/transparent-filter-server/src/service.rs:202-289 | every batch sent passes the wallet's check after encoding and decoding |
| `RangeService.SyncFinishes` | pir/transparent-filter/src/client.rs:205-249 | repeated range calls always finish |
| `RangeService.ServerAndClientAgree` | server/transparent-filter-server/src/service.rs:202-289 | against an unchanging service synchronization succeeds with full coverage |
| `RangeService.SyncFindsEverything` | pir/transparent-filter/src/client.rs:192-249 | against filters built from the blocks' scripts, a finished synchronization lists every height whose block holds an eligible wallet script, with that script |
| `Journal.SizeCheckNeverFires` | server/enhance-pir-server/src/ingest.rs:68-77 | for every journal and block the size check after an append cannot fail |
| `Journal.AppendExactly` | server/enhance-pir-server/src/store.rs:205-249 | an append succeeds if and only if it is at the next height, every record has the width and the size fits a word; what is added, and that a failure changes no manifest |
| `Journal.IngestExactly` | server/enhance-pir-server/src/ingest.rs:46-79 | which deliveries are ignored, refused and with which error, and the records a taken one adds |
| `Journal.IngestNext` | server/enhance-pir-server/src/ingest.rs:46-79 | the next block of a consistent sequence extends the clean journal |
| `Journal.IngestEarlier` | server/enhance-pir-server/src/ingest.rs:47-53 | a re-delivered block changes nothing |
| `Journal.IngestLater` | server/enhance-pir-server/src/ingest.rs:54-67 | a skipping block is accepted if and only if the journal is empty and the skipped blocks have no records |
| `Journal.OpenRecovers` | server/enhance-pir-server/src/store.rs:122-137 | bytes written after the last manifest are discarded on open |
| `Journal.OpenExactly` | server/enhance-pir-server/src/store.rs:122-151 | an open succeeds if and only if the records file holds what the manifest counts, and keeps exactly that |
| `Journal.TornReaches` | server/enhance-pir-server/src/store.rs:205-249 | a crash may leave the records file at any length between the old and the new one |
| `Journal.RewindIsReplay` | server/enhance-pir-server/src/store.rs:180-203 | a completed rewind is the journal of the kept blocks, exactly those at or below the height |
| `Journal.RewindWindow` | server/enhance-pir-server/src/store.rs:196-202 | dying inside a rewind is recoverable if and only if the dropped blocks hold no records |
| `Journal.DeliveryIgnored` | server/enhance-pir-server/src/ingest.rs:46-67 | any delivery other than the next block, early or ahead, leaves the journal unchanged, except the unnoticed skip on an empty journal |
| `Journal.RunExact` | server/enhance-pir-server/src/ingest.rs:46-79 | in any run of deliveries in any order, re-deliveries, crashes inside append and rewinds onto other branches, no reopen fails and the journal is that of one clean pass over exactly the kept blocks |
| `Journal.FreshInStep` | server/enhance-pir-server/src/store.rs:122-137 | an empty journal starts such a run on any branch |
| `Journal.RecordJournal.AppendBlock` | server/enhance-pir-server/src/store.rs:205-249 | order and size checks, records written one by one, manifest replaced last |
| `Journal.RecordJournal.Ingest` | server/enhance-pir-server/src/ingest.rs:46-79 | the branching checks in order, and never a size mismatch |
| `Journal.RecordJournal.RewindToHeight` | server/enhance-pir-server/src/store.rs:180-203 | file and manifest cut to the kept blocks |
| `Journal.OpenJournal` | server/enhance-pir-server/src/store.rs:122-151 | fails exactly on overflow or a short file, otherwise truncates to the manifest |
| `Positions.EnhanceLayoutValid` | pir/enhance/src/types.rs:10-14 | the fixed geometry meets the layout's assumptions |
| `Positions.NextFromLeast` | server/enhance-pir-server/src/types.rs:108-110 | the logical row count is the least power of two that is large enough |
| `Positions.UsedRowsLeast` | server/enhance-pir-server/src/types.rs:104-106 | the used rows are the fewest that hold the positions |
| `Positions.LogicalRowsLeast` | server/enhance-pir-server/src/types.rs:108-110 | the logical rows are the least power of two that holds the used rows and one shard |
| `Positions.RowExactly` | pir/enhance/src/types.rs:185-193 | a position has a row exactly when it lies in the tree and in the logical rows; row and slot are its quotient and remainder |
| `Positions.ShardsFit` | server/enhance-pir-server/src/types.rs:104-110 | every published shard's rows lie inside the logical rows |
| `Positions.PopulatedSums` | server/enhance-pir-server/src/store.rs:302-309 | populated counts over the shards sum to the number of records |
| `Positions.JoinedIsPaddedFile` | server/enhance-pir-server/src/store.rs:252-280 | the shards in order are the records file followed by zeros |
| `Positions.PositionPicksRecord` | pir/enhance/src/types.rs:185-193 | for every position the client's row and slot pick exactly the record appended there |
| `Positions.GroupsAreRuns` | pir/enhance/src/types.rs:203-212 | a group owns exactly its run of six shards, and the excess is refused |
| `Positions.ReadShardRows` | server/enhance-pir-server/src/store.rs:259-280 | a zeroed buffer filled with the shard's records, none outside coverage |
| `BucketIndex.EntryRoundTrip` | pir/transparent-spend/src/types.rs:39-71 | every entry reads back |
| `BucketIndex.EntryCanonical` | pir/transparent-spend/src/types.rs:51-71 | an accepted slot is the one encoding of its entry |
| `BucketIndex.BucketCountLeast` | pir/transparent-spend/src/types.rs:87-96 | the first count tried is the least power of two of at least 8192 rows at which the load is at most 55 percent |
| `BucketIndex.BucketIsRemainder` | pir/transparent-spend/src/types.rs:74-85 | an outpoint's bucket is the remainder of its hash by the bucket count |
| `BucketIndex.FirstFitExactly` | server/enhance-pir-server/src/spend.rs:250-285 | the count found is a doubling of the first that fits, and no smaller doubling does; none means that no doubling below 2^64 fits |
| `BucketIndex.FillBuckets` | server/enhance-pir-server/src/spend.rs:259-274 | succeeds exactly when no bucket overflows, and then each row holds its bucket's entries in log order |
| `BucketIndex.BuildTable` | server/enhance-pir-server/src/spend.rs:250-285 | the first doubling at which every bucket fits, or failure when the count no longer fits a word |
| `BucketIndex.ScanBucket` | pir/transparent-spend/src/types.rs:98-118 | the scan of a decoded row, error or entry |
| `BucketIndex.ScanFromMeans` | pir/transparent-spend/src/types.rs:98-118 | over the 88 slots: malformed at the first unreadable one, duplicate at the second of the key, otherwise the one of the key or none |
| `BucketIndex.BucketLookupExact` | pir/transparent-spend/src/types.rs:98-118 | scanning any outpoint's bucket gives none, the entry, or the duplicate error exactly as the log holds none, one or more |
| `BucketIndex.ColdExactly` | server/enhance-pir-server/src/spend.rs:337-349 | an entry is cold if and only if its block is at least 100000 below the tip, or, when the tip is lower than that, at height 0 |
| `BucketIndex.TiersEqualLog` | pir/transparent-spend/src/client.rs:211-221 | asking both tiers succeeds exactly when the whole log has at most one entry, with the same answer |
| `BucketIndex.UniqueNeverFails` | pir/transparent-spend/src/client.rs:211-221 | with unique outpoints a lookup never fails and finds exactly the entry |
| `BucketIndex.TieredIndexExact` | server/enhance-pir-server/src/spend.rs:337-365 | build, split, scan and merge agree with a search of the whole log |
| `BucketIndex.ClientUsesBuiltCount` | pir/transparent-spend/src/client.rs:199-203 | the row count the client hashes with is the bucket count the server built with |
| `BucketIndex.ShardViewExact` | server/enhance-pir-server/src/spend.rs:306-328 | shards tile the table row by row |
| `BucketIndex.ShardPadding` | server/enhance-pir-server/src/spend.rs:306-328 | rows of a shard past the table are 88 zero slots |
| `Ledger.ApplyHistory` | tools/transparent_pir_incremental.py:342-380 | the loop over sorted events succeeds exactly when the ordered events replay, and then each coin is as its receive made it, coinbase exactly for kind 3, or a base coin untouched |
| `Ledger.LedgerExactly` | tools/transparent_pir_incremental.py:342-380 | the ledger exists if and only if in height and index order, receives before spends, identities are distinct, a receive finds its outpoint free and a spend finds a coin of its script and value; each coin left is that of the last event on its outpoint |
| `Ledger.CoinsExactly` | tools/transparent_pir_incremental.py:342-380 | an outpoint is in the result if and only if it is received or in the base and not spent, unless a base coin is spent first and its outpoint received again; script, value, height and coinbase flag of each coin |
| `Ledger.ReceivedAgain` | tools/transparent_pir_incremental.py:342-380 | a base coin spent and its outpoint received again later is accepted and held, although a spend of it is among the events |
| `Ledger.OrderIrrelevant` | tools/transparent_pir_incremental.py:342-380 | the result depends only on the multiset of events |
| `Ledger.ValueConserved` | tools/transparent_pir_incremental.py:342-380 | base value plus receives equals resulting value plus spends |
| `Ledger.ReplayNeverFails` | tools/transparent_pir_incremental.py:390-393 | replaying a valid ledger's events up to any height succeeds |
| `History.FindBuckets` | tools/transparent_pir_incremental.py:186-199 | the smallest of the seven table sizes at which some salt puts no more than thirteen scripts in a row, with the first such salt; none exactly when all of them overflow |
| `History.BuildGeneration` | tools/transparent_pir_incremental.py:168-239 | the result is the page and directory layout of the histories, bucketed by the first size and salt that fit; none only for an unknown page width or when every size and salt tried overflows; wallets accept its geometry if and only if its blocks and pages stay within their bounds |
| `History.EntryExactly` | tools/transparent_pir_incremental.py:202-229 | a directory record counts all events of its script, holds the newest two inline, and points behind the pages of the scripts before it |
| `History.SearchExact` | tools/transparent_pir_incremental.py:807-822 | binary search ends at the first page that reaches above the checkpoint |
| `History.SearchHalves` | tools/transparent_pir_incremental.py:807-822 | the search reads at most k pages when there are fewer than 2^k |
| `History.RecordExactly` | tools/transparent_pir_incremental.py:617-632 | a directory record is accepted if and only if its inline and page counts fit its total and its pages lie in the table |
| `History.PageExactly` | tools/transparent_pir_incremental.py:775-805 | a page is accepted if and only if it belongs: script, number, count, fill, ascending heights, bounds within the generation |
| `History.RecordsExactly` | tools/transparent_pir_incremental.py:607-639 | visiting the rows succeeds if and only if no row is overfull, every target's record fits and sits in its own bucket, and none is repeated; then it lists exactly the targets' records |
| `History.FinishedExactly` | tools/transparent_pir_incremental.py:832-866 | a record finishes if and only if its pages are in order, its inline events follow them, the events are complete, distinct and inside the generation |
| `History.RecordsBuilt` | tools/transparent_pir_incremental.py:607-639 | visiting held rows of the targets yields exactly their records and no check complains |
| `History.FinishExact` | tools/transparent_pir_incremental.py:832-866 | a finished record yields exactly its script's events above the checkpoint |
| `Budget.AscendingSorts` | tools/transparent_pir_incremental.py:728-731 | the rows of a request come once each, from the lowest up |
| `Budget.BudgetExact` | tools/transparent_pir_incremental.py:728-745 | a call finishes if and only if the missing rows fit its budget, and otherwise buys exactly the budget in rows never journaled before |
| `SyncExact.SearchRuns` | tools/transparent_pir_incremental.py:807-822 | the search over journaled pages makes the probes of the search over the whole generation and ends where it does, from whatever was journaled before |
| `SyncExact.CollectRuns` | tools/transparent_pir_incremental.py:728-831 | what a call gathers by reading only journaled rows is what the generation's plan asks for, bought in order until the budget ends |
| `SyncExact.CallExact` | tools/transparent_pir_incremental.py:703-831 | against an honest transport a call pauses if and only if more rows are missing than its budget; a pause changes nothing but the journal, which grows by exactly the budget in missing rows |
| `SyncExact.PlanStarts` | tools/transparent_pir_incremental.py:807-823 | pages are read from the first that reaches above the checkpoint when navigating, else all |
| `SyncExact.ResumeExact` | tools/transparent_pir_incremental.py:703-881 | any budgets of at least one finish within the number of missing rows and end in the wallet of one unbounded call |
| `SyncExact.FirstCallOpens` | tools/transparent_pir_incremental.py:712-726 | the first call only adds an empty journal |
| `SyncExact.RecoversExactly` | tools/transparent_pir_incremental.py:747-866 | with or without navigation, the journaled rows of a finished call yield exactly the wallet scripts' source events above the checkpoint |
| `SyncExact.SyncCommitsSource` | tools/transparent_pir_incremental.py:867-881 | the commit has the source's event multiset and ledger, and happens exactly when that ledger is valid and the wallet's chain names every block of the generation |
| `SyncExact.NextGenerationCommits` | tools/transparent_pir_incremental.py:642-881 | a wallet on the accepted chain at any height from start - 1 to end - 1, with no journal or this generation's own, an honest generation and enough budget, commits at its end |
| `WalletSync.SafeAgainstAnyTransport` | tools/transparent_pir_incremental.py:642-881 | whatever rows arrive, a call leaves everything but its journal untouched, or commits a valid wallet whose new events lie above the old checkpoint and within the generation |
| `WalletSync.RewindExact` | tools/transparent_pir_incremental.py:383-396 | a rewind succeeds exactly for retained accepted ancestors and gives the ledger of the events up to them |
| `WalletSync.RewindUndoesCommit` | tools/transparent_pir_incremental.py:383-396 | rewinding a commit to the old checkpoint restores the old wallet; the height-to-hash map comes back if and only if it already agreed with the accepted chain there |
| `WalletSync.Session.Buy` | tools/transparent_pir_incremental.py:728-745 | buys the affordable missing rows in ascending order, stores their contents, and reports completeness |
| `WalletSync.Session.SearchRecord` | tools/transparent_pir_incremental.py:813-822 | the binary search reads only pages it has journaled, buys nothing twice and ends where the specification does |
| `WalletSync.Session.NavigateRecords` | tools/transparent_pir_incremental.py:807-823 | every record searched in turn, pausing at the first page it cannot afford |
| `WalletSync.Session.Run` | tools/transparent_pir_incremental.py:642-881 | one call as the wallet runs it: fails before buying anything exactly when the geometry is unknown, a hash is off the accepted chain, the start is more than one above the wallet, the journal is of another generation or the filters are unreadable; up to date exactly when the generation ends at or below the wallet; otherwise it equals the specified call |
| `WalletSync.GateExactly` | tools/transparent_pir_incremental.py:642-726 | when a call is turned away, when it has nothing to do, and the journal it otherwise starts from |
| `WalletSync.FetchExactly` | tools/transparent_pir_incremental.py:728-745 | what a purchase adds: the first missing rows of the request up to the budget, with the transport's contents, and nothing else |
| `Bloom.MakeFilter` | tools/transparent_pir_sample.py:51-72 | the bits set are exactly those some script hashes to |
| `Bloom.ContainsMeans` | tools/transparent_pir_incremental.py:555-569 | a match over the bytes: every hashed bit, counted from the least significant of its byte, is set |
| `Bloom.ContainsExactly` | tools/transparent_pir_incremental.py:555-569 | a script matches if and only if each of its bits is one some script of the block hashes to |
| `Bloom.BloomFindsAll` | tools/transparent_pir_incremental.py:555-569 | every script of the block matches |
| `Targets.ReadTargets` | tools/transparent_pir_incremental.py:507-574 | for both filter formats, read exactly when one filter stands at each height of the interval with the accepted hash, hash count 0 for BIP 158 or 1 to 64 for Bloom, 1 byte to 16 MiB, and decodes where it is matched; the targets are then exactly the wallet scripts some filter above the checkpoint matches |
| `Targets.TargetsExactly` | tools/transparent_pir_incremental.py:507-574 | the same, as equivalences over the filters and for each script |
| `Targets.HonestFiltersRead` | tools/transparent_pir_incremental.py:507-574 | filters with good headers built from the blocks' scripts within the limits are always read |
| `Targets.FiltersFindTargets` | tools/transparent_pir_incremental.py:507-605 | for both filter formats, with filters built from the blocks' scripts, the targets hold every wallet script with an event above the checkpoint and nothing else than wallet scripts |
| `WalletRuns.NewWalletInv` | tools/transparent_pir_incremental.py:312-339 | a new wallet starts with no events above its base, and a rewind to the base leaves it as it is |
| `WalletRuns.CheckpointIsAncestor` | tools/transparent_pir_incremental.py:693-702 | the checks against the accepted chain make the wallet's checkpoint an ancestor of the generation's anchor |
| `WalletRuns.LifeExact` | tools/transparent_pir_incremental.py:312-881 | after any sequence of syncs on honestly published generations of any branches, matched through their own filters, with pauses and failures, and of any rewinds, the wallet's events are exactly its scripts' events in the blocks of its checkpoint's branch above the base, and its coins their ledger |

## Left out

- SHA-256, SipHash and the outpoint hash are function parameters; digests of shard rows are assumed injective, and a shard's bytes are identified with the plaintext matrix the kernel reads from them.
- The `ipir_sp` and `inspiring` cryptography: query generation, packing, modulus switching and precomputation. `multiply_query` is the column-wise dot product mod q.
- Hints.CollectHints: a hint is one vector of one width instead of blocks of rows, prepares of one table run without activations in between, and transport errors of a replica are its refusal.
- Shard artifacts are one value per shard directory that is old, new or unreadable after a failed write, instead of three files.
- Availability: a failed publish may leave workers with evicted generations; only "right answer or error" is proved.
- Served.AnswersStanding: covers one coordinator lifetime and numbers below the 64-bit maximum, because the code gives no more.
- Answers.AnswerQuery: evaluates in one state; answers spread over later states are covered by the run theorem.
- RangeService.ServerAndClientAgree: assumes an unchanging store, distinct branch hashes, valid filters and batches under the byte cap.
- Bloom.MakeFilter: its size and hash count, computed with logarithms, are parameters.
- WalletSync.Session.Run: rows are records rather than packed bytes; schema, network, script scope and folder name are one flag, and costs are not modelled.
- WalletRuns.LifeExact: assumes honest rows and filters, and that the wallet's accepted chain links parents to children; against arbitrary rows WalletSync.SafeAgainstAnyTransport holds.
- BucketIndex.BuildTable: the mask with a power of two is written as a remainder, and the check of the table's name is not modelled.
- Matching.BuildFilter: assumes that the number of distinct elements times M fits 64 bits, as the filter library does.
- Ledger.OrderIrrelevant: the last sort key, a string comparison, is an injective ranking.
- Positions.PositionPicksRecord: covers every layout whose shard rows are a power of two, not others.
- HTTP, RPC, timeouts, semaphores, metrics, costs and error messages; errors that only differ in text are one error.
- Superseded directories, JSON and hex, the spend journal's own files, `extract.rs`, `prevout.rs`, reconciliation, the dashboard, the benchmarks and the other scripts.
