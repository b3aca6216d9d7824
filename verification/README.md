# ForgeZero: a verified model of its schedulers, caches, hasher, preprocessor and writers

ForgeZero is a build tool written in Go. This project models seven of its parts in Dafny and proves what they promise,
for every input, every run and every interleaving.

* **Dependency graph and parallel builder.** `TopoSort` is Kahn's algorithm over a counting-sort adjacency in recycled
  scratch arrays; `Remap` renumbers a graph along an order. `DagBuild` is the concurrent scheduler as a state machine:
  one step for each access to shared memory (reading and swapping a bitmap word, taking and releasing the mutex, one
  counter or one list entry inside it, handing a task to the pool or running it inline), tasks calling each other
  recursively, and the start loop that reads the counters without the lock. `DagInvariant` and `DagSteps` keep one
  invariant over all 21 kinds of steps, `DagTheorems`, `DagFailure` and `DagTermination` draw the consequences,
  `DagSetup` is the preparation and `Bitmap` the atomic bitmap.
* **Action cache.** `L1Table` is the open-addressing table, `Archive` the archive format and the append-only log,
  `ActionCache` any number of stores, restores, preloads and restarts of the process, the operations running side by
  side, `LastEntry` says in every run which store a hit gives, `LatestStore` when that is the latest, `StaleHit` how an
  older one comes back and `CacheProgress` that operations get done, `CacheDirectory` is the same as a class used by one
  caller at a time.
* **Incremental hasher.** `ChunkScanner` cuts a text into chunks, `ChunkGrammar` says where, by the literals, comments,
  directives and braces the text consists of, `MerkleTree` is the tree updated in place, `Hasher`
  reuses digests and patches the fingerprint, remembering where each digest was taken from, `FreeHashes` is a model of
  what is asked of the hashes, `StaleDigest` is a run in which the reuse goes wrong, `WorkerPool` the
  condition-variable protocol that hashes the changed chunks.
* **Preprocessor.** `LineScan` finds the lines with bit masks, `Expression` evaluates `#if` conditions,
  `ExpressionTrees` says how conditions are written and `ExpressionMeaning` what they mean, `Preprocessor` is the
  machine with its flat stack of conditionals, includes and cache, `Conditionals` what nested groups mean, `Directives`
  how each directive is written, `Sources` what a whole file of text, definitions and groups means on the macros alone.
* **Object writer.** `ElfSymbols` is the symbol table of the assembler, `ElfLayout` the pieces of an ELF64 relocatable
  object, `ElfWriter` the writer, `ElfReader` a reader after chapter 4 of the System V gABI, `ElfObject` the round trip.
* **Bare-metal layout.** `FlatLayout` places three sections in two regions and writes the image.
* `Graphs`, `Bytes` and `Wrappers` hold what several parts share: cycles, orders and counting of edges; little-endian
  numbers; values that may be absent.

Code that works step by step is modelled by methods with loops over arrays and class fields, each proved against a
function or a stated property; the concurrent parts are state machines whose runs are lists of states. Hashes, macro
expansion, path resolution and file contents are parameters, so the results hold for all of them. Promises that
the code does not keep on all inputs are stated with the condition under which it keeps them and a concrete input or
run for which it does not:

* The archive format: exactly for outputs that fit its fields (`Archive.RoundTripIffFits`, `Archive.RecordReadsBack`).
* A store under key zero leaves the other keys of the table alone exactly when it fits
  (`L1Table.ZeroStoreIsHarmlessIff`); one that does not hides exactly the keys beyond slot 15 (`L1Table.StoreThenLoad`,
  `L1Table.ZeroKeyHidesAnother`) and can so bring a replaced entry back (`L1Table.LoadIsLastOrNothing`,
  `L1Table.ZeroKeyBringsBack`).
* A hit gives the latest store exactly when that is the one whose archive the operation of the last entry had read
  (`LastEntry.HitIsLatestIff`; `LastEntry.ReadingDecides` and `LastEntry.ArchiveDecides` say what it gives in every
  case, `LastEntry.HitHasOrigin` that the cases are all). So it does if no store overlaps with that operation
  (`LatestStore.UndisturbedHit`, `LatestStore.HitIsLatest`); otherwise an older store can come back for good
  (`StaleHit.RestoreBringsBack`, `StaleHit.OverlapBringsBack`).
* The hash of an update is that of a new hasher exactly when every digest taken over was taken from the same bytes and
  the padding of the tree is not stale (`Hasher.Hasher.Update`, `Hasher.OwnIffTakenOverOwn`,
  `MerkleTree.Tree.HashTree`; `StaleDigest.ReuseStaleDigest`, `MerkleTree.StalePadding`).
* The flat image is the one wanted exactly when no empty section is misplaced (`FlatLayout.EmitsWanted`;
  `FlatLayout.EmptyTextFails`), and sections end below 2^32 exactly as `FlatLayout.EndsFitIff` and
  `FlatLayout.EndsAlwaysFitIff` say (`FlatLayout.TextEndsBeyondAddresses`).

`dafny verify dfyconfig.toml` checks the whole project.

## Model

| member | source | states |
|---|---|---|
| TopoSort.Sort | internal/builder/graph.go:117-199 | the order lists every node once and after all its dependencies; there is one exactly for graphs in range without a cycle, the cycle error exactly for those with one, the index error exactly for indices out of range, whatever the recycled arrays held |
| TopoSort.EnsureLength | internal/builder/graph.go:47-59 | a scratch array of at least the length asked for, the same array when it is long enough |
| TopoSort.BuildAdjacency | internal/builder/graph.go:150-159 | the counting sort leaves, for every node, its dependents with their multiplicity between its start and the next one's |
| TopoSort.EnqueueReady | internal/builder/graph.go:160-164 | the queue holds exactly the nodes that wait for nothing |
| TopoSort.Release | internal/builder/graph.go:177-185 | taking a node off lowers exactly its dependents, once for each edge, and queues those that reach zero |
| TopoSort.Drain | internal/builder/graph.go:171-186 | when the queue is empty the nodes not ordered all wait for another one not ordered |
| Graphs.OrderedIsAcyclic | internal/builder/graph.go:117-199 | a graph with an order has no cycle |
| Graphs.UnfinishedNodesHaveCycle | internal/builder/graph.go:117-199 | a finite set in which every member waits for a member contains a cycle, duplicate edges and self-edges included |
| Graphs.EveryEdgeHasItsPlace | internal/builder/graph.go:130-159 | the rows of the adjacency lists meet without gap or overlap: edges counted by dependency and by dependent agree |
| Remap.RemapDependencies | internal/builder/graph.go:201-217 | each row of the new graph is the sorted, renumbered row of the old one |
| Remap.SameEdges | internal/builder/graph.go:201-217 | the new graph is the old one with the nodes renamed, edge multiplicities included |
| Remap.DependenciesPointBack | internal/builder/graph.go:201-217 | along an order every dependency has a smaller number |
| Bitmap.NewWords | internal/utils/bitmap.go:24-33 | a new bitmap has a word for every bit and no bit set |
| Bitmap.SetAddsOne | internal/utils/bitmap_generic.go:37-49 | a successful swap adds one index and no other, across word borders |
| Bitmap.SetTwice | internal/utils/bitmap_generic.go:37-49 | a set bit is seen as set: nothing is written |
| DagSetup.Prepare | internal/builder/graph.go:219-247 | nil for no nodes, an error exactly for a graph that does not fit the nodes; otherwise counters and dependents are those of the graph |
| DagSteps.StepKeeps | internal/builder/graph.go:248-313 | every step of every task, of the start loop and of the wait keeps the invariant, the transient zero counters read without the lock included |
| DagSteps.RunKeeps | internal/builder/graph.go:219-313 | so the invariant holds in every run |
| DagTheorems.StartsOnceAndInOrder | internal/builder/graph.go:248-305 | in every interleaving a build starts only if it has not started before and all it needs is built |
| DagTheorems.StartOrder | internal/builder/graph.go:248-305 | the list of starts repeats no node and has each after its dependencies |
| DagTheorems.DependentsOfFailedNeverStart | internal/builder/graph.go:258-288 | no node that needs a failed one, through any path, ever starts |
| DagTheorems.WaitIsLongEnough | internal/builder/graph.go:253-306 | the wait group is empty only when every task and every recursive call has ended |
| DagTheorems.ResultIsRight | internal/builder/graph.go:306-312 | nil exactly when all nodes were built, the error of a build exactly when one failed, and otherwise the cycle error exactly for a cyclic graph |
| DagTheorems.NoDeadlock | internal/builder/graph.go:248-312 | until the builder returns some step is possible |
| DagTheorems.NothingAfterReturn | internal/builder/graph.go:307-312 | after the return nothing runs any more |
| DagFailure.FailureFreezes | internal/builder/graph.go:258-288 | in every interleaving, from the moment a failure is recorded no node is counted and no counter lowered any more, and every node started before or after had all it needs built and counted at that moment |
| DagFailure.FirstFailureIsReturned | internal/builder/graph.go:258-312 | the failure recorded first is that of the build that takes the lock with it; it is never replaced and is what the builder returns |
| DagFailure.EveryDependentIsVisited | internal/builder/graph.go:277-287 | a task that was built looks under the lock at every dependent before it ends, after a failure too |
| DagTermination.StepShrinks | internal/builder/graph.go:248-305 | each step creates a task, at most one for each node, or uses up work |
| DagTermination.EveryRunEnds | internal/builder/graph.go:219-313 | no infinite sequence of steps exists |
| L1Table.Cache.LoadEntry | internal/builder/action_cache.go:178-197 | the probe loop gives the entry of the first slot with the key among sixteen, stopping at an empty one |
| L1Table.Cache.StoreEntry | internal/builder/action_cache.go:199-238 | the probe loop writes one slot: that of the key, the first empty one, or the sixteenth |
| L1Table.SameKeyIff | internal/builder/action_cache.go:174-176 | two digests share a key, and so can shadow each other, exactly when their first eight bytes agree; of these the first weighs least |
| L1Table.OneSlotPerKey | internal/builder/action_cache.go:199-238 | after any stores a non-zero key is in at most one slot |
| L1Table.StoreKeepsSound | internal/builder/action_cache.go:199-238 | a store under a non-zero key leaves no key behind a hole of its probe sequence, wraparound included |
| L1Table.StoreThenLoad | internal/builder/action_cache.go:178-238 | the table is a map with eviction, for every key stored and every key asked for: the key stored is found, the key whose slot was taken is lost, one hidden by a forced store under key zero is not found, every other key keeps its entry; only the key asked for must be in its place |
| L1Table.LosingIsEviction | internal/builder/action_cache.go:199-238 | the entry overwritten is another non-zero key's exactly when all sixteen slots are taken by others and it is in the last |
| L1Table.StoreThenLoadZero | internal/builder/action_cache.go:178-238 | key zero, whatever the table went through: its last store is found until a store of another key ends in its slot |
| L1Table.StoreKeepsZeroSound | internal/builder/action_cache.go:199-238 | no store makes a second live entry of key zero |
| L1Table.LoadStored | internal/builder/action_cache.go:178-238 | in any table a look-up right after a store finds what was stored |
| L1Table.LoadIsLastOrNothing | internal/builder/action_cache.go:178-238 | after any calls a look-up gives the last entry stored for the key or nothing: for key zero always, for another if at its last store it was in no other slot, whatever was forced or hidden before or after |
| L1Table.UnhiddenIsStoredAlone | internal/builder/action_cache.go:178-238 | so it is for every key that no call hides, whatever it does to other keys; none is hidden if the calls under key zero fit |
| L1Table.ZeroStoreIsHarmlessIff | internal/builder/action_cache.go:199-238 | a store under key zero changes the look-up of no other key exactly when one of the first sixteen slots is empty or of key zero |
| L1Table.ForcedZeroStore | internal/builder/action_cache.go:199-238 | otherwise it hides exactly the keys that are tried at slot 15 on the way to their entry |
| L1Table.ZeroKeyHidesAnother | internal/builder/action_cache.go:174-238 | a key hidden by such a store while its entry is still in the table |
| L1Table.ZeroKeyBringsBack | internal/builder/action_cache.go:174-238 | after such a store two more stores make a look-up return an entry that had been replaced |
| Archive.WriteArchive | internal/builder/action_cache.go:414-470 | the file is the header and the outputs in the layout of the format |
| Archive.EncodedIs | internal/builder/action_cache.go:434-443 | the layout byte by byte: magic, version, digest, 16-bit count and 32-bit size in a header of 64 bytes, the outputs behind it |
| Archive.EntryIs | internal/builder/action_cache.go:450-465 | and of each output: the two lengths in 16 bytes, the name, the contents |
| Archive.Disk.RestoreOutputs | internal/builder/action_cache.go:382-412 | the moving position writes the outputs one by one; on a malformed archive those before the fault stay written |
| Archive.ArchiveReadsBack | internal/builder/action_cache.go:382-470 | reading a written archive gives its outputs back, as many as the 16-bit count still says, whatever follows |
| Archive.RoundTripIffFits | internal/builder/action_cache.go:382-470 | the round trip holds exactly for lists, names and contents that fit the 16- and 32-bit fields |
| Archive.RecordReadsBack | internal/builder/action_cache.go:342-364 | a record of the log decodes to its own outputs exactly when its size fits 32 bits, wherever it starts and whatever was appended later |
| Archive.RecordNeverLies | internal/builder/action_cache.go:342-364 | outputs of any size read from a record are those its archive gives, or the first of them if there is a fault; there is none if the outputs fit |
| ActionCache.RunKeeps | internal/builder/action_cache.go:122-148 | every offset and every archive an entry or a running operation knows stays valid in every interleaving |
| ActionCache.HitIsAnEarlierStore | internal/builder/action_cache.go:122-148 | in every run of interleaved stores, restores, preloads and restarts a hit has written what the archive of an earlier store under the very digest gives, the stored outputs if they fit, for all keys and outputs; before that at most the first outputs of a store under the digest that cannot be read back from its record |
| LastEntry.ReadingDecides | internal/builder/action_cache.go:79-148 | in every run, whatever overlaps, is preloaded or restarted, for a digest in no slot but one (see `LastEntry.UnhiddenIsSole`): a hit on an entry with an offset has written the outputs that were the latest when the operation that made the last entry of the digest read the archive; if these cannot be read back, the first of them and then what the archive of a later moment gave |
| LastEntry.ArchiveDecides | internal/builder/action_cache.go:342-380 | a hit on an entry without one has written what the archive of the latest store gave at a moment of the restore |
| LastEntry.HitIsLatestIff | internal/builder/action_cache.go:79-148 | so at any later moment the outputs written are those of the latest store exactly when the archive read for the last entry was |
| LastEntry.HitHasOrigin | internal/builder/action_cache.go:79-148 | every hit has its look-up, the last entry before it and, if that has an offset, the reading of the archive behind it |
| LastEntry.UnhiddenIsSole | internal/builder/action_cache.go:178-238 | in every run a digest is in no slot but the one a look-up finds, as long as no forced entry of key zero hides it |
| LatestStore.StepKeepsCoherent | internal/builder/action_cache.go:79-148 | when no store of a digest is under way, every entry of it points to the latest store; what stores and restores carry towards the table is the latest store |
| LatestStore.RunKeepsCoherent | internal/builder/action_cache.go:79-148 | so in every run in which stores of the digest do not overlap and its entry is not hidden |
| LatestStore.UndisturbedHit | internal/builder/action_cache.go:79-148 | a restore that looks up when no store of its digest has been under way at some earlier step has written a store that was the latest at that step or later, if no store of the digest ran between the reading and the entry of the operation that made the last entry; what overlapped before or after does not matter |
| LatestStore.HitIsLatestSince | internal/builder/action_cache.go:79-148 | so for a restore that begins when no store of its digest is under way, whatever preloads, restarts and operations on other digests do, in every run in which no two stores of the digest overlap, none runs while a restore of it is about to enter it again, and its entry is not hidden |
| LatestStore.HitIsLatest | internal/builder/action_cache.go:79-148 | so, if none is made meanwhile, those of the last store |
| StaleHit.RestoreBringsBack | internal/builder/action_cache.go:366-380 | a run of 18 steps: a restore reads the archive, a store runs from start to end, the restore enters the old archive again, and a later restore, begun with nothing under way, writes it |
| StaleHit.OverlapBringsBack | internal/builder/action_cache.go:601-620 | the same in 13 steps with two stores of the digest that overlap |
| CacheProgress.EnteredIsFound | internal/builder/action_cache.go:199-238 | right after the step that makes an entry a look-up finds it, with its offset one up |
| CacheProgress.StoreEnters | internal/builder/action_cache.go:601-620 | in every run a store that has ended has entered its digest |
| CacheProgress.PreloadEnters | internal/builder/action_cache.go:317-340 | a preload that has ended has entered every digest of its listing |
| CacheProgress.MissHasReason | internal/builder/action_cache.go:122-148 | a restore whose look-up finds nothing misses at once; one that finds an entry misses only if at some moment of it the archive was missing or unreadable |
| CacheDirectory.Directory.StoreSync | internal/builder/action_cache.go:601-620 | a store of any outputs makes them the latest under the digest and the digest known; a settled directory stays settled if the digest fits the table |
| CacheDirectory.Directory.RestoreFromSecond | internal/builder/action_cache.go:342-364 | at any offset what the record there gives is written, up to a fault |
| CacheDirectory.Directory.RestoreFromArchive | internal/builder/action_cache.go:366-380 | what the archive of the latest store gives is written, and entered again if there was no fault |
| CacheDirectory.Directory.Restore | internal/builder/action_cache.go:122-148 | a restore is no hit and writes nothing when the table does not know the digest; when it does, it writes what the record of the entry gives and after a fault what the archive of the latest store gives, and is a hit exactly when one of them has no fault; if the directory is settled or the key zero, and the latest outputs can come back, it is a hit and writes exactly these |
| CacheDirectory.Directory.Preload | internal/builder/action_cache.go:317-340 | entering a listing is that many stores in the table, keeps every promise and makes the last digest known |
| ChunkScanner.ScanRaw | internal/utils/boomboom.go:451-547 | the scanner loop yields the chunks of the byte-by-byte machine over strings, escapes, comments, directives and brace depth |
| ChunkScanner.RawChunksTile | internal/utils/boomboom.go:451-547 | for every text the raw chunks are non-empty, in order and tile the whole of it, each with the border its kind says |
| ChunkGrammar.RawChunksArePieces | internal/utils/boomboom.go:451-541 | for every text, written as literals with their escapes, comments, directive lines, braces, semicolons and single bytes, finished or broken off: the raw chunks end behind the semicolons outside of braces, behind the brace that closes the outermost one, and around directives, nowhere else |
| ChunkGrammar.EveryText | internal/utils/boomboom.go:451-541 | every sequence of bytes is such a text |
| ChunkGrammar.RawChunksFollowItems | internal/utils/boomboom.go:451-541 | so that describes the raw chunks of every sequence of bytes |
| ChunkScanner.TrimAll | internal/utils/boomboom.go:542-568 | each chunk loses its outer white space in place |
| ChunkScanner.Compact | internal/utils/boomboom.go:570-578 | the chunks left non-empty move to the front of the same array, in order |
| ChunkScanner.ChunksAreSound | internal/utils/boomboom.go:451-578 | the final chunks are ordered, disjoint and in bounds, each a trimmed raw chunk, and every byte outside them is white space |
| ChunkScanner.Scan | internal/utils/boomboom.go:451-578 | scanning, trimming and compacting give those chunks |
| MerkleTree.ConsistentIsNode | internal/utils/boomboom.go:330-359 | a tree whose inner nodes are the pair hashes of their children holds the recursive value at every node |
| MerkleTree.Tree.FixPath | internal/utils/boomboom.go:341-354 | recomputing the path above one leaf makes every inner node right again |
| MerkleTree.Tree.Rebuild | internal/utils/boomboom.go:313-334 | a rebuild has the digests and copies of the last one as leaves, and every inner node is right |
| MerkleTree.Tree.HashTree | internal/utils/boomboom.go:303-359 | after every call all real leaves are the digests and the root is that of the leaves; the leaves are those of a rebuild exactly when at most one is padding or the last digest is the one the padding was filled with |
| MerkleTree.PaddedRoot | internal/utils/boomboom.go:311-332 | the root of a rebuild is that of a tree by halves, left before right, over the digests and copies of the last one up to the next power of two |
| MerkleTree.EqualRootsEqualLeaves | internal/utils/boomboom.go:303-359 | with a pair hash free of collisions equal roots mean equal leaves, so the root is that of a rebuild exactly under the same condition |
| MerkleTree.StalePadding | internal/utils/boomboom.go:339-345 | five digests of which the last changes: the root is not that of a rebuild |
| Hasher.FoldUpdate | internal/utils/boomboom.go:165-169 | taking the old digest out and the new one in is folding anew |
| Hasher.FoldIsParity | internal/utils/boomboom.go:361-367 | a bit of the fingerprint is set exactly when an odd number of the digests, each imprinted at its index, have it set |
| Hasher.Hasher.Grow | internal/utils/boomboom.go:580-589 | room for the slots, and exactly when slots given up before are shown again |
| Hasher.MatchesIffUnchanged | internal/utils/boomboom.go:143-147 | a slot matches exactly when its chunk has the same span and kind and no byte of the span has changed; a chunk that only moved does not match |
| Hasher.Hasher.FindChanged | internal/utils/boomboom.go:143-151 | a digest is taken over exactly when place, length, kind and bytes match |
| Hasher.Hasher.PatchFingerprint | internal/utils/boomboom.go:165-169 | after patching, the fingerprint is the fold over all digests and indices |
| Hasher.Hasher.FoldFingerprint | internal/utils/boomboom.go:361-367 | the fold over all digests and indices |
| Hasher.Hasher.TakenHasOrigin | internal/utils/boomboom.go:143-151 | the digest a chunk gets is the hash of what the model remembers as its origin: that of the slot if it matches, the chunk otherwise |
| Hasher.OwnIffTakenOverOwn | internal/utils/boomboom.go:143-151 | after an update every digest comes from its own chunk exactly when every slot taken over was taken from the bytes of the chunk |
| Hasher.FreshIffOwn | internal/utils/boomboom.go:143-151 | without collisions of the leaf hash digests are fresh exactly when each comes from its own chunk |
| Hasher.SameHashIffSameChunks | internal/utils/boomboom.go:128-183 | without collisions two texts of as many chunks have the same hash exactly when their chunks have the same bytes and kinds; the white space between them does not matter |
| Hasher.Hasher.Digest | internal/utils/boomboom.go:136-172 | each digest is the one of its slot or a fresh one and has the origin recorded; the fingerprint, patched or folded anew, is their fold |
| Hasher.Hasher.Update | internal/utils/boomboom.go:128-183 | in every run of updates spans, fingerprint and root belong to the text; the new origins follow from the old ones; with a leaf hash free of collisions the digests are those of a new hasher exactly when each comes from its own chunk. If each does, and the pair hash has no collisions, the hash is that of a new hasher exactly when the padding is not stale; in general, if no two lists of leaves give the same hash, exactly when both hold. While no given-up slot has come back, each digest comes from its own chunk |
| Hasher.Hasher.RootIsScratchIff | internal/utils/boomboom.go:128-183 | the last of these at every moment between updates |
| Hasher.Hasher.OwnRootIsScratchIff | internal/utils/boomboom.go:303-359 | at every moment, if each digest comes from its own chunk: the root is that of a new hasher exactly when the padding is not stale |
| Hasher.XorMixKeepsRoot | internal/utils/boomboom.go:331-333 | a mix that XORs the finished fingerprint into one word of the root, as the program does, never makes two roots equal |
| FreeHashes.FreeSuits | internal/utils/boomboom.go:303-359 | all that is asked of the hashes can hold at once, with such a mix |
| StaleDigest.TwoStatements | internal/utils/boomboom.go:451-578 | two statements of letters are two chunks |
| StaleDigest.GiveUpSecond | internal/utils/boomboom.go:580-589 | a text with fewer chunks leaves the slots given up as they were |
| StaleDigest.ShowSecond | internal/utils/boomboom.go:143-151 | a slot shown again gives its old digest if it matches |
| StaleDigest.ReuseStaleDigest | internal/utils/boomboom.go:128-183 | three updates after which the hasher holds a digest that is not the hash of its chunk, as for the texts `a;b;`, `axc;`, `a;c;` |
| Hasher.StaleSlotMatches | internal/utils/boomboom.go:143-149 | a slot that was given up can match in place and bytes and still carry the digest of other bytes |
| WorkerPool.StepKeeps | internal/utils/boomboom.go:217-301 | every step of the caller and of any number of workers keeps the counters, the sleepers and the digests right |
| WorkerPool.ReturnIsSequential | internal/utils/boomboom.go:232-249 | when the caller returns, every job is done, nobody holds one, and the digests are those of the sequential loop |
| WorkerPool.TakenAtMostOnce | internal/utils/boomboom.go:276-288 | no job of a batch is taken twice |
| WorkerPool.EveryJobTaken | internal/utils/boomboom.go:276-288 | at the return every job of the batch was taken, by exactly one step |
| WorkerPool.CallerWritesAlone | internal/utils/boomboom.go:222-233 | while the caller fills the job list or is outside the wait, no worker, however late, can take or hold a job |
| WorkerPool.NoDeadlock | internal/utils/boomboom.go:240-298 | inside a call someone can always step, no wake-up is lost, and no index is out of range |
| WorkerPool.CallEnds | internal/utils/boomboom.go:217-301 | between two calls only finitely many steps are possible, whatever the scheduling |
| LineScan.ClearLowest | internal/fzp/scanner.go:52-56 | a word combined with itself minus one loses its lowest set bit and nothing else |
| LineScan.DecrementIsMinusOne | internal/fzp/scanner.go:55 | the borrow on the bits is subtracting one |
| LineScan.TakeOffsets | internal/fzp/scanner.go:51-56 | the bit loop appends exactly the newline positions of the block, in order, without 16-bit overflow |
| LineScan.ScanBlocks | internal/fzp/scanner.go:28-59 | masks and newline offsets of all blocks there is data and room for |
| LineScan.NewlinesAreAll | internal/fzp/scanner.go:28-59 | the offsets are all the newlines, each once, increasing |
| LineScan.LinesAreText | internal/fzp/processor.go:122-161 | the lines with their newlines are the text, an empty last line dropped |
| LineScan.LinesHaveNoNewline | internal/fzp/processor.go:122-161 | no line contains a newline |
| Preprocessor.Processor.ProcessText | internal/fzp/processor.go:115-167 | batches, blocks and tail give exactly the lines of the newline split, in order, each processed once, and their output joined by newlines |
| Preprocessor.NewlineFound | internal/fzp/processor.go:130-137 | between two offsets of a batch the text has no newline |
| Preprocessor.Processor.ProcessSourceLine | internal/fzp/processor.go:170-195 | the effect of one line on macros, conditionals and output |
| Preprocessor.Processor.HandleDirective | internal/fzp/processor.go:240-374 | the effect of one directive, `#error` and unknown ones regardless of the conditionals, included text dropped |
| Preprocessor.Processor.HandleConditional | internal/fzp/processor.go:300-366 | the effect of one conditional on the flat stack; every `#if` is evaluated, also in skipped text |
| Preprocessor.Processor.Process | internal/fzp/processor.go:93-168 | includes end on every file system, entries of the include stack stay distinct, and however a file ends, by success, error or zero divisor, include stack and conditionals are those from before |
| Preprocessor.Processor.IsInStack | internal/fzp/processor.go:427-434 | true exactly for the files on the stack |
| Preprocessor.RoomShrinks | internal/fzp/processor.go:93-121 | entering a file leaves fewer that can be entered |
| Directives.WrittenIsRead | internal/fzp/processor.go:240-374 | every directive, spelled out with its keyword and arguments, blanks around it, is read as that directive; text keeps its blanks |
| Sources.LinesMeanTree | internal/fzp/processor.go:170-382 | for every tree of text, `#define`, `#undef`, system includes, unknown directives, `#error` and groups of `#ifdef`, `#ifndef`, `#if`, `#elif`, `#else`: reading the written lines emits what the tree emits, leaves the macros it leaves and ends as it ends, where a tree runs the first part of a group whose test holds and skips the others |
| Sources.FileMeansTree | internal/fzp/processor.go:93-168 | so does a file of these lines |
| Sources.IncludeMeansTree | internal/fzp/processor.go:276-297 | an included file leaves the macros its tree leaves, and no text; a skipped `#include` does nothing |
| Sources.IncludeWithoutReading | internal/fzp/processor.go:93-112 | an `#include` that cannot be read, or whose file is on the include stack, cached or not, fails and changes nothing; one without a path or with a cached file does nothing |
| Sources.SecondTimeIsCached | internal/fzp/processor.go:104-108 | a file read before under the same key gives its text from the cache and makes no definitions |
| Conditionals.FlatIsNested | internal/fzp/processor.go:300-382 | on every properly nested block, at any depth and with anything behind it, the flat stack machine emits, defines, fails and stops exactly as reading the first true branch of each group does, and restores the stack |
| Conditionals.FlatIsBranches | internal/fzp/processor.go:328-366 | the same for the branches of a group: while none was taken the next true one is, repeated `#else` and late `#elif` included |
| Conditionals.NestedFile | internal/fzp/processor.go:93-168 | a file of nested lines does what its tree means and leaves no conditional open |
| Conditionals.StackStaysGood | internal/fzp/processor.go:300-366 | on the stack every group knows whether all groups around it are active, and is active only on the branch taken |
| Conditionals.LinesKeepStackGood | internal/fzp/processor.go:300-366 | so it is after any lines, nested or not |
| Conditionals.EmitsIfAllActive | internal/fzp/processor.go:376-382 | text is emitted exactly when every enclosing group is active |
| Conditionals.OneBranchOnly | internal/fzp/processor.go:300-382 | of the branches of a group at most one is ever active: two moments at which the group is open and active lie in the same branch, whatever lines come between |
| Expression.Tokenizer.Next | internal/fzp/lexer.go:46-128 | the next token and where it ends; other bytes are skipped |
| Expression.NoLogicTokens | internal/fzp/lexer.go:77-106 | no text yields a token `&&` or `\|\|` |
| Expression.Wrap | internal/fzp/lexer.go:213-244 | 64-bit wraparound: in range and congruent |
| Expression.Parser.ParseOr | internal/fzp/lexer.go:157-164 | the value and position of a chain of `\|\|`, the right side unread when the left decides; the position never falls |
| Expression.Parser.ParseAnd | internal/fzp/lexer.go:166-173 | the same for `&&` |
| Expression.Parser.ParseCompare | internal/fzp/lexer.go:175-211 | comparisons, left to right |
| Expression.Parser.ParseAdd | internal/fzp/lexer.go:213-225 | sums and differences, left to right |
| Expression.Parser.ParseMul | internal/fzp/lexer.go:227-244 | products, quotients and remainders, left to right, as `ExpressionMeaning.ApplyCombines` says what they are; a zero divisor is a panic |
| Expression.Parser.ParseUnary | internal/fzp/lexer.go:246-260 | prefix operators, innermost first |
| Expression.Parser.ParsePrimary | internal/fzp/lexer.go:262-313 | numbers, names, `defined`, parentheses; malformed text counts as 0 |
| Expression.EvaluateText | internal/fzp/lexer.go:136-155 | the evaluator ends on every text |
| ExpressionTrees.ReadPrint | internal/fzp/lexer.go:149-313 | a tree written at any level, followed by anything that binds no tighter, is read as that tree |
| ExpressionMeaning.ApplyCombines | internal/fzp/lexer.go:157-244 | each operator computes what it should: sums, differences and products modulo 2^64, quotient and remainder with `a == b * q + r`, the remainder smaller than the divisor and of the sign of `a`, comparisons 0 or 1, a zero divisor a panic |
| ExpressionMeaning.QuotientDivides | internal/fzp/lexer.go:235-241 | the quotient rounds towards zero, and with its remainder gives back the dividend |
| ExpressionMeaning.NameStands | internal/fzp/lexer.go:290-303 | a name is worth the number in decimal its macro spells, with a sign and blanks around it, if that fits 64 bits, 1 for any other text, 0 for none |
| ExpressionMeaning.MeansOnce | internal/fzp/lexer.go:149-313 | a tree has one value |
| ExpressionMeaning.TokensMeanTree | internal/fzp/lexer.go:149-313 | on the tokens of a tree the evaluator consumes all of them and returns the value of the tree, or panics exactly for a zero divisor in it |
| ExpressionMeaning.TextMeansTree | internal/fzp/lexer.go:46-313 | from text to value: evaluating a written tree, with blanks anywhere or only where tokens would run together, gives the value of the tree |
| ElfSymbols.Assembler.AddSymbol | internal/assembler/emitter.go:659-678 | a definition replaces place and value, `global` sticks, a reference changes nothing, a full table is an error |
| ElfSymbols.Assembler.FindSymbol | internal/assembler/emitter.go:680-687 | the first symbol of the name |
| ElfSymbols.EnteredKeeps | internal/assembler/emitter.go:659-687 | names stay distinct and every index keeps its name, so recorded relocations keep their symbols |
| ElfSymbols.TableMeans | internal/assembler/emitter.go:623-687 | after any labels, `global` lines and jumps: every name mentioned is in the table once, unless that is full; a symbol is global exactly if there was a `global` line for it, and has place and section of its last label, whatever referred to it since, or is undefined without one |
| ElfSymbols.Assembler.DefineLabel | internal/assembler/emitter.go:623-628 | a label gets the current offset and section |
| ElfSymbols.Assembler.DefineGlobal | internal/assembler/emitter.go:630-635 | a global declaration defines nothing |
| ElfSymbols.Assembler.EmitJump | internal/assembler/x86.go:573-632 | the relocation of a jump is recorded against the symbol of its label, at the place of the distance |
| ElfLayout.PlanIsSound | internal/assembler/emitter.go:783-976 | header, sections, tables, section headers and relocations are disjoint, in order, aligned and inside the file |
| ElfWriter.AlignOut | internal/assembler/bytesutil.go:189-212 | zeros up to the next multiple |
| ElfWriter.UpTo64IsUp | internal/assembler/bytesutil.go:214-223 | for 64 the mask and the remainder give the same offset |
| ElfWriter.WriteAt | internal/assembler/emitter.go:1042-1063 | a number over its bytes, low byte first, and no other byte |
| ElfWriter.AppendNumber | internal/assembler/bytesutil.go:288-303 | a number behind the others |
| Bytes.PutAt | internal/assembler/emitter.go:1042-1063 | byte k of a number written has the weight 256 to the k |
| ElfWriter.WriteSymbol | internal/assembler/emitter.go:1065-1072 | the six fields of a symbol entry |
| ElfWriter.WriteSection | internal/assembler/emitter.go:1010-1024 | the ten fields of a section header |
| ElfWriter.WriteFileHeader | internal/assembler/emitter.go:1083-1113 | the fields of the file header |
| ElfWriter.WriteNames | internal/assembler/emitter.go:846-852 | the string table, and each symbol the place of its name, modulo 32 bits |
| ElfWriter.WriteSymbols | internal/assembler/emitter.go:853-873 | the null entry, the locals, the others, over whatever the pooled buffer held |
| ElfWriter.NumberSymbols | internal/assembler/emitter.go:928-943 | each symbol its place in the table just written |
| ElfWriter.WriteRelas | internal/assembler/emitter.go:944-967 | the entries of the `.text` relocations, none when there are none |
| ElfWriter.OffsetOfName | internal/assembler/emitter.go:1162-1172 | where a section name first occurs |
| ElfWriter.SectionHeaders | internal/assembler/emitter.go:1147-1160 | the eight section headers, `sh_info` one above the locals |
| ElfWriter.Emit | internal/assembler/emitter.go:783-976 | every piece stands where the plan says; only name offsets of symbols change |
| ElfReader.EntriesAreRead | internal/assembler/emitter.go:846-873 | the symbols are read back with their names, locals first |
| ElfReader.RelasAreRead | internal/assembler/emitter.go:956-965 | the relocations are read back, signed addends included |
| ElfReader.SectionNamesAreRead | internal/assembler/emitter.go:1162-1172 | the first occurrence of each of the seven section names is the name itself |
| ElfReader.ObjectIsRead | internal/assembler/emitter.go:783-976 | a reader of the gABI, which checks identification, version and header sizes, the null section and the types of the sections it uses, the names among them, and goes from `.text` to the relocations that apply to it, by their link to the symbol table and by its link to the strings, recovers every field of both headers, the bytes of the sections, the symbols with all their fields and the relocations |
| ElfObject.WrittenIsRead | internal/assembler/emitter.go:783-976 | what `Emit` writes is read back, for every assembler state that fits the fields |
| ElfObject.EmitAndRead | internal/assembler/emitter.go:783-976 | the object read from the file `Emit` writes has all header fields as the gABI wants them, the eight sections, aligned, every symbol once, the locals first, and every relocation of `.text` naming the very symbol it was recorded against |
| ElfObject.SectionsAreRead | internal/assembler/emitter.go:1147-1160 | all eight sections with names as the gABI spells them, types, flags, addresses, sizes, links, alignments and entry sizes |
| ElfObject.TextRelocsAre | internal/assembler/emitter.go:944-967 | the relocations written are exactly those of section 1, in their order |
| ElfObject.RelocationNamesItsSymbol | internal/assembler/emitter.go:928-965 | the entry a relocation names is the very symbol it was recorded against |
| ElfObject.LocalsFirst | internal/assembler/emitter.go:988-996 | `sh_info` separates the local symbols from the others |
| FlatLayout.LayoutPlaces | internal/linker/flat_layout.go:70-118 | a layout that is made has text at flash, data at RAM and bss right behind, with their names and permissions, all 4-aligned, long enough, and inside their regions when not empty |
| FlatLayout.LayoutIsMadeIff | internal/linker/flat_layout.go:70-118 | a layout is made exactly when both regions are aligned, text rounded up fits flash, data fits RAM, bss fits what data leaves and begins below 2^32; regions not aligned are the one error, too little room the other |
| FlatLayout.EndsFitIff | internal/linker/flat_layout.go:70-118 | its sections end below 2^32 exactly when the sizes asked for do, counted from the beginnings of their regions |
| FlatLayout.EndsAlwaysFitIff | internal/linker/flat_layout.go:70-118 | whatever is placed in two aligned regions ends below 2^32 exactly when neither region reaches four bytes beyond |
| FlatLayout.TextEndsBeyondAddresses | internal/linker/flat_layout.go:70-226 | a layout that is made and emitted as wanted although its text ends above 2^32 |
| FlatLayout.Collect | internal/linker/flat_layout.go:165-186 | the sections that begin in the region, each as often as it occurs, in the order of their addresses |
| FlatLayout.RegionOutputSize | internal/linker/flat_layout.go:188-206 | the size, or the first overlap or overflow |
| FlatLayout.SizeIsOkIff | internal/linker/flat_layout.go:188-206 | a region has a size exactly when each section lies in it behind the one before, and then it reaches to the end of the last; otherwise the first that does not decides between overlap and overflow |
| FlatLayout.WriteRegionOutput | internal/linker/flat_layout.go:208-226 | gaps, contents and padding of the sections, in bounds, and nothing else |
| FlatLayout.EmitFlatBinary | internal/linker/flat_layout.go:120-163 | the image is the lower region's and then the higher's |
| FlatLayout.EmitsWanted | internal/linker/flat_layout.go:70-226 | for regions without a common address a layout that was made is emitted as text, data and bss, each zero-padded to its length, the lower region first, exactly when no empty section of an empty region lies in the other region away from its section borders |
| FlatLayout.EmittingNeverFails | internal/linker/flat_layout.go:70-226 | so with two regions that are not empty emitting never fails |
| FlatLayout.EmptyTextFails | internal/linker/flat_layout.go:165-206 | an empty text for an empty flash inside RAM: the layout is made, the image is not the one wanted |

## Left out

- Machine words are lists of bits and Go's `int` is unbounded outside the `#if` evaluator, the 16-, 32- and 64-bit fields of the formats and the 32-bit addresses of the layout, where width, wraparound and truncation are modelled.
- Assembly kernels: only the generic Go versions are modelled. The hashes themselves (`HashBB64`, `expandBB64Seed`, SHA-256, blake3) are parameters.
- The worker pool of the builder (`fo.Pool`) is a choice at every submission: the task runs later, or is refused and run by the caller. Context cancellation is not modelled.
- `sort.Ints` is modelled by an insertion sort; both give the same list.
- Timestamps, temporary files, file modes, memory maps, io_uring, I/O errors and process execution: files are maps from path to bytes, and one cache directory is used throughout.
- `actionCacheKey` and the background store queue: digests are given.
- Hasher.Hasher.Update: that the conditions are also necessary is for hashes without collisions, which real ones of 256 bits can only approach; that they suffice needs no such assumption.
- Hasher.Hasher.HashChanged: the sequential loop stands for both ways of hashing; that the worker pool gives the same digests is `WorkerPool.ReturnIsSequential`.
- WorkerPool.StepKeeps: a section under the mutex is one step, the batch counter does not wrap at 64 bits, and `Close` is not modelled. Wake-ups come from broadcasts only.
- White space beyond ASCII in lines and directives; the order in which include directories are tried, which Go leaves open, is a parameter, and so are `expandMacros`, path resolution and the cache key. What a cache hit omits, the definitions of the file, is modelled as the code has it.
- Preprocessor.Processor.ProcessText: the scratch arrays of the scanner are allocated for each batch.
- LineScan.ScanBlocks: at most 2048 blocks at a time, as offsets have 16 bits; the caller passes 64.
- The dead branches of the tokenizer for `&` and `|` are left out; the parser's loops for `&&` and `||` are modelled.
- ELF32 objects: `alignOutOffset` with 40 is no alignment there. Instruction encoding is reduced to jumps to a label, and relocations outside `.text`, which the writer drops, are dropped here too.
- ElfWriter.Emit: the capacity of the pooled buffer is not modelled.
- ElfObject.WrittenIsRead: names with zero bytes and string tables beyond 32 bits cannot be read back and are excluded.
- FlatLayout.EmitFlatBinary: sections whose bytes exceed their length are excluded; `NewNakedMemoryLayout`, the only place layouts come from, makes none.
- Configuration, linker command lines, network, shell, user interface, name tables and string helpers.
