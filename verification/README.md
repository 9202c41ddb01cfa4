# SIREngine control-plane verification

Dafny models of the stateful core of SIREngine, with proofs of what that core promises: the global
resource graph (lock-free readers, epoch reclamation, dependency relation, invalidation, planning,
shared chunks and derived representations), the bounded multi-producer multi-consumer queue, the audio
manifest and package loader, the streaming control plane, the resource catalog, and the audio system
with its voice backend. Check everything with `dafny verify dfyconfig.toml`.

How the pieces are modelled:

- **Concurrent code** is a step machine with one atomic operation per step, any number of threads and any
  interleaving: `AudioQueue` (claim, write and publish steps of pushes and pops) and `EpochProtocol`
  (scope entry and exit, index probes, slot loads, pins, publication, retirement, collection). The
  theorems are about every legal run from every initial state; `EpochProgress` adds what a thread that is left
  alone achieves from any reachable state.
- **Single-threaded code that updates state in place** is a class over arrays and fields, each method
  proved against a specification stated on values, and the promises proved about that specification:
  `ReadKeyIndex.Index`, `ReverseEdges.Pool`, `InvalidationJournal.Journal`, `ResourceGraph.Writer`,
  `DependencyPlanner.Planner`, `TaskPlan.TaskCompiler`, `ChunkStore.ChunkStore`,
  `DerivedRegistry.Registry`, `Catalog.ResourceCatalog`, `AudioManifest.PackageSearch`,
  `PackageLoader.Loader`, the coordinator, bridge and reconciler of the `Streaming...` modules,
  `VoiceBackend.VoiceBackend` and `AudioSystem.AudioSystem`.
- **Three classes put such parts together**, so that what one part expects of another is a theorem and not
  an assumption: `ResourcePublication.Publisher` (the writer, the chunk store and the list of
  retired records: publication, replacement, eviction, requests, retirement and collection),
  `StreamingControl.ControlPlane` (a coordinator, its bridge and the reconcilers of any number of
  consumers) and `AudioPlayback.Playback` (the audio system, its command queues and the voice backend).
- **Shared theory** sits in modules of its own: `Digraph` (paths, reachability, acyclicity), `DepthFirst`
  (the iterative three-state search that the dependency planner, the manifest check and the package
  planner all run), `DependencySearch` and `DependentMarking` (the two breadth-first searches over
  stamped slots), `LoadOrder`, `PackageLeases`, `ChunkAccounts`, `ChunkDrafts`,
  `ChunkVerdicts`, `ChunkAdoption`, `PayloadOwnership` (which slot publishes which chunk record, and which
  records wait to be freed), `Generations` (a slot whose generation counts on while it is handed out and
  given back), `PlaybackScene` (what a moment of audio playback looks like from outside).
- **Whole runs** of the streaming control plane are sequences of steps in `StreamingRuns` and of steps and
  reconciliations in `StreamingControl`; the methods of `StreamingControl.ControlPlane` say which of them
  each call takes. `HandleRuns` is about sequences of states that lead from one to the next by the
  operations of the graph writer, the staging table, the pin table and the derived registry.
- **Methods and their specifications are separate.** The checks and updates of a method are written out in
  its body; the functions its contract names are ghost, and what they amount to is stated in terms of the
  fields by further clauses and lemmas.

What comes from outside (the allocator's answers, the growth of a hash map, bank store and native
calls, provider answers, queue room) is a parameter of the operation that meets it, so every theorem
holds for every sequence of such answers.

Two guards of the code, and what each is for:

- Rechecking the publication epoch when a read scope is entered is not needed for the safety of readers
  when atomics are sequentially consistent (`EpochProtocol.NothingFreedIsReadUnchecked`); what it buys is
  that a scope that has been entered never holds back records retired before
  (`EpochProtocol.EnteredScopeIsFresh`).
- The queue refuses a capacity below two, as it documents. That is necessary: with one slot a value can be overwritten
  before it is popped (`AudioQueue.OneSlotRingLosesAValue`).

## Model

| member | source | states |
|---|---|---|
| AudioQueue.PoppedIsPushed | Source/Audio/SIRAudioQueue.h:114-162 | in every interleaving of any number of producers and consumers, the value popped at a position is the value pushed there, no position is popped twice, and claimed positions differ by at most the capacity |
| AudioQueue.OwnersUseDifferentSlots | Source/Audio/SIRAudioQueue.h:114-162 | two threads between claiming and releasing never share a slot, so no value is written while another thread reads or writes it |
| AudioQueue.QuiescentConservation | Source/Audio/SIRAudioQueue.h:114-162 | when all calls have returned, exactly the claimed positions have been handed out and the slots hold the rest in order |
| AudioQueue.StepRefinesQueue | Source/Audio/SIRAudioQueue.h:114-162 | every atomic step either appends to a bounded FIFO, removes its head, or leaves it alone |
| AudioQueue.PushFailsExactly | Source/Audio/SIRAudioQueue.h:115-137 | a push gives up if and only if the ring is full at its position or the previous round's consumer has not released the slot yet |
| AudioQueue.PopFailsExactly | Source/Audio/SIRAudioQueue.h:140-162 | a pop gives up if and only if the queue is empty at its position or the producer there has not published yet |
| AudioQueue.PushAlone | Source/Audio/SIRAudioQueue.h:114-137 | from any reachable state, a push that is left alone succeeds if there is room at its position, and appends its value |
| AudioQueue.PopAlone | Source/Audio/SIRAudioQueue.h:139-162 | a pop that is left alone succeeds if a value has been published at its position, and hands out the oldest |
| AudioQueue.OneSlotRingLosesAValue | Source/Audio/SIRAudioQueue.h:74-97 | a run that shows why capacity one is refused: the second push overwrites a value nobody has popped |
| AudioQueue.RunKeepsInv | Source/Audio/SIRAudioQueue.h:114-162 | the sequence-number invariant holds in every reachable state |
| ReadKeyIndex.Index.constructor | Source/Resources/SIRResourceGraph.cpp:206-209 | an empty table is a valid one |
| ReadKeyIndex.Index.Update | Source/Resources/SIRResourceGraph.cpp:477-512 | a store or removal changes the key-to-record map at that key only, reuses tombstones, and moves no other key's cell |
| ReadKeyIndex.Index.Find | Source/Resources/SIRResourceGraph.cpp:1440-1462 | probing through tombstones answers exactly as the key-to-record map does |
| ReadKeyIndex.Index.Locate | Source/Resources/SIRResourceGraph.cpp:477-509 | the probe ends at the key's own cell or, for a new key, at a cell before which its path meets live records only: the first tombstone or, without one, the never-used cell that ends the path |
| ReadKeyIndex.ExhaustedProbeMetTombstone | Source/Resources/SIRResourceGraph.cpp:477-512 | a probe of every cell without success has met a tombstone unless the table is full of live keys |
| ReadKeyIndex.SuitableCellExists | Source/Resources/SIRResourceGraph.cpp:477-512 | a table with room, even one without a never-used cell, has a cell for any key |
| ReadKeyIndex.StoreKeepsValid | Source/Resources/SIRResourceGraph.cpp:492-509 | storing into the located cell keeps every key's probe path unbroken |
| EpochProtocol.NothingFreedIsRead | Source/Resources/SIRResourceGraph.cpp:1355-1433 | in no interleaving does a reader or a pin name a record that has been destroyed |
| EpochProtocol.HeldRecordSurvives | Source/Resources/SIRResourceGraph.cpp:1355-1433 | a record an active scope has obtained stays allocated and unchanged until that scope is left |
| EpochProtocol.PinnedRecordSurvives | Source/Resources/SIRResourceGraph.cpp:1500-1536 | a pinned record stays allocated and unchanged until that pin is released, also after the scope it was taken in is gone |
| EpochProtocol.RunKeepsInv | Source/Resources/SIRResourceGraph.cpp:447-512 | the exposure, retirement and epoch invariant holds in every reachable state |
| EpochProtocol.FindOfIndexedKeySucceeds | Source/Resources/SIRResourceGraph.cpp:1440-1462 | a key indexed throughout a concurrent lookup is found, and reported under that key, whatever is published, replaced and retired meanwhile |
| EpochProtocol.IndexedKeyIsFound | Source/Resources/SIRResourceGraph.cpp:1440-1462 | the same from any point of a lookup on: it never ends without reporting a record of that key |
| EpochProtocol.LoadedMatchIsIndexed | Source/Resources/SIRResourceGraph.cpp:1440-1462 | a record found by key was the indexed record of that key at the moment its cell was loaded |
| EpochProtocol.FoundWasIndexed | Source/Resources/SIRResourceGraph.cpp:1440-1462 | in every run: when a lookup of a key has ended in success, the handle it reports was that of the record indexed under this very key at the moment its cell was loaded, within the same call |
| EpochProtocol.AbsentKeyIsNotFound | Source/Resources/SIRResourceGraph.cpp:1440-1462 | a key that is not indexed from the beginning of a lookup on is not found by it, whatever keys share its probe path |
| EpochProtocol.ResolvedWasPublished | Source/Resources/SIRResourceGraph.cpp:1464-1480 | a handle that resolves named the record its slot published at a moment within that call; one that is refused named none at such a moment |
| EpochProtocol.HeldIsAnnounced | Source/Resources/SIRResourceGraph.cpp:1359-1380 | a retired record that an active scope holds was retired no earlier than some announced epoch |
| EpochProtocol.WriterFindsCell | Source/Resources/SIRResourceGraph.cpp:477-512 | the writer's next index update always has a cell to go to, so the abort at its end is unreachable |
| EpochProtocol.IndexAgreesWithSlots | Source/Resources/SIRResourceGraph.cpp:457-512 | between publications the index maps a key to exactly the record some slot publishes under it |
| EpochProtocol.CompleteSweepLeavesProtected | Source/Resources/SIRResourceGraph.cpp:1355-1388 | a sweep that was not cut short leaves only pinned records and those an announced epoch still protects |
| EpochProtocol.EnteredScopeIsFresh | Source/Resources/SIRResourceGraph.cpp:1395-1424 | a scope becomes active only with an epoch later than every record retired before it |
| EpochProgress.TurnedAwayMetAllTaken | Source/Resources/SIRResourceGraph.cpp:1401-1428 | a scope is turned away only after it has met every reader word taken, in that same attempt |
| EpochProgress.RetriesOnlyAfterAdvance | Source/Resources/SIRResourceGraph.cpp:1409-1416 | a scope that has announced its epoch becomes active unless the writer has advanced since the scope loaded it |
| EpochProgress.BeginnerGetsIn | Source/Resources/SIRResourceGraph.cpp:1395-1424 | in any state with a vacant reader word, a scope that begins to enter and is left alone becomes active on the first such word with the present epoch |
| EpochProgress.OwnerGetsIn | Source/Resources/SIRResourceGraph.cpp:1409-1416 | so does a scope that is anywhere on its way in with a word of its own, whatever the writer has done meanwhile |
| EpochProgress.LookupEnds | Source/Resources/SIRResourceGraph.cpp:1440-1462 | a lookup that is left alone ends, with an answer about its own key, after at most one probe of each cell |
| EpochProgress.PublicationCompletes | Source/Resources/SIRResourceGraph.cpp:457-475 | a publication that has begun runs to its end: the slot publishes the new record, the index names it under its key, the record it replaced is on the retired list under the epoch of before, and the epoch has advanced |
| EpochProgress.CollectionCompletes | Source/Resources/SIRResourceGraph.cpp:1355-1388 | a collection that may visit every retired record and starts while no scope is entering runs to its end, and frees exactly the retired records that no pin names and that were retired before every announced epoch |
| EpochProtocol.NothingFreedIsReadUnchecked | Source/Resources/SIRResourceGraph.cpp:1395-1424 | readers are as safe if scopes become active without the recheck, in any mixture with scopes that do recheck |
| ReverseEdges.EveryCellHasOnePlace | Source/Resources/SIRResourceGraph.cpp:526-577 | a pool cell is free and in no chain, or in exactly one bucket chain and exactly one source chain |
| ReverseEdges.AddKeepsPool | Source/Resources/SIRResourceGraph.cpp:558-577 | linking one edge keeps free list, bucket chains (both directions) and source chains well formed |
| ReverseEdges.RemoveKeepsPool | Source/Resources/SIRResourceGraph.cpp:535-556 | unlinking one edge keeps them well formed |
| ReverseEdges.BucketListsDependents | Source/Resources/SIRResourceGraph.cpp:590-612 | the bucket chain of a key holds an edge from a slot if and only if that slot depends on the key |
| ReverseEdges.Pool.constructor | Source/Resources/SIRResourceGraph.cpp:211-216 | a fresh pool has every cell free and no edges |
| ReverseEdges.Pool.CanReplace | Source/Resources/SIRResourceGraph.cpp:526-533 | true exactly if the source's old edges make room for the new ones |
| ReverseEdges.Pool.Remove | Source/Resources/SIRResourceGraph.cpp:535-556 | all edges of one source go and no other source's edges change |
| ReverseEdges.Pool.Add | Source/Resources/SIRResourceGraph.cpp:558-577 | the source's edges become exactly the given targets; within the admitted count the free list never runs out |
| InvalidationJournal.Journal.Append | Source/Resources/SIRResourceGraph.cpp:613-624 | one event is added to the history under the next number |
| InvalidationJournal.Journal.Poll | Source/Resources/SIRResourceGraph.cpp:668-695 | polling from a cursor gives exactly the events after it, in order, up to the returned cursor, or reports that some were overwritten |
| ResourceRecords.RelationAfterPublish | Source/Resources/SIRResourceGraph.cpp:1232-1249 | publishing a key replaces that key's targets in the dependency relation and nothing else |
| DependencySearch.SearchExhausted | Source/Resources/SIRResourceGraph.cpp:1018-1054 | a stamped search that runs dry without meeting the goal proves there is no dependency path |
| ResourceGraph.Writer.ReachesKey | Source/Resources/SIRResourceGraph.cpp:1018-1054 | the answer is true exactly if a dependency path exists, over keys that need not be resident |
| ResourceGraph.Writer.AdvanceStamp | Source/Resources/SIRResourceGraph.cpp:1023-1029 | after starting a traversal no slot carries its stamp, also when the stamp wraps |
| ResourceGraph.Writer.ValidateDependencies | Source/Resources/SIRResourceGraph.cpp:1056-1071 | the verdict is that of the first faulty edge: malformed, missing, or closing a cycle |
| ResourceGraph.AdmissionIsExact | Source/Resources/SIRResourceGraph.cpp:1056-1071 | an accepted edge set leaves the relation acyclic, and one refused as cyclic would not have |
| ResourceGraph.Writer.Admit | Source/Resources/SIRResourceGraph.cpp:1187-1214 | the checks of a publication change nothing and name the slot it will take |
| ResourceGraph.Writer.Publish | Source/Resources/SIRResourceGraph.cpp:1181-1251 | a refused publication leaves records, index, edges, generations, invalidation marks and journal as they were; a successful one installs exactly one new record and tells exactly the dependents |
| ResourceGraph.PublicationKeepsAcyclic | Source/Resources/SIRResourceGraph.cpp:1181-1251 | after every publication the dependency relation, edges to absent keys included, is the old one with this key's targets replaced, and acyclic |
| ResourceGraph.PublicationShows | Source/Resources/SIRResourceGraph.cpp:1211-1249 | after a publication the named slot, and no other, shows what was published: a resident key under its handle of before with the next revision, a new one under the slot's next handle with revision one |
| ResourceGraph.Writer.Retire | Source/Resources/SIRResourceGraph.cpp:1336-1353 | a live handle's key and outgoing edges go, edges to it stay, its dependents are told; a stale handle changes nothing |
| ResourceGraph.Writer.MarkFailed | Source/Resources/SIRResourceGraph.cpp:1315-1334 | only a resource that is not resident is replaced by a failed record; all other cases change nothing |
| ResourceGraph.Writer.Request | Source/Resources/SIRResourceGraph.cpp:895-928 | a resident key answers with its handle and changes nothing; a new one gets the first empty slot and its next generation |
| Generations.SpentUntilWrapped | Source/Resources/SIRResourceGraph.cpp:125-128 | a handle that a slot has handed out and taken back is held in no later state, unless the slot's 32-bit generation has wrapped in between |
| HandleRuns.ResourceHandleIsSpent | Source/Resources/SIRResourceGraph.cpp:1187-1353 | over any sequence of publications, requests, failures, evictions and retirements: a resource handle that was live and then was not is live in no later state until its slot's generation has wrapped |
| HandleRuns.StagingHandleIsSpent | Source/Resources/SIRResourceGraph.cpp:930-983 | so it is for staging handles that are handed out, cancelled and handed over |
| HandleRuns.PinHandleIsSpent | Source/Resources/SIRResourceGraph.cpp:1500-1536 | and for pins that are taken and released |
| HandleRuns.RepresentationHandleIsSpent | Source/Resources/SIRResourceDerivedRegistry.cpp:39-42 | and for derived representations that are registered, retired and collected |
| ResourceGraph.Writer.InvalidateReverseDependents | Source/Resources/SIRResourceGraph.cpp:579-626 | exactly the live resources with a dependency path to the changed key get the new change sequence and one journal event each; the queue stays within the slot count |
| ResourceGraph.Writer.constructor | Source/Resources/SIRResourceGraph.cpp:139-227 | an empty graph is consistent |
| DependentMarking.MarkingComplete | Source/Resources/SIRResourceGraph.cpp:579-626 | when the queue is worked off, a slot is stamped if and only if it depends on the changed key |
| DepthFirst.ListIsClosure | Source/Resources/SIRResourceGraph.cpp:718-757 | the iterative search over an explicit stack lists exactly what its root reaches, each node once and after all it leads to |
| DepthFirst.BackEdgeIsCycle | Source/Audio/SIRAudioResources.cpp:132-195 | an edge back onto the stack is a cycle |
| DepthFirst.FullListIsAcyclic | Source/Audio/SIRAudioResources.cpp:132-195 | when every node has been listed there is no cycle |
| DepthFirst.VisitedFit | Source/Audio/SIRAudioResources.cpp:132-195 | stack and list together never exceed the number of nodes |
| DependencyPlanner.SlotReachIsKeyReach | Source/Resources/SIRResourceGraph.cpp:697-773 | walking slots is walking keys: slot reachability is dependency reachability between resident keys |
| DependencyPlanner.Planner.CompileDependencyOrder | Source/Resources/SIRResourceGraph.cpp:697-773 | it terminates and lists exactly the live resources the root depends on, each once, each after all its live dependencies, the root last; it fails exactly if something required is missing; it never reports a cycle |
| TaskPlan.TaskCompiler.FindPrerequisites | Source/Resources/SIRResourceGraph.cpp:836-856 | a pass gets one prerequisite for each dependency whose target is resident, in edge order: the pass of that target's slot; every such pass is there and earlier, so neither error exit of the lookup is taken |
| TaskPlan.TaskCompiler.CompileTaskGraph | Source/Resources/SIRResourceGraph.cpp:795-864 | there is one pass for each planned resource; its prerequisites are, one by one and in edge order, the passes of its resident dependencies, all of them earlier |
| TaskPlan.WaitsExactly | Source/Resources/SIRResourceGraph.cpp:836-856 | a pass waits for another if and only if the resource of the one has a dependency on the resident resource of the other |
| ChunkAccounts.RetainKeepsCount | Source/Resources/SIRResourceGraph.cpp:1150 | one more reference keeps every count equal to the number of entries naming the block |
| ChunkAccounts.NewKeepsCount | Source/Resources/SIRResourceGraph.cpp:1144-1150 | so does a new block with its first reference, and the payload total grows by its size |
| ChunkAccounts.DropKeepsCount | Source/Resources/SIRResourceGraph.cpp:424-441 | so does one reference less, with the block removed at the last one |
| ChunkDrafts.FindMatching | Source/Resources/SIRResourceGraph.cpp:985-1016 | the search finds a block with the wanted content unless there is none or the key alone is ambiguous between different bytes |
| ChunkVerdicts.CreatesIfNeeded | Source/Resources/SIRResourceGraph.cpp:1100-1116 | a chunk gets a block of its own exactly if its staged bytes are in no shared block and in no block an earlier chunk of the publication needs |
| ChunkVerdicts.RefusalIsInputFault | Source/Resources/SIRResourceGraph.cpp:1073-1100 | what is wrong with a chunk's input is told by the inputs and the state before the publication alone |
| ChunkVerdicts.PreparedIsFault | Source/Resources/SIRResourceGraph.cpp:1073-1126 | preparing the next chunk ends as the inputs say: input fault, header refused at the total committed by then, logical size, or success |
| ChunkVerdicts.FirstFaultIsFirst | Source/Resources/SIRResourceGraph.cpp:1218-1224 | a publication's chunks all pass if and only if none has a fault; otherwise the first faulty one decides |
| ChunkAdoption.AdoptCreated | Source/Resources/SIRResourceGraph.cpp:1139-1158 | adopting a created chunk keeps counts exact and the list free of blocks an older one could have held |
| ChunkAdoption.AdoptShared | Source/Resources/SIRResourceGraph.cpp:1139-1158 | adopting a chunk that shares a block does too, and leaves all contents as they were |
| ChunkStore.ChunkStore.constructor | Source/Resources/SIRResourceGraph.cpp:139-227 | a fresh store accounts for exactly what the graph itself committed |
| ChunkStore.ChunkStore.Allocate | Source/Resources/SIRResourceGraph.cpp:316-331 | committed bytes never pass the counter's width or the configured limit |
| ChunkStore.ChunkStore.AllocateStaging | Source/Resources/SIRResourceGraph.cpp:930-958 | the first free slot is handed out under a new generation, or nothing changes |
| ChunkStore.PowersOfTwo | Source/Resources/SIRResourceGraph.cpp:120-123 | the alignment check accepts exactly the powers of two |
| ChunkStore.ChunkStore.CancelStaging | Source/Resources/SIRResourceGraph.cpp:969-983 | only the current handle of an occupied slot frees it, and exactly its bytes come back |
| ChunkStore.ChunkStore.PrepareChunk | Source/Resources/SIRResourceGraph.cpp:1073-1126 | a prepared chunk answers its input with the very bytes staged or with unambiguous shared content; the result is exact: the first failing input check, out of budget if and only if a header is needed and not granted at the committed total, invalid if and only if the logical size overflows |
| ChunkStore.ChunkStore.Abandon | Source/Resources/SIRResourceGraph.cpp:1128-1137 | a refused record gives back exactly what it had allocated |
| ChunkStore.ChunkStore.Adopt | Source/Resources/SIRResourceGraph.cpp:1139-1158 | a finished record's blocks are all shared and counted, and existing blocks keep their contents |
| ChunkStore.ChunkStore.Publish | Source/Resources/SIRResourceGraph.cpp:1218-1244 | the result is exactly what the inputs, the committed total and the allocator's answers determine; a publication either succeeds as a whole, every entry backed by the staged or named content and exactly the handed-over staging slots freed, or leaves records, staging, blocks and byte totals as they were |
| ChunkStore.ChunkStore.SucceedsExactly | Source/Resources/SIRResourceGraph.cpp:1218-1244 | publishing succeeds if and only if the record's own allocation is granted, no chunk has a fault and the key goes into the index |
| ResourcePublication.Publisher.Publish | Source/Resources/SIRResourceGraph.cpp:1181-1251 | over writer and chunks together: the first failing check decides; a refused publication leaves every published record, the relation, the journal, every staging slot, block and byte total as it was; a successful one happens on both sides |
| ResourcePublication.Publisher.PublishExpected | Source/Resources/SIRResourceGraph.cpp:1160-1179 | a publication over a revision other than the current one is refused as stale and changes nothing; a successful one makes the revision one more than expected |
| ResourcePublication.RevisionCountsOn | Source/Resources/SIRResourceGraph.cpp:1213-1217 | a publication counts the revision under its key on by one |
| ResourcePublication.Publisher.constructor | Source/Resources/SIRResourceGraph.cpp:139-227 | a graph that publishes nothing has no record and nothing to free |
| ResourcePublication.Publisher.PublishedIsBacked | Source/Resources/SIRResourceGraph.cpp:447-475 | in every state the chunks of a published record are there, whatever has been replaced, retired and collected |
| ResourcePublication.Publisher.MarkFailed | Source/Resources/SIRResourceGraph.cpp:1315-1334 | over both sides: the first failing check decides and a refusal changes nothing; otherwise the resource that is not resident has the next revision under the same handle, failed, with all its chunks shared, its dependents have been told and the old record waits to be freed |
| ResourcePublication.Publisher.EvictChunk | Source/Resources/SIRResourceGraph.cpp:1290-1313 | over both sides: exact result; a refusal changes neither; otherwise the same handle has the next revision without the first chunk of that identity, requested exactly if it was the last one, all other chunks shared, exactly the dependents told, and the old record waits to be freed |
| ResourcePublication.SupersedingKeepsRelation | Source/Resources/SIRResourceGraph.cpp:1253-1313 | a failed or evicted resource keeps its handle, key and dependencies: index and relation are what they were, and the revision is one more |
| ResourcePublication.Publisher.Request | Source/Resources/SIRResourceGraph.cpp:895-928 | over both sides: a resident key answers with its handle and changes nothing; a new one gets the first empty slot with a record without chunks, if that is granted |
| ResourcePublication.Publisher.Retire | Source/Resources/SIRResourceGraph.cpp:1336-1353 | a live handle's slot publishes nothing any more and its record waits to be freed under the current epoch; the store is untouched; a stale handle changes nothing |
| ResourcePublication.Publisher.CollectRetired | Source/Resources/SIRResourceGraph.cpp:1355-1393 | none is freed while a reader is entering; otherwise, of the visited records, exactly those are freed that carry no pin and were retired before every epoch a reader announces; what stays is still in the store, and no block that another record names goes |
| ResourcePublication.Publisher.ScanReaders | Source/Resources/SIRResourceGraph.cpp:1359-1371 | the scan of the reader words tells whether one is entering and which announced epoch is the oldest |
| ResourcePublication.HeldStillWaits | Source/Resources/SIRResourceGraph.cpp:1355-1388 | in whatever state of the concurrent machine the reader words are read: a retired record that an active scope holds, or that is pinned, still waits after the collection |
| PayloadOwnership.ReplacingKeepsOwned | Source/Resources/SIRResourceGraph.cpp:447-475 | when a slot publishes a new record, the store's records are still exactly those published and those waiting to be freed |
| PayloadOwnership.WithdrawingKeepsOwned | Source/Resources/SIRResourceGraph.cpp:447-475 | so they are when a slot publishes nothing any more |
| PayloadOwnership.FreeingKeepsOwned | Source/Resources/SIRResourceGraph.cpp:418-445 | and when a waiting record is freed |
| PayloadOwnership.FreeingKeepsOrder | Source/Resources/SIRResourceGraph.cpp:1374-1387 | the list stays in the order of retirement, latest first, no epoch twice |
| PayloadOwnership.SurvivesExactly | Source/Resources/SIRResourceGraph.cpp:1374-1387 | of the retired records a collection visits, one stays if and only if it is pinned or its epoch is not before the oldest announced one; those it does not visit all stay |
| ChunkStore.ChunkStore.BuildReplacement | Source/Resources/SIRResourceGraph.cpp:1253-1288 | the replacement shares all the blocks it keeps and copies none |
| ChunkStore.ChunkStore.EvictChunk | Source/Resources/SIRResourceGraph.cpp:1290-1313 | the first entry with the identity is left out, unless there is none or the smaller record is not granted; the old record keeps its references |
| ChunkStore.ChunkStore.Destroy | Source/Resources/SIRResourceGraph.cpp:418-445 | freeing a record drops its references and with them the blocks nobody else names; everything other records name stays, and all totals stay sums |
| DerivedRegistry.FreeingKeepsSound | Source/Resources/SIRResourceDerivedRegistry.cpp:243-277 | freeing one representation releases its own pin only, and no native side is released twice |
| DerivedRegistry.AddingKeepsSound | Source/Resources/SIRResourceDerivedRegistry.cpp:168-241 | a new representation gets a pin of its own and counts nothing a second time |
| DerivedRegistry.ReleaseKeepsSoundExactly | Source/Resources/SIRResourceGraph.cpp:1522-1536 | another client's release of a pin on the shared table leaves the registry sound if and only if no representation holds that pin |
| DerivedRegistry.OtherPinKeepsSound | Source/Resources/SIRResourceGraph.cpp:1500-1520 | a pin that another client takes in a free slot of the shared table leaves the registry sound |
| DerivedRegistry.SumChange | Source/Resources/SIRResourceDerivedRegistry.cpp:229-237 | every total follows one slot's change |
| DerivedRegistry.Registry.constructor | Source/Resources/SIRResourceDerivedRegistry.cpp:57-83 | an empty registry keeps all totals at zero |
| DerivedRegistry.Registry.RegisterProvider | Source/Resources/SIRResourceDerivedRegistry.cpp:141-166 | provider identities are unique and answer for all their lanes |
| DerivedRegistry.Registry.RegisterRepresentation | Source/Resources/SIRResourceDerivedRegistry.cpp:168-241 | success pins the source record, under a key and a native token that no other representation of the provider has, and adds its bytes to totals that stay within their limits; any refusal, told by the first failing check, changes nothing |
| DerivedRegistry.Registry.CollectProvider | Source/Resources/SIRResourceDerivedRegistry.cpp:243-277 | exactly the retiring representations whose lanes have arrived and whose native side lets go are freed, each native side once; it never fails on a pin |
| DerivedRegistry.FreedExactly | Source/Resources/SIRResourceDerivedRegistry.cpp:248-275 | a collection frees exactly the retiring representations of the provider's present generation whose every named lane has reached its value and whose native side lets go; no other one changes |
| DerivedRegistry.Registry.RetireRepresentation | Source/Resources/SIRResourceDerivedRegistry.cpp:279-311 | a live handle with a well-formed requirement of its own provider starts to retire, and what is due is collected at once if and only if the lanes have arrived, each native side that lets go being released once |
| DerivedRegistry.Registry.UpdateProviderCompletion | Source/Resources/SIRResourceDerivedRegistry.cpp:313-343 | every named lane takes the observed value and no other changes; a snapshot that would take a lane back is refused as a whole |
| DerivedRegistry.PinTable.Pin | Source/Resources/SIRResourceGraph.cpp:1500-1520 | the first free pin slot holds the record under a new generation |
| DerivedRegistry.PinTable.Release | Source/Resources/SIRResourceGraph.cpp:1522-1536 | only the current handle releases a pin |
| LoadOrder.LinkKeepsAcyclic | Source/Resources/SIRResourceCatalog.cpp:115-145 | a new link keeps the relation acyclic if and only if its target does not reach its owner |
| LoadOrder.OrderIsUnique | Source/Resources/SIRResourceCatalog.cpp:150-213 | the load order depends on the ids and links only, not on the order in which they were added |
| LoadOrder.SmallestFirstIsLeast | Source/Resources/SIRResourceCatalog.cpp:150-213 | no dependency-first order of the ids is lexicographically smaller |
| LoadOrder.SmallestFirstIsComplete | Source/Resources/SIRResourceCatalog.cpp:150-213 | an order of full length lists every id after everything it links to |
| LoadOrder.SomethingIsReady | Source/Resources/SIRResourceCatalog.cpp:150-213 | while the relation is acyclic some id is always ready, so the cycle exit is not taken |
| Catalog.ResourceCatalog.AddResource | Source/Resources/SIRResourceCatalog.cpp:66-87 | ids stay distinct; any refusal changes nothing |
| Catalog.ResourceCatalog.CanReach | Source/Resources/SIRResourceCatalog.cpp:89-113 | the search over an explicit stack answers exactly whether links lead from one entry to the other |
| Catalog.ResourceCatalog.AddDependency | Source/Resources/SIRResourceCatalog.cpp:115-145 | a well-formed new link is accepted if and only if the relation stays acyclic, so every reachable catalog is |
| Catalog.ResourceCatalog.BuildLoadOrder | Source/Resources/SIRResourceCatalog.cpp:150-213 | it never reports a cycle and writes the smallest dependency-first order, or nothing if the output is too short |
| AudioManifest.ValidatePackages | Source/Audio/SIRAudioResources.cpp:83-124 | the record checks pass exactly the tables with sorted ids, tight dependency ranges and known, distinct dependencies; a bad table gets the code of its first fault, records before dependencies |
| AudioManifest.SoundHeadsAreOk | Source/Audio/SIRAudioResources.cpp:83-104 | checking each record against its neighbour and the dependencies used so far accepts exactly the tables that are sorted and tight as a whole |
| AudioManifest.FindPackageIndex | Source/Audio/SIRAudioResources.cpp:56-81 | the binary search finds an id if and only if it is there |
| AudioManifest.PackageSearch.Validate | Source/Audio/SIRAudioResources.cpp:132-195 | a table that passed the record checks is refused if and only if its dependencies have a cycle; stack and frames stay within the package count |
| PackageLeases.RetainKeepsSound | Source/Audio/FMOD/SIRFMODPackageLoader.cpp:396-404 | a bank kept after its dependencies keeps the load order closed, duplicate free and dependency first |
| PackageLeases.DropKeepsSound | Source/Audio/FMOD/SIRFMODPackageLoader.cpp:453-484 | an unleased bank behind which only leased ones follow can go |
| PackageLeases.AcquireKeepsSound | Source/Audio/FMOD/SIRFMODPackageLoader.cpp:431-439 | a lease counted on its closure keeps each count equal to the number of leases that reach the package |
| PackageLeases.ReleaseKeepsSound | Source/Audio/FMOD/SIRFMODPackageLoader.cpp:486-517 | so does giving one back |
| PackageLeases.LeaseHoldsClosure | Source/Audio/FMOD/SIRFMODPackageLoader.cpp:358-440 | everything a leased root reaches is counted, resident and listed |
| PackageLoader.Loader.constructor | Source/Audio/FMOD/SIRFMODPackageLoader.cpp:120-179 | a loader over a checked manifest starts with nothing held |
| PackageLoader.Loader.BuildPlan | Source/Audio/FMOD/SIRFMODPackageLoader.cpp:47-88 | on an accepted manifest it always succeeds and returns exactly the root's dependency closure, without repeats, dependencies first |
| PackageLoader.Loader.RollbackTo | Source/Audio/FMOD/SIRFMODPackageLoader.cpp:187-202 | undoing in reverse order restores load order, states and counts exactly, or stops at the first bank that will not unload with everything still consistent |
| PackageLoader.Loader.LoadPackage | Source/Audio/FMOD/SIRFMODPackageLoader.cpp:358-440 | success adds one lease and exactly the missing banks, each of them taken by the bank store and with its samples if they were asked for; it fails if and only if something stands in the way of a package of the closure, and then with an error met there, or with that of the unload at which the rollback got stuck; failure with a working rollback changes nothing |
| PackageLoader.Loader.CollectUnused | Source/Audio/FMOD/SIRFMODPackageLoader.cpp:453-484 | only unleased banks go, last first; on success none is left, and it fails only with the answer of an unleased bank that will not unload |
| PackageLoader.Loader.ReleasePackage | Source/Audio/FMOD/SIRFMODPackageLoader.cpp:486-517 | one lease goes and its closure's counts with it; no count was zero before; a refusal says why and changes nothing |
| PackageLoader.Loader.BeginLoadPackage | Source/Audio/FMOD/SIRFMODPackageLoader.cpp:225-262 | a step-by-step load starts with nothing changed, and starts if and only if nothing stands in the way |
| PackageLoader.Loader.PollLoadPackage | Source/Audio/FMOD/SIRFMODPackageLoader.cpp:264-343 | each poll makes progress if the bank store cooperates; a poll that meets a refused or missing path, a refused or quarantined begin, a failed load or failed samples fails with exactly that error, or stays pending with it if the rollback is stuck, and no other poll fails; the last one takes the lease as the synchronous load would; a failed load ends with what was held before it |
| PackageLoader.Loader.FinishLoading | Source/Audio/FMOD/SIRFMODPackageLoader.cpp:264-343 | a load that is polled again and again while nothing goes wrong succeeds after at most two polls for each package of its plan |
| PackageLoader.Loader.FailAsync | Source/Audio/FMOD/SIRFMODPackageLoader.cpp:214-223 | a failure is final only once everything added has been undone |
| PackageLoader.Loader.CancelLoadPackage | Source/Audio/FMOD/SIRFMODPackageLoader.cpp:345-351 | cancelling restores what was held before the load, or keeps it pending as cancelled |
| PackageLoader.Loader.UnloadAll | Source/Audio/FMOD/SIRFMODPackageLoader.cpp:519-538 | success leaves nothing loaded and nothing pending; it fails only with the answer of the last bank that will not unload, or as busy |
| StreamingCoordinator.Coordinator.constructor | Source/Streaming/SIRStreamingCoordinator.cpp:56-78 | a fresh coordinator has issued nothing |
| StreamingCoordinator.Coordinator.Submit | Source/Streaming/SIRStreamingCoordinator.cpp:106-142 | a valid demand that no slot holds takes the first usable slot; the ticket was never issued before |
| StreamingCoordinator.Coordinator.UpdateDemand | Source/Streaming/SIRStreamingCoordinator.cpp:144-170 | a refresh can neither revive a cancelled demand, nor demote an active one, nor go back in epochs |
| StreamingCoordinator.Coordinator.Advance | Source/Streaming/SIRStreamingCoordinator.cpp:210-251 | only current tickets move, along the allowed stages only |
| StreamingCoordinator.Coordinator.Cancel | Source/Streaming/SIRStreamingCoordinator.cpp:253-269 | queued demand is given up at once, running work only marked |
| StreamingBridge.DueIsNew | Source/Streaming/SIRStreamingProviderBridge.cpp:130-192 | work offered to the provider was never accepted for that ticket before, and accepting it keeps stages and outstanding work in step |
| StreamingBridge.StagesTellOutstandingWork | Source/Streaming/SIRStreamingProviderBridge.cpp:110-310 | preparation is outstanding exactly while preparing, activation only while prepared, retirement exactly while retiring |
| StreamingBridge.AcknowledgeKeepsJoint | Source/Streaming/SIRStreamingProviderBridge.cpp:220-310 | an acknowledgement of outstanding work keeps the two sides in step |
| StreamingBridge.TurnsAreIndependent | Source/Streaming/SIRStreamingProviderBridge.cpp:194-218 | in one round each visited slot ends as if its turn had been the only one; no slot has two |
| StreamingBridge.TurnsKeepJoint | Source/Streaming/SIRStreamingProviderBridge.cpp:194-218 | pumping loses no ticket and only adds accepted work |
| StreamingBridge.Bridge.constructor | Source/Streaming/SIRStreamingProviderBridge.cpp:40-76 | a bridge over a coordinator without running work starts in step |
| StreamingBridge.Bridge.BeginRetirement | Source/Streaming/SIRStreamingProviderBridge.cpp:110-128 | retirement is offered only while no other work is outstanding |
| StreamingBridge.Bridge.ProcessSlot | Source/Streaming/SIRStreamingProviderBridge.cpp:130-192 | a turn offers exactly the work that is due and changes nothing if it is refused |
| StreamingBridge.Bridge.Pump | Source/Streaming/SIRStreamingProviderBridge.cpp:194-218 | as many turns as asked for, going round from the cursor, each slot at most once |
| StreamingBridge.Bridge.AcknowledgePrepared | Source/Streaming/SIRStreamingProviderBridge.cpp:220-244 | only outstanding preparation of a known ticket is acknowledged; anything else changes nothing |
| StreamingBridge.Bridge.AcknowledgeActivated | Source/Streaming/SIRStreamingProviderBridge.cpp:246-285 | a finished activation becomes active only if still wanted, and otherwise leads to retirement |
| StreamingBridge.Bridge.AcknowledgeRetired | Source/Streaming/SIRStreamingProviderBridge.cpp:287-310 | the slot is free and its ticket spent |
| StreamingRuns.RunsStayInStep | Source/Streaming/SIRStreamingProviderBridge.cpp:110-310 | in every run stages and outstanding work agree, and no prepare, activation or retirement is accepted twice for a ticket |
| StreamingRuns.RetirementIsAlone | Source/Streaming/SIRStreamingProviderBridge.cpp:110-128 | a retirement is accepted only while nothing else is outstanding for its slot |
| StreamingRuns.BegunWorkIsRetired | Source/Streaming/SIRStreamingProviderBridge.cpp:287-310 | in every run, work that was begun and is no longer held was retired, by an answer that is in the run |
| StreamingRuns.NeverReissued | Source/Streaming/SIRStreamingCoordinator.cpp:92-142 | no later submission hands out a ticket that was held before |
| StreamingRuns.TurnsAreVisits | Source/Streaming/SIRStreamingProviderBridge.cpp:194-218 | pumping is a run of visits, from the cursor round |
| StreamingRuns.StepKeepsSlotsOk | Source/Streaming/SIRStreamingCoordinator.cpp:92-269 | every step of client, bridge or provider keeps the coordinator's slots well formed, requests distinct and tickets unrepeatable |
| StreamingReconciler.OneToOne | Source/Streaming/SIRStreamingDemandReconciler.cpp:318-349 | entries and the consumer's coordinator slots correspond one to one |
| StreamingReconciler.OthersKeepTracks | Source/Streaming/SIRStreamingDemandReconciler.cpp:102-115 | after anything foreign to a consumer its entries still track its slots, within the epoch of its last reconciliation |
| StreamingControl.StepIsForeign | Source/Streaming/SIRStreamingProviderBridge.cpp:110-310 | bridge turns, the provider's answers, cancellation by anybody and the demands of other consumers are foreign to a consumer |
| StreamingControl.CallsKeepReady | Source/Streaming/SIRStreamingDemandReconciler.cpp:318-349 | what one consumer's reconciliation asks of the coordinator leaves every other consumer ready for its next one |
| StreamingControl.EveryStateIsSane | Source/Streaming/SIRStreamingDemandReconciler.cpp:318-349 | reconciliations of any consumers, interleaved in any way with bridge turns, provider answers and other clients: in every reachable state the bridge is in step and each consumer's entries track its slots within its last epoch |
| StreamingControl.BehaviourIsRun | Source/Streaming/SIRStreamingProviderBridge.cpp:110-310 | every such run takes coordinator and bridge through a run of single steps, so what is proved of those holds with reconcilers too |
| StreamingReconciler.FreshIsSettled | Source/Streaming/SIRStreamingDemandReconciler.cpp:211-265 | once the wanted is refreshed and the unwanted cancelled, every entry holds exactly what is wanted now or only winds down |
| StreamingReconciler.AdmissionExtends | Source/Streaming/SIRStreamingDemandReconciler.cpp:267-316 | admitting in priority order keeps the admitted demands a prefix of that order |
| StreamingReconciler.Reconciler.ValidateSet | Source/Streaming/SIRStreamingDemandReconciler.cpp:176-209 | exactly the reconcilable sets pass |
| StreamingReconciler.Reconciler.SelectNext | Source/Streaming/SIRStreamingDemandReconciler.cpp:272-283 | the next demand is the one of highest priority, earliest in the input among equals, after the previous one |
| StreamingReconciler.Reconciler.Reconcile | Source/Streaming/SIRStreamingDemandReconciler.cpp:318-349 | a refused set changes nothing; otherwise submitted, updated and deferred add up to the demands; of two untracked demands the one admitted alone has the higher priority or, at the same priority, the earlier place; none is deferred while there is room; a tracked demand that can be refreshed is refreshed and keeps its ticket; every entry then holds its wanted demand or a cancelled ticket, and the coordinator has only had calls for this consumer |
| StreamingControl.ControlPlane.constructor | Source/Streaming/SIRStreamingCoordinator.cpp:56-78 | a fresh control plane is sane |
| StreamingControl.ControlPlane.Add | Source/Streaming/SIRStreamingDemandReconciler.cpp:55-84 | a new consumer without tickets joins |
| StreamingControl.ControlPlane.Reconcile | Source/Streaming/SIRStreamingDemandReconciler.cpp:318-349 | reconciling one consumer is a move of the run, whatever has happened since its last reconciliation |
| StreamingControl.ControlPlane.Pump | Source/Streaming/SIRStreamingProviderBridge.cpp:194-218 | pumping takes a run of visits |
| StreamingControl.ControlPlane.AcknowledgePrepared | Source/Streaming/SIRStreamingProviderBridge.cpp:220-244 | the answer to a preparation takes its step |
| StreamingControl.ControlPlane.AcknowledgeActivated | Source/Streaming/SIRStreamingProviderBridge.cpp:246-285 | so does the answer to an activation |
| StreamingControl.ControlPlane.AcknowledgeRetired | Source/Streaming/SIRStreamingProviderBridge.cpp:287-310 | and that to a retirement |
| StreamingControl.ControlPlane.Submit | Source/Streaming/SIRStreamingCoordinator.cpp:106-142 | submitting takes its step |
| StreamingControl.ControlPlane.UpdateDemand | Source/Streaming/SIRStreamingCoordinator.cpp:144-170 | so does refreshing |
| StreamingControl.ControlPlane.Cancel | Source/Streaming/SIRStreamingCoordinator.cpp:253-269 | and cancelling |
| VoiceBackend.StartKeepsOrder | Source/Audio/FMOD/SIRFMODVoiceBackend.cpp:643-652 | starting keeps the record stream orderly: no play starts or ends twice or ends before it starts |
| VoiceBackend.EndKeepsOrder | Source/Audio/FMOD/SIRFMODVoiceBackend.cpp:766-776 | so does ending, and a play is under way exactly while one voice holds it |
| VoiceBackend.VoiceBackend.constructor | Source/Audio/FMOD/SIRFMODVoiceBackend.cpp:84-186 | an empty ring with no credits |
| VoiceBackend.VoiceBackend.WriteCompletion | Source/Audio/FMOD/SIRFMODVoiceBackend.cpp:400-409 | a record goes to the end of the stream; every call finds room, so the aborts on a full ring are unreachable |
| VoiceBackend.VoiceBackend.Play | Source/Audio/FMOD/SIRFMODVoiceBackend.cpp:557-653 | a voice starts only with room for both its records, and any failure on the way writes nothing and holds no credit, whatever handle is given, and leaves an instance behind only if the native side would not release it; the records stay orderly unless a handle that was started before is started again |
| VoiceBackend.VoiceBackend.Stop | Source/Audio/FMOD/SIRFMODVoiceBackend.cpp:654-708 | a stop is asked once of a live voice and decides which last record it will write |
| VoiceBackend.VoiceBackend.PollVoices | Source/Audio/FMOD/SIRFMODVoiceBackend.cpp:744-778 | each ended voice that can be released writes exactly its last record, paid by its own credit |
| VoiceBackend.VoiceBackend.Drain | Source/Audio/FMOD/SIRFMODVoiceBackend.cpp:728-742 | records leave in the order they were written, none lost or repeated |
| AudioSystem.VacantIsUnneeded | Source/Audio/SIRAudioSystem.cpp:402-441 | an emitter that is free or being released is needed by no voice that has neither ended nor failed |
| AudioSystem.VoiceBegins | Source/Audio/SIRAudioSystem.cpp:225-284 | starting a voice raises exactly its emitter's count |
| AudioSystem.VoiceEnds | Source/Audio/SIRAudioSystem.cpp:166-176 | ending one lowers it; the guard against zero never applies |
| AudioSystem.EmitterIsReused | Source/Audio/SIRAudioSystem.cpp:402-422 | a free emitter can be handed out under a new generation without inheriting voices |
| AudioSystem.AudioSystem.constructor | Source/Audio/SIRAudioSystem.cpp:30-98 | nothing plays and every emitter is free |
| AudioSystem.AudioSystem.PlayEvent | Source/Audio/SIRAudioSystem.cpp:225-284 | the first slot from the cursor on whose voice is over and which has a generation left is queued; refusals change no slot or count |
| AudioSystem.AudioSystem.StopEvent | Source/Audio/SIRAudioSystem.cpp:286-308 | only a queued or playing voice is stopped, and what it was is remembered |
| AudioSystem.AudioSystem.ApplyCompletion | Source/Audio/SIRAudioSystem.cpp:643-684 | stale or untimely records change nothing; a terminal one takes exactly one voice off its emitter |
| AudioSystem.AudioSystem.FailSubmission | Source/Audio/SIRAudioSystem.cpp:686-699 | a refused play fails its voice, a refused stop puts back what was |
| AudioSystem.AudioSystem.RegisterEmitter | Source/Audio/SIRAudioSystem.cpp:402-422 | a free emitter gets its next generation and starts with no voices |
| AudioSystem.AudioSystem.ReleaseEmitter | Source/Audio/SIRAudioSystem.cpp:424-441 | refused as busy exactly while some voice needs the emitter |
| AudioSystem.AudioSystem.ApplyReleaseResult | Source/Audio/SIRAudioSystem.cpp:178-193 | only the backend's agreement frees an emitter; a refusal makes it usable again |
| PlaybackScene.NextIsNew | Source/Audio/SIRAudioSystem.cpp:254-281 | the generation a play is given has never been handed out or started before, and stays so while it waits in the queue |
| PlaybackScene.NoVoiceIsStuck | Source/Audio/SIRAudioSystem.cpp:643-757 | in every reachable state a voice that has not ended has its play in the queue, or is a live voice of the backend under its own handle, or has its last record on the way back |
| PlaybackScene.QuietIsLive | Source/Audio/SIRAudioSystem.cpp:719-757 | when no play waits and every record has been applied, exactly the slots whose voice has not ended have a live backend voice, under their own handle |
| PlaybackScene.QuietStopIsAsked | Source/Audio/SIRAudioSystem.cpp:286-308 | when no command waits and every record has been applied, a stopping slot has a backend voice that was asked to stop |
| PlaybackScene.QueuedIsAttended | Source/Audio/SIRAudioSystem.cpp:254-281 | queueing a play keeps all of that: nothing is left over of the slot's earlier voices |
| PlaybackScene.StartedIsAttended | Source/Audio/SIRAudioSystem.cpp:725-739 | so does starting the oldest play |
| PlaybackScene.FailedIsAttended | Source/Audio/SIRAudioSystem.cpp:686-699 | so does failing it, which leaves no voice behind |
| PlaybackScene.StoppingIsAttended | Source/Audio/SIRAudioSystem.cpp:286-308 | so does queueing a stop |
| PlaybackScene.AskedIsAttended | Source/Audio/SIRAudioSystem.cpp:743-748 | so does asking the backend to stop |
| PlaybackScene.RefusedIsAttended | Source/Audio/SIRAudioSystem.cpp:686-699 | so does putting back what a slot was when its stop is refused |
| PlaybackScene.PolledIsAttended | Source/Audio/FMOD/SIRFMODVoiceBackend.cpp:744-778 | so do voices that end: the last record is one the slot will take |
| PlaybackScene.AppliedIsAttended | Source/Audio/SIRAudioSystem.cpp:643-684 | so does applying the next record: a voice's start is taken before its end, and no record that concerns a voice is dropped as stale or out of turn |
| AudioPlayback.Playback.constructor | Source/Audio/SIRAudioSystem.cpp:30-98 | nothing plays and nothing waits |
| AudioPlayback.Playback.PlayEvent | Source/Audio/SIRAudioSystem.cpp:225-284 | a play is queued under a handle that nobody has had before |
| AudioPlayback.Playback.SubmitPlay | Source/Audio/SIRAudioSystem.cpp:725-739 | the backend is never asked to start a handle it has started before; it starts once if the answer is success and not at all otherwise |
| AudioPlayback.Playback.StopEvent | Source/Audio/SIRAudioSystem.cpp:286-308 | a stop is queued exactly if it is accepted |
| AudioPlayback.Playback.SubmitStop | Source/Audio/SIRAudioSystem.cpp:743-748 | a stop that is refused puts back what the voice was and starts nothing |
| AudioPlayback.Playback.DrainCompletions | Source/Audio/SIRAudioSystem.cpp:701-717 | every record the backend has written and not yet delivered is applied to the slots, oldest first, and none is left |
| AudioPlayback.Playback.Poll | Source/Audio/SIRAudioSystem.cpp:753-754 | exactly the voices that have ended and could be released write their last records, and no slot is stuck by it |

## Left out

- Weak memory: every atomic operation is one sequentially consistent step; acquire, release and relaxed orders are not distinguished.
- 64-bit sequence numbers, epochs, positions and journal totals are unbounded; the source's abort at the end of the epoch range is not modelled. 32-bit generations, stamps and counts wrap or saturate as the source does.
- The key hash map is a finite map whose growth may be refused; the allocator, chunk alignment and domains, native calls, the bank store, path resolution and provider answers are parameters, and callbacks do not call back into the component that invokes them.
- The power-of-two mask of the queue and of ring positions is written as a remainder.
- Writer-thread checks, not-ready states, null arguments, shutdown and destructors, and the getters that only copy fields.
- Slots and frames that the source keeps as structs are parallel arrays where several methods touch different fields; output buffers of a caller are returned sequences.
- The zero settings for edge and event capacity that stand for four times the resource count.
- Collecting dependents without invalidating them, and byte ranges of chunk payloads: easy members beside what is proved.
- ResourceGraph.Writer.Publish: takes the outcome of chunk preparation as a parameter; `ResourcePublication.Publisher.Publish` is the whole publication.
- ResourcePublication.Publisher.Publish: commits the writer's side after the chunks, the source before them; nothing can fail or be observed in between. Growth of the key index is a parameter and does not draw on the committed bytes.
- ResourcePublication.Publisher.CollectRetired: takes the reader words and the pinned records as parameters; they are state of `EpochProtocol`, and `ResourcePublication.HeldStillWaits` ties the two together. The record it waits for is told by its retirement epoch, which no two share.
- ChunkStore.ChunkStore.EvictChunk: is the chunk side alone; `ResourcePublication.Publisher.EvictChunk` is the whole eviction.
- ResourceGraph.Writer.MarkFailed: takes the allocator's answer as a parameter; `ResourcePublication.Publisher.MarkFailed` is the whole operation.
- ResourceGraph.Writer.Request: takes the allocator's answer as a parameter, `ResourcePublication.Publisher.Request` is the whole operation; it goes through the same commit as a publication, whose edge replacement does nothing for a record without edges; the source skips it.
- ChunkStore.ChunkStore.Publish: addresses of blocks are never reused in the model; no entry names a freed block, so reuse could not be told apart. Reference counts are unbounded.
- ChunkStore.ChunkStore.AllocateStaging: the contents a client writes through the returned pointer are given when the slot is handed out.
- TaskPlan.TaskCompiler.CompileTaskGraph: ends with the pass list; the task graph's own compile step and the revalidation against a graph that pass factories changed are not part of this model.
- AudioManifest.PackageSearch.Validate: keeps the list of finished packages, which the source does not need for the check alone.
- PackageLoader.Loader.UnloadAll: stops when a cancelled load cannot be rolled back; the source would go on only if an unload itself answered with the cancelled code.
- PackageLoader.Loader.LoadPackage: its plan check also refuses half-loaded banks, which cannot occur there; the identity of the last failed package is not kept.
- StreamingBridge.Bridge.Pump: the per-call counters of dispatched and deferred work are not kept.
- StreamingBridge.Bridge.ProcessSlot: the early return for outstanding work of an earlier ticket is an assertion that it cannot happen while stages move only through the bridge.
- StreamingReconciler.Reconciler.Reconcile: is about a consumer identity for which one reconciler alone submits and refreshes; the count of cancelled tickets in its statistics is not specified.
- VoiceBackend.VoiceBackend.Play: spatial state, parameters and events of voices are folded into one setup answer.
- AudioSystem.AudioSystem.PlayEvent: whether the event is known and whether the command queue takes the command are parameters; the queue itself is `AudioQueue`, and in `AudioPlayback` it is a sequence. Listeners, buses, snapshots and parameter commands carry no voice counts and are left out.
- DerivedRegistry.Registry.CollectProvider: the flag for a native side released before its pin is not kept, because the pin release that follows cannot fail; peak byte counts are left out.
- The graphics, UI, file loading, mesh cache, cooker and build code.
