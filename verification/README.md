# rqmd: a verified model

rqmd indexes text collections: it stores documents in SQLite, their words in a Tantivy index and
the vectors of their chunks in a usearch file, and answers keyword, vector and hybrid queries. This
project models the parts of it that hold state across runs or hide a hard argument, and proves what
they promise. Dafny 4.11 checks it with `dafny verify dfyconfig.toml`.

| file | component |
|---|---|
| `VectorIndex.dfy`, `VectorStore.dfy`, `Checkpoints.dfy`, `StoreLaws.dfy`, `IndexRuns.dfy`, `Store.dfy` | vid allocator, the vector store across runs, failed loads and crashes, embedding with reuse, what checkpoints write, and indexing without them |
| `WriteLock.dfy`, `LockReclaim.dfy`, `LockVerdicts.dfy` | the index write lock as interleaved steps of any number of processes on any number of hosts; how a dead owner is replaced; which locks are taken over and which are respected |
| `EmbedState.dfy`, `EmbedRuns.dfy`, `EmbedListings.dfy`, `Donors.dfy` | which hashes are pending for embedding, embed runs over any listings and over collections, donor hashes and the sweeps |
| `VectorSearch.dfy`, `SearchLaws.dfy`, `Fusion.dfy` | the widening vector search, picks and results, which sections of a file are returned, reciprocal rank fusion |
| `Chunking.dfy`, `TableRows.dfy`, `Tables.dfy`, `AstBoundaries.dfy` | chunk windows and overlap, fences, pipe tables and their headers carried along, cuts of a syntax tree |
| `QueryCache.dfy` | two tables with one recency order and one limit |
| `FullText.dfy`, `Rename.dfy` | the full-text writer and the collection rename built on it |
| `Resolve.dfy`, `CjkBigrams.dfy`, `CjkSearch.dfy` | `multi-get` patterns, the CJK tokenizer, which phrases its pairs find |
| `Calendar.dfy`, `Metrics.dfy` | timestamps (sections 5.6 and 5.7 of RFC 3339), nDCG |
| `Common.dfy` | options, string order, sorting, filtering and deduplication |

How the models are built:

- Objects that the program updates in place are classes (`VectorIndex`, `Store`, `IndexDir`,
  `ModelCache`, `FtsIndex`, `Database`, `CjkBigramStream`). Each method is proved equal to a function
  on values, and the theorems are about those functions and about runs of them.
- Crashes, failed loads and saves, failing backends and the interleaving of processes are steps or
  parameters that the theorems quantify over.
- SQLite tables are maps and sets, the usearch index is a map that refuses a live key, Tantivy is a
  list of entries with a buffer of operations applied in order at commit. Digests are taken to be
  collision-free.
- Scores are real numbers, not `f32`.

Where the code does not do what its comments say, the model follows the code and the difference is
a theorem with its exact condition:

- `index_document` commits a row before the index file is saved. A chunk keeps the store's
  invariant if and only if, under the first free vid, neither the new vector nor one the file holds
  differs from what the row's recorded key stands for (`IndexChunkKeepsInvIff`). After a load that
  fails, indexing is harmless if and only if the file holds no vid at or above the counter, or only
  ones no chunk can differ from (`FailedLoadIsHarmlessIff`); a run from an empty store ends with a
  row bound to another text's vector (`IndexingAfterFailedLoadMisbinds`).
- The two statements that write a row there commit one by one. A crash between them, which takes the
  unsaved vector with it, misbinds a row if and only if the file holds a different vector under the
  vid (`CrashKeepsInvIff`). When the second statement fails and the process goes on and saves, a row
  is misbound if and only if its text, backend or context size changed under the same model
  (`SaveKeepsInvIff`; the first statement writes the model, and lookups name it); a run from an
  empty store then reuses the wrong vector (`LostIdentityMisbinds`).
- A chunk is longer than 3600 bytes if and only if its window's best break, or without one the hard
  cut, snaps past that (`LongChunksIff`); the bounds of 3999 bytes, and 4002 when a break point is
  not at a character boundary, are reached (`BoundsAreReached`). A cut falls inside a code fence if
  and only if its window has no break (`CutInsideFenceIff`, `LongFencesAreCut`).
- Carrying table headers loses a byte if and only if a chunk starts within a data row that reaches
  past the end of the chunk before it, and the next row starts before that chunk and the table end
  (`ByteIsLostIff`, `CoverageIff`). Rows of at most 540 bytes lose none; a table with one row of 5002
  bytes loses bytes 3600 to 5006 (`ShortRowsAreCovered`, `LongRowsLoseBytes`).
- A file whose name is nothing but an extension is taken for its language by the pending query and
  for plain text by the chunker (`EmbedSatisfiesExactly`). Runs list whole collections by path and
  take the first document of a hash. A pending hash therefore stays pending through every sequence of
  runs if and only if all its live documents are in some language's group and the first by path in
  each collection is such a file (`NeverSettledIff`): a single `.py` (`DotPyStaysPending`), or
  `.py` beside a `foo.py` that would settle it (`TwoNamesStayPending`).
- A path without tokens cannot be deleted from the full-text index, and deletes are exact only
  under the condition in `DeleteIsExact`.
- A CJK phrase can match across two words. Phrase search is exact, position by position, if and only
  if no two neighbouring runs agree in last and first character (`SearchIsExactIff`); in any text a
  phrase is found if and only if it occurs in a run or in a gluing of runs that agree
  (`PhraseIsFoundIff`, `TwoWordsLookLikeOne`).

## Model

| member | source | states |
|---|---|---|
| VectorIndexes.AddFindsFirstFree | crates/rqmd-core/src/hnsw.rs:159-192 | the retry loop returns a vid if and only if it is the first free one, within 1024 tries and before any other failure; otherwise the entries stay as they were, and the counter never falls |
| VectorIndexes.AddAllIsAllOrNothing | crates/rqmd-core/src/store.rs:214-233 | a batch goes in whole, under new increasing vids with every old entry unchanged, or leaves the entries exactly as before |
| StoreLaws.RetriesAreBounded | crates/rqmd-core/src/hnsw.rs:159-192 | with no fault the first free vid is issued if and only if fewer than 1024 taken ones come before it |
| VectorIndexes.VectorIndex.Add | crates/rqmd-core/src/hnsw.rs:159-192 | the loop is the allocator function; a read-only view changes nothing |
| VectorIndexes.VectorIndex.EnsureNextVidAtLeast | crates/rqmd-core/src/hnsw.rs:195-199 | the counter rises to the floor and never falls |
| VectorIndexes.VectorIndex.Remove | crates/rqmd-core/src/hnsw.rs:251-259 | exactly that vid goes, or nothing in a read-only view |
| VectorIndexes.VectorIndex.AddAllOrRollback | crates/rqmd-core/src/store.rs:214-233 | the loop with its rollback is the all-or-nothing batch add |
| VectorStore.ReuseRefinesEmbedding | crates/rqmd-core/src/store.rs:581-617 | embedding with reuse returns one vector per chunk, in order, each the one a full re-embedding would give, through staged, stored, evicted and missing vectors alike |
| VectorStore.EmbedKeepsInv | crates/rqmd-core/src/store.rs:530-576 | embedding a document, with its staging, eviction and queued deletes, keeps the invariant, and the vids it issues are at or above the old counter |
| VectorStore.UpsertNeverConflicts | crates/rqmd-core/src/db.rs:1025-1051 | upserting the pending rows never meets a vid another row holds, and keeps vids unique |
| VectorStore.CommitKeepsInv | crates/rqmd-cli/src/commands/index.rs:298-347 | the checkpoint's transaction succeeds and keeps the invariant |
| VectorStore.RunKeepsInv | crates/rqmd-core/src/store.rs:518-529 | the invariant holds after any run of opens (failed loads too), embeds, evictions, saves, commits, row deletes, file removals and crashes |
| VectorStore.RowsNeverMisbound | crates/rqmd-core/src/store.rs:738-756 | in every reachable state each row's vid is absent from the file and from memory or bound there to the vector that row was embedded with |
| VectorStore.CommitsNeverConflict | crates/rqmd-core/src/db.rs:1025-1051 | in every reachable state a vid returned by `add` is held by no row and a commit does not violate UNIQUE(vid) |
| VectorStore.FloorNeverFalls | crates/rqmd-core/src/db.rs:1754-1763 | the persisted floor never falls |
| VectorStore.CommittedVidsAreNeverReissued | crates/rqmd-core/src/store.rs:269-285 | a vid that any checkpoint committed is never issued again, whatever is deleted, removed, unreadable or crashed in between |
| Checkpoints.CommitWrites | crates/rqmd-cli/src/commands/index.rs:298-347 | a commit leaves exactly the rows the last pending entry of each chunk asks for, and of the others those whose hash is not superseded, as they were; the floor reaches the counter and nothing stays pending |
| Checkpoints.EmbeddingGoesThrough | crates/rqmd-core/src/store.rs:530-576 | an embedding goes through when the backend answers in full, no add fails and no vid lies a thousand above the counter |
| Checkpoints.CheckpointWritesDocument | crates/rqmd-cli/src/commands/index.rs:298-347 | after any run, a document whose embedding goes through has, once saved and committed, for every chunk a row with that chunk's key whose vid the file binds to that key's own vector; if its hash had rows before, it has no others; whatever other documents are embedded before and after it |
| Checkpoints.CheckpointWritesAll | crates/rqmd-cli/src/commands/index.rs:298-347 | the same for each document of a checkpoint of any number of documents |
| Checkpoints.CheckpointSparesOthers | crates/rqmd-cli/src/commands/index.rs:298-347 | the rows of every hash that was not embedded are there afterwards if and only if they were before, unchanged |
| StoreLaws.OpenIs | crates/rqmd-core/src/store.rs:237-308 | opening takes over the file's vectors when it can be read and none otherwise, starts with nothing pending, and its counter is the least above every row's vid, the floor and the number of vectors |
| StoreLaws.ReusableIs | crates/rqmd-core/src/store.rs:581-600 | a chunk reuses the staged vector of its key while the index has it, else the one under the lowest vid of a row with its text, model and context, else none |
| StoreLaws.StageIs | crates/rqmd-core/src/store.rs:530-576 | staging keeps the vid a key has and gives each other key the vid of its first chunk |
| StoreLaws.OldVidsAreEvicted | crates/rqmd-core/src/store.rs:530-576 | after a document's embedding no vid of its old rows is in the index |
| IndexRuns.IndexChunkKeepsInvIff | crates/rqmd-core/src/store.rs:396-419 | indexing a chunk without the checkpoint, however its two statements end, keeps the invariant if and only if, under the vid about to be issued (the first free one within reach of the counter), neither the new vector nor one the file holds differs from what the recorded key stands for |
| IndexRuns.CrashKeepsInvIff | crates/rqmd-core/src/store.rs:396-419 | a crash after a chunk's row was written, or between its two statements, leaves the invariant if and only if the file holds no vector under the vid issued other than the one the recorded key stands for |
| IndexRuns.SaveKeepsInvIff | crates/rqmd-core/src/store.rs:396-419 | a save after a chunk leaves the invariant if and only if the row was not left with a key that stands for another vector, whatever the file held |
| IndexRuns.IdentityLeftBehind | crates/rqmd-core/src/db.rs:1056-1069 | otherwise it was the identity that was not recorded, and the file answers for the old key with the new vector |
| IndexRuns.LostIdentityMisbinds | crates/rqmd-core/src/db.rs:1056-1091 | for any embedding that tells two keys of one model apart, a run from the empty store (index, index again with the identity lost, save, crash, open) ends with a row bound to the other chunk's vector, which embedding then reuses |
| IndexRuns.IndexDocumentKeepsCover | crates/rqmd-core/src/store.rs:364-422 | while the file holds nothing that could be issued over, indexing a document leaves the invariant wherever it ends, within a row too, if the process dies there or no other chunk's identity is left behind |
| IndexRuns.CarefulRunKeepsInv | crates/rqmd-core/src/store.rs:364-422 | the invariant holds over every run that also indexes documents, with statements that fail and crashes within a row, as long as no load fails while the file holds a vid at or above the counter, evictions name vids of rows, and no process that lives on leaves a row with another chunk's identity |
| IndexRuns.IndexedRowsNeverMisbound | crates/rqmd-core/src/store.rs:364-422 | in every state such a run reaches, the vid of each row with an identity is absent from the file and from memory or bound there to the vector of that identity |
| IndexRuns.FailedLoadReissues | crates/rqmd-core/src/store.rs:269-285 | after a failed load a document with enough chunks is issued any given vid from the counter on, for whatever text its last chunk has |
| IndexRuns.FailedLoadIsHarmlessIff | crates/rqmd-core/src/store.rs:269-285 | after a failed load, indexing any document with no identity left behind keeps the invariant if and only if each vid the file holds at or above the counter has the one vector every chunk is given |
| IndexRuns.IndexingAfterFailedLoadMisbinds | crates/rqmd-core/src/store.rs:364-422 | for any embedding that tells two chunks apart, a run from the empty store (embed, save, crash, failed load, index, crash, open) ends with a row whose vid is bound to another chunk's vector, in the file and in memory |
| Stores.Store.Open | crates/rqmd-core/src/store.rs:237-308 | opening is the open step: the counter is above every row's vid and the floor |
| Stores.Store.ReusableVid | crates/rqmd-core/src/db.rs:1074-1091 | the least stored vid of a key |
| Stores.Store.ReusableVector | crates/rqmd-core/src/store.rs:581-600 | the staged vector first, then the stored one, each only while the index has it |
| Stores.Store.EmbedPassagesReusing | crates/rqmd-core/src/store.rs:581-617 | the loops compute the reuse function, backend failures and miscounts included |
| Stores.Store.EvictHnswVectors | crates/rqmd-core/src/store.rs:703-712 | exactly the given vids go and the index is marked dirty, unless there are none |
| Stores.Store.EmbedDocumentChunks | crates/rqmd-core/src/store.rs:530-576 | one document of the embed loop is the embed step; a failure leaves vectors, pending rows and queued deletes alone |
| Stores.Store.Flush | crates/rqmd-core/src/store.rs:685-694 | the file becomes the index when the save replaced it; the dirty mark goes only on success |
| Stores.Store.Checkpoint | crates/rqmd-cli/src/commands/index.rs:298-347 | nothing happens when nothing is pending; otherwise it is the save step followed by the commit step, and rows are written only after the save succeeded |
| Stores.Store.UpsertVectorMeta | crates/rqmd-core/src/db.rs:1025-1051 | model and vid are written and a key stored before stays, unless another row holds the vid |
| Stores.Store.SetVectorIdentity | crates/rqmd-core/src/db.rs:1056-1069 | the identity is written, and nothing when there is no row |
| Stores.Store.IndexDocument | crates/rqmd-core/src/store.rs:364-422 | the loop, with either statement of any row failing, is the indexing function; success leaves a row with its own key for every chunk |
| WriteLock.GoneMeansUnowned | crates/rqmd-core/src/lock.rs:164-192 | a verdict that the owner is gone is never given while a live process owns the lock |
| WriteLock.RunKeepsInv | crates/rqmd-core/src/lock.rs:97-146 | the lock's invariant over every interleaving with crashes and I/O errors at any step, and drops that remove their directory without the guard |
| WriteLock.MutualExclusion | crates/rqmd-core/src/lock.rs:97-146 | in every run at most one live process owns the lock |
| WriteLock.OwnerKeepsDirectory | crates/rqmd-core/src/lock.rs:97-146 | in every run no step of another process, acquire or drop, takes a live owner's directory or changes whom it names |
| WriteLock.AbsentLockIsTaken | crates/rqmd-core/src/lock.rs:97-125 | with no directory and a free guard a waiting process acquires the lock in five steps |
| WriteLock.CrashedOwnerIsReclaimed | crates/rqmd-core/src/lock.rs:164-192 | in every run, after the owner dies the lock is available to an acquire if and only if it is on the same host, and not once a process with that pid exists again |
| LockReclaim.GoneOwnerIsReplaced | crates/rqmd-core/src/lock.rs:97-125 | from every reachable state in which a process has the guard and the directory is absent or its owner provably gone, that process gets the lock within twelve steps of its own, under every interleaving in which it neither dies nor fails and the dead pid does not come back, and until then it always has a step to take |
| LockReclaim.DeadOwnerIsGone | crates/rqmd-core/src/lock.rs:164-192 | a directory that names a pid of this host is such a lock if and only if that process is dead |
| LockVerdicts.AbandonedLockIsReplaced | crates/rqmd-core/src/lock.rs:164-192 | in every run, a process about to create a directory that is already there, past the grace period and with no pid from 1 to 2^31 - 1, gets the lock within twelve steps of its own, under every interleaving in which it neither dies nor fails |
| LockVerdicts.DeadOwnersLockIsReplaced | crates/rqmd-core/src/lock.rs:164-192 | so it does when the directory names a dead process of its host, or a dead pid and no host, while that pid does not come back |
| LockVerdicts.YoungLockIsRespected | crates/rqmd-core/src/lock.rs:164-192 | in every run such a process is turned away within five steps of its own, and the directory stays, when the directory has no such pid and does not age |
| LockVerdicts.ForeignLockIsRespected | crates/rqmd-core/src/lock.rs:164-192 | so it is when the directory names a process of another host, alive or dead, while no drop fails to get the guard |
| LockVerdicts.LiveOwnersLockIsRespected | crates/rqmd-core/src/lock.rs:164-192 | so it is when the directory names a live process of its host, or a live pid and no host, while that one lives and no drop fails to get the guard |
| LockVerdicts.CrashBeforePid | crates/rqmd-core/src/lock.rs:97-125 | in every run, when a process dies between creating the directory and writing its pid and another gets the guard: past the grace period that one gets the lock, before that it is turned away with the directory as it was, under every interleaving |
| LockVerdicts.FailedAcquireLetsGo | crates/rqmd-core/src/lock.rs:97-125 | in every run an I/O error while acquiring ends without lock and guard, with the directory as it is then |
| LockVerdicts.DropReleases | crates/rqmd-core/src/lock.rs:133-146 | the steps of a drop remove the directory and release the guard |
| WriteLock.ForcedRemovalBreaksExclusion | crates/rqmd-core/src/lock.rs:155-162 | removing the directory by force lets a second process own the lock |
| WriteLock.IndexDir.TryAcquire | crates/rqmd-core/src/lock.rs:97-125 | run alone, acquiring succeeds exactly when the lock is available, leaves this process named as owner, and is a run of the state machine's own steps |
| WriteLock.IndexDir.Inspect | crates/rqmd-core/src/lock.rs:164-192 | reading host, pid and age yields exactly the verdict of the specification |
| EmbedState.GlobIsExtension | crates/rqmd-core/src/db.rs:662-668 | the SQL suffix test and `Path::extension` agree on every path except one whose file name is only that extension |
| EmbedState.FingerprintIsExpected | crates/rqmd-core/src/store.rs:2571-2576 | a file is embedded under the fingerprint of a group it is in, or the base one when it is in none |
| EmbedState.EmbedSatisfiesExactly | crates/rqmd-core/src/db.rs:864-897 | embedding a hash through a document satisfies the per-hash check unless that document's name is only an extension and every live document on the hash is taken for some language |
| EmbedState.EmbedLowersPending | crates/rqmd-core/src/db.rs:763-814 | embedding a pending hash through any one of its documents takes exactly that hash off the pending set, which shrinks by one, even when documents of several groups share it |
| EmbedState.GroupBySummarizes | crates/rqmd-core/src/db.rs:673-693 | the grouped flags say, for rows in any order, whether some row is in each group and whether all are in one |
| EmbedState.AggregateIsPerHash | crates/rqmd-core/src/db.rs:763-814 | the aggregate counts exactly the hashes for which the per-hash check says pending, for any documents, exclusions, sizes and groups |
| EmbedState.ExtensionIs | crates/rqmd-core/src/store.rs:2571-2576 | the extension is what follows the last dot of the last path component, and there is none when nothing precedes that dot |
| EmbedRuns.SelectIff | crates/rqmd-cli/src/commands/index.rs:730-741 | a document is taken on if and only if its hash needs embedding, was not taken before, and no live document listed earlier has it |
| EmbedRuns.EmptyTextIsSkipped | crates/rqmd-cli/src/commands/index.rs:470-480 | an empty text takes no vector, clears the donors of its hash and changes nothing else |
| EmbedRuns.SelectTodo | crates/rqmd-cli/src/commands/index.rs:730-741 | the loop computes this selection and the hashes seen |
| EmbedRuns.RunIsOneList | crates/rqmd-cli/src/commands/index.rs:707-775 | checking each hash when its collection comes up takes on the same documents, with the same result, as checking one list of all of them beforehand, however the run ends |
| EmbedRuns.EmbedDocs | crates/rqmd-cli/src/commands/index.rs:456-513 | the loop performs the attempts in order, skipping empty texts, until a signal, the deadline or the fifth failure in a row |
| EmbedRuns.AbortsIff | crates/rqmd-cli/src/commands/index.rs:456-513 | the loop aborts if and only if five attempts on texts that are not empty fail with no success between them and no signal before, counting the failures it begins with |
| EmbedRuns.RunAbortsIff | crates/rqmd-cli/src/commands/index.rs:707-775 | a whole run aborts if and only if there is such a row of failures among all the documents it takes on, across collections |
| EmbedRuns.CompleteRunEmbeds | crates/rqmd-cli/src/commands/index.rs:456-513 | a loop that goes on to the end embeds exactly the documents that have text and do not fail |
| EmbedRuns.FifthFailureAborts | crates/rqmd-cli/src/commands/index.rs:456-513 | failures in a row leave the tables as they were and end the run at exactly the fifth |
| EmbedListings.ListDocuments | crates/rqmd-core/src/db.rs:493-529 | the active documents of the collection, each once, strictly ascending by path |
| EmbedListings.EmbedCollections | crates/rqmd-cli/src/commands/index.rs:707-775 | the nested loops, each collection listed when its turn comes, compute the run over these listings |
| EmbedRuns.RunPending | crates/rqmd-cli/src/commands/index.rs:707-775 | however a run ends, what leaves the pending set is exactly the hashes settled by the documents it embedded |
| EmbedRuns.SmoothRunPending | crates/rqmd-cli/src/commands/index.rs:707-775 | when nothing fails, a hash is pending after the run if and only if it was before and the first listed live document with it, if any, does not settle it |
| EmbedRuns.FullRunLeaves | crates/rqmd-cli/src/commands/index.rs:707-775 | a run over all live documents in which nothing fails leaves nothing pending if and only if the first document of every pending hash settles it |
| EmbedRuns.RunsPending | crates/rqmd-cli/src/commands/index.rs:707-775 | over any number of runs a hash stays pending while no run lists first a document that settles it, whatever fails; when nothing fails, only then |
| EmbedListings.ChoicesAreRuns | crates/rqmd-cli/src/commands/index.rs:568-579 | runs over collections, each listing what it finds, are runs over the listings of the first state |
| EmbedListings.ListedFirst | crates/rqmd-core/src/db.rs:493-529 | what a collection's listing has first for a hash is its first live document by path, and nothing exactly when it has none |
| EmbedListings.NeverSettledIff | crates/rqmd-cli/src/commands/index.rs:716-741 | a pending hash stays pending through every sequence of runs over collections, whatever fails, if and only if there are language groups, each of its live documents is in one, and in every collection the first of them by path is named nothing but an extension |
| EmbedListings.TwoNamesStayPending | crates/rqmd-cli/src/commands/index.rs:716-741 | one text as `.py` and `foo.py` with the one group {py} is pending and still is after any runs, although `foo.py` would settle it |
| EmbedRuns.DotPyStaysPending | crates/rqmd-core/src/db.rs:662-668 | one live document named `.py` with the one group {py} is pending, and still is after any runs of any listings |
| Donors.StepKeepsDonor | crates/rqmd-core/src/db.rs:1562-1567 | no edit, embed, prune or sweep drops a recorded donor while its document is active, non-empty and without vectors |
| Donors.DonorSurvives | crates/rqmd-core/src/db.rs:283-315 | over any run the donor and its vectors stay for as long as the document waits |
| Donors.EditedTextDonates | crates/rqmd-core/src/db.rs:283-315 | from the edit on, through any number of further edits, the replaced text's vectors are there for as long as the document waits |
| Donors.SweepIsExact | crates/rqmd-core/src/store.rs:722-756 | a sweep takes no vector of a hash an active document uses, leaves nothing orphaned, and changes nothing exactly when nothing was |
| Donors.ExcludedSweepIsExact | crates/rqmd-core/src/db.rs:1588-1594 | the sweep of excluded documents spares every hash a non-excluded one uses and keeps an excluded document's vectors only for those |
| Donors.OrphansInRuns | crates/rqmd-core/src/db.rs:1562-1567 | in every reachable state a document names a donor only while its own text has no vectors, so a hash is orphaned if and only if no active document uses or names it |
| Donors.PruneIsExact | crates/rqmd-core/src/db.rs:1431-1461 | after a prune every document keeps its text and donor and is active if and only if it was and is of another collection or its path is current |
| Donors.PrunedVectorsGo | crates/rqmd-core/src/store.rs:722-756 | after a prune and a sweep the vectors of a hash are left if and only if they were there and an active document that the prune spared uses the hash, or names it while its own text has none |
| Donors.ExcludedVectorsGo | crates/rqmd-core/src/db.rs:1588-1594 | the sweep of excluded documents takes the vectors of a hash if and only if some active document uses it, all that do are excluded, and none that is not excluded names it while its own text has none |
| Donors.EditIsExact | crates/rqmd-core/src/db.rs:283-315 | after an edit the document has the text and is active, all others and all vectors are as before, and an unchanged text keeps its donor |
| Donors.Database.UpsertDocument | crates/rqmd-core/src/db.rs:283-315 | the branches are the edit step and keep the marker invariant |
| Donors.Database.DeactivateMissing | crates/rqmd-core/src/db.rs:1431-1461 | batches of 500 paths deactivate exactly the collection's active documents that are not current, those are the paths returned, and every other field of every document stays |
| Donors.Database.ReclaimOrphaned | crates/rqmd-core/src/store.rs:722-756 | the sweep loop removes exactly the orphaned hashes' vectors and leaves none orphaned |
| Donors.Database.ReclaimExcluded | crates/rqmd-core/src/store.rs:732-756 | the sweep loop removes exactly the vectors only excluded documents use |
| Donors.Database.CommitEmbedded | crates/rqmd-cli/src/commands/index.rs:313-342 | committing an embedded hash replaces its rows and clears its markers, keeping the marker invariant |
| VectorSearch.UnseenPicksAreWorse | crates/rqmd-core/src/store.rs:1044-1077 | a pick missed so far is less similar than every pick found so far |
| VectorSearch.WideningIsExhaustive | crates/rqmd-core/src/store.rs:1002-1041 | once the hits seen cover `limit` files, the best `limit` sections among them are the best of the whole index |
| VectorSearch.RankingIsUnique | crates/rqmd-core/src/store.rs:2519-2525 | score, path and section rank order the picks totally: the best `limit` and their order are determined |
| SearchLaws.AtMostPerFile | crates/rqmd-core/src/store.rs:974-1092 | no file has more results than asked for |
| SearchLaws.ResultsAreLeaders | crates/rqmd-core/src/store.rs:974-1092 | results fall in similarity; those of one file have different offsets and rising ranks; each has the similarity of the most similar hit at its offset, and for its rank the number of its file's offsets that have a more similar hit |
| SearchLaws.PassedOver | crates/rqmd-core/src/store.rs:974-1092 | an offset that is not returned is beaten by as many results of its file as one may have, or by a full list |
| SearchLaws.RanksHaveNoGap | crates/rqmd-core/src/store.rs:974-1092 | with a section every more similar one of its file is returned: ranks are 0, 1, 2, ... |
| SearchLaws.InScopeHolds | crates/rqmd-core/src/store.rs:2071-2105 | the list in scope holds each hit that resolves, at its place among those that do, and nothing else |
| VectorSearch.ClampPerFile | crates/rqmd-core/src/types.rs:224-227 | unchanged from one to five, one for zero, five for more |
| VectorSearch.Widen | crates/rqmd-core/src/store.rs:1002-1041 | the loop ends with `limit` files covered or the whole index seen |
| VectorSearch.CollectPicks | crates/rqmd-core/src/store.rs:1044-1076 | whatever order the map yields its files, the picks are every file's best sections, each once |
| VectorSearch.SearchVecMulti | crates/rqmd-core/src/store.rs:974-1092 | the result is the ranking of all vectors, for every limit and every requested number of sections |
| VectorSearch.SearchVecScoped | crates/rqmd-core/src/store.rs:2071-2105 | the result begins the exhaustive in-scope list and stops short of it only after the requested size |
| VectorSearch.CountPicks | crates/rqmd-core/src/store.rs:1900-1910 | every document's number of uses |
| VectorSearch.PicksToResults | crates/rqmd-core/src/store.rs:1900-1945 | every result gets its own document's body although bodies are moved out at their last use |
| Fusion.LaterRowsKeepScores | crates/rqmd-core/src/rrf.rs:32-39 | adding later rows of a file a list already has changes no score |
| Fusion.OrderOfListsIsIrrelevant | crates/rqmd-core/src/rrf.rs:58-126 | permuting lists together with their weights changes no score |
| Fusion.FusionIsUnique | crates/rqmd-core/src/rrf.rs:17-29 | each path once, strictly ordered by score and path, determines the fused list |
| Fusion.RankedAboveIsFusedAbove | crates/rqmd-core/src/rrf.rs:58-126 | a file that every list holding another ranks above it, with positive weights, is fused above it |
| Fusion.OneListScores | crates/rqmd-core/src/rrf.rs:58-126 | in one list of distinct files the k-th from 0 scores its weight over 61 + k, and 0.05 more in first place or 0.02 in second and third |
| Fusion.FirstRowIs | crates/rqmd-core/src/rrf.rs:58-126 | a file keeps its first row of the first list that has it |
| Fusion.Accumulate | crates/rqmd-core/src/rrf.rs:58-101 | the map filled by the nested loops holds, for exactly the files of some list, the sum of weight / (61 + rank) over first occurrences, the best rank and the first row |
| Fusion.ReciprocalRankFusion | crates/rqmd-core/src/rrf.rs:58-126 | the result is the declarative fusion with the best-rank bonus |
| Chunking.BestBreakIsBest | crates/rqmd-core/src/chunking.rs:175-187 | the break chosen lies in the window, none there has a higher score and none of the same score lies later; none is chosen only when the window is empty |
| Chunking.SnapsToNearest | crates/rqmd-core/src/chunking.rs:297-314 | snapping goes to the nearest character boundary on its side |
| Chunking.SnapsAreShort | crates/rqmd-core/src/chunking.rs:297-314 | in UTF-8 text a snap moves at most three bytes |
| Chunking.CutBounds | crates/rqmd-core/src/chunking.rs:322-373 | a chunk ends at most 4002 bytes after its start, 3999 with break points at character boundaries |
| Chunking.BoundsAreReached | crates/rqmd-core/src/chunking.rs:322-373 | a text whose first chunk has 3999 bytes, with the break at a character boundary, and one whose first chunk has 4002 |
| Chunking.FitsSizeIff | crates/rqmd-core/src/chunking.rs:322-350 | a cut stays within 3600 bytes if and only if the window has no break and the hard cut is a boundary, or its best break lies within 3600 bytes with a boundary between it and there |
| Chunking.LongChunksIff | crates/rqmd-core/src/chunking.rs:322-373 | in every document a chunk is longer than 3600 bytes if and only if another follows it and its cut does not fit |
| Chunking.OverlapBounds | crates/rqmd-core/src/chunking.rs:322-373 | the next chunk starts 540 to 543 bytes before the end, at a boundary |
| Chunking.ChunkingIsLossless | crates/rqmd-core/src/chunking.rs:322-373 | for any text and break points: slices at boundaries of 3200 to 4002 bytes, advancing by at least 2657, bounded in number, whose text without overlaps is the document |
| Chunking.ChunkText | crates/rqmd-core/src/chunking.rs:322-373 | the window loop computes these chunks |
| Chunking.ScanCodeFences | crates/rqmd-core/src/chunking.rs:119-141 | the regions pair up the fence marks in order, the last one open to the end, and are disjoint |
| Chunking.FencesAre | crates/rqmd-core/src/chunking.rs:119-141 | every three backticks lie in a fence, and each fence opens at three of them and ends after three others or with the text |
| Chunking.CutInsideFenceIff | crates/rqmd-core/src/chunking.rs:322-350 | a cut is inside a fence if and only if its window has no break point and the hard cut falls there |
| Chunking.LongFencesAreCut | crates/rqmd-core/src/chunking.rs:349-350 | a concrete fence that is cut |
| TableRows.ShortestSeparator | crates/rqmd-core/src/chunking.rs:208-219 | a pipe and a dash are a separator row |
| TableRows.RowIff | crates/rqmd-core/src/chunking.rs:204-219 | a line is a row if and only if a pipe comes first after ASCII white space |
| TableRows.SeparatorIff | crates/rqmd-core/src/chunking.rs:204-219 | a row of visible ASCII cells between pipes is a separator if and only if every cell has a dash and is made of dashes and colons |
| Tables.TablesAreExact | crates/rqmd-core/src/chunking.rs:223-250 | a range is found if and only if it is a maximal run of rows outside code fences whose second line is a separator, with the data after it |
| Tables.TablesAreOk | crates/rqmd-core/src/chunking.rs:223-250 | tables are disjoint, in order, made of whole lines, with their header inside |
| Tables.ScanTables | crates/rqmd-core/src/chunking.rs:223-250 | the line loop computes the tables |
| Tables.CarryKeepsTheEnd | crates/rqmd-core/src/chunking.rs:255-292 | a carried chunk keeps its end and is a slice, or the header of its table (at most 800 bytes) before a slice from a row start, all at character boundaries |
| Tables.CarryAdjusts | crates/rqmd-core/src/chunking.rs:255-292 | a chunk that starts within its table's first two rows begins at the table's start; one that starts among the data rows begins at the next row, below a copy of the two, unless they exceed 800 bytes or no row starts in what is left; any other stays as it is |
| Tables.CarryKeepsTheOrder | crates/rqmd-core/src/chunking.rs:255-292 | offsets stay in order |
| Tables.ByteIsLostIff | crates/rqmd-core/src/chunking.rs:255-292 | a byte is in no carried chunk if and only if, for some i, chunk i + 1 starts within a data row of a table with a header of at most 800 bytes, the next row starts before that chunk and the table end, and the byte lies between the end of chunk i and that next row |
| Tables.CoverageIff | crates/rqmd-core/src/chunking.rs:255-292 | in every document each byte is in some carried chunk if and only if no chunk boundary meets this condition for the byte right after it |
| Tables.ShortRowsAreCovered | crates/rqmd-core/src/chunking.rs:255-292 | data rows of at most 540 bytes keep every byte covered, for any document, fences and break points |
| Tables.LongRowsLoseBytes | crates/rqmd-core/src/chunking.rs:204-292 | a concrete table, under the row and separator tests of the source and with any break points at newlines, whose carried chunks lose exactly bytes 3600 to 5006 |
| Tables.ChunkDocument | crates/rqmd-core/src/chunking.rs:378-390 | fences, windows, tables and headers put together: a short document is one chunk; of a longer one, every chunk that starts inside a table begins with that table's header and separator rows, extended back or copied, unless these exceed 800 bytes or no row starts in what is left |
| AstBoundaries.RunStartIsUnique | crates/rqmd-core/src/ast_chunk.rs:348-366 | the run of leading siblings taken along is the one maximal unbroken run just above the declaration |
| AstBoundaries.RunIs | crates/rqmd-core/src/ast_chunk.rs:348-366 | the run goes back over leading siblings and ends at one that stands, past the line's start, on the line on which the node before it ends |
| AstBoundaries.BoundaryStart | crates/rqmd-core/src/ast_chunk.rs:348-366 | the backward loop stops at the start of that run |
| AstBoundaries.CollectBoundaries | crates/rqmd-core/src/ast_chunk.rs:316-340 | the stack traversal ends and collects exactly the boundaries of the recursive definition, counted with multiplicity, with and without `outermost_only` |
| AstBoundaries.BoundariesAreCuts | crates/rqmd-core/src/ast_chunk.rs:316-340 | a position is a boundary if and only if a path of child indices leads to a declaration, through no outer declaration when only outermost ones count, whose run starts there |
| AstBoundaries.BreakPoints | crates/rqmd-core/src/ast_chunk.rs:299-313 | sorted and deduplicated they are strictly increasing and the same positions |
| QueryCache.ModelCache.KeysAreTheMostRecent | crates/rqmd-core/src/model_cache.rs:321-345 | the stored keys of both tables are exactly the N most recently written distinct ones |
| QueryCache.KeptIff | crates/rqmd-core/src/model_cache.rs:321-345 | a key is kept if and only if fewer than N other keys were written after its last write |
| QueryCache.LookupIff | crates/rqmd-core/src/model_cache.rs:188-200 | a lookup gives a value if and only if it is that of the key's last write, that write used this model and version, and fewer than N other keys were written after it |
| QueryCache.RerankWritesAre | crates/rqmd-core/src/model_cache.rs:251-280 | there is one write for each finite score, in order, and none for the others |
| QueryCache.ModelCache.Get | crates/rqmd-core/src/model_cache.rs:188-200 | a lookup returns a value if and only if the key is among those and its last write used this model and prompt version, and then that write's value |
| QueryCache.ModelCache.NextTick | crates/rqmd-core/src/model_cache.rs:310-318 | the tick is one more than the newest of either table, and 1 when both are empty |
| QueryCache.ModelCache.Evict | crates/rqmd-core/src/model_cache.rs:321-345 | deleting by (last_used, table, rowid) leaves exactly the N most recently written keys |
| QueryCache.ModelCache.PutExpansion | crates/rqmd-core/src/model_cache.rs:202-222 | the write joins the history and the cache stays its N most recent keys |
| QueryCache.ModelCache.PutRerankScores | crates/rqmd-core/src/model_cache.rs:251-280 | the finite scores join the history in order, under one tick |
| QueryCache.TouchKeepsTail | crates/rqmd-core/src/model_cache.rs:321-345 | evicting after every write and keeping the whole history give the same N keys |
| FullText.DeleteIsExact | crates/rqmd-core/src/fts.rs:437-469 | a delete removes exactly the entries stored under the path if and only if no other entry the path's phrase hits carries one of its ids; a path without tokens is never removed |
| FullText.DeleteTakes | crates/rqmd-core/src/fts.rs:437-469 | a delete takes, of everything there would be after a commit, exactly the entries whose path contains the given one's tokens as a phrase and whose id is committed or staged under it |
| FullText.RebuildResult | crates/rqmd-core/src/fts.rs:360-383 | a rebuild commits exactly its documents, or rolls back to the committed snapshot (empty after a schema change) with nothing staged |
| FullText.RunRefines | crates/rqmd-core/src/fts.rs:302-484 | over any run of adds, inserts, deletes, commits and rebuilds that succeed or fail, committed and buffered entries are those of a store whose delete takes exactly one path, given ids that name one path each and paths with a token |
| FullText.FtsIndex.CommittedDocIdsAt | crates/rqmd-core/src/fts.rs:472-486 | the ids of exactly the committed entries stored under the path |
| FullText.FtsIndex.DeleteByFilepath | crates/rqmd-core/src/fts.rs:437-469 | the search, the staged list and the buffered query are the delete of the model |
| FullText.FtsIndex.Commit | crates/rqmd-core/src/fts.rs:553-561 | the buffered operations become the snapshot, nothing when no writer was opened |
| FullText.FtsIndex.Rebuild | crates/rqmd-core/src/fts.rs:360-383 | the loop with its rollback is the rebuild of the model, successful exactly when every document can be read |
| Renames.FilepathIsInjective | crates/rqmd-cli/src/commands/collection.rs:322-331 | with slash-free collection names no two documents share an indexed path |
| Renames.RenameIsSound | crates/rqmd-core/src/store.rs:778-829 | after a rename to an unused name no entry lies outside the active paths, every renamed document has exactly one entry with its id and text, all other documents' entries are untouched, and ids name one path each again |
| Renames.RenamedRows | crates/rqmd-core/src/db.rs:1653-1680 | the rows read back under the new name are exactly the renamed ones, each once, and ids and paths stay unique |
| Renames.RenameCollection | crates/rqmd-core/src/store.rs:778-829 | the deletes, inserts and commit leave exactly that index, the count of stale entries is right, and a taken name changes nothing |
| Resolve.EscapedIsLiteral | crates/rqmd-core/src/db.rs:456-460 | an escaped text, as a LIKE pattern, matches exactly the texts equal to it up to ASCII case |
| Resolve.SuffixArm | crates/rqmd-core/src/db.rs:581-612 | the LIKE arm holds if and only if the needle follows some slash up to ASCII case, whatever wildcards it contains |
| Resolve.SchemesAreStripped | crates/rqmd-core/src/resolve.rs:86-103 | however often `rqmd://` precedes an entry, it goes |
| Resolve.EntryStandsFor | crates/rqmd-core/src/resolve.rs:86-103 | `#` and a hash stand for the document the lookup gives, an entry with one of `*?[{` for what its glob matches, any other for the documents whose path or `collection/path` is the entry or ends in it after a slash |
| Resolve.LookupIsClause | crates/rqmd-core/src/resolve.rs:63-75 | the two map lookups find exactly the documents the four-arm clause matches |
| Resolve.BuildIndex | crates/rqmd-core/src/resolve.rs:43-60 | the maps list under every text exactly the documents it is a key or slash suffix of |
| Resolve.Count | crates/rqmd-core/src/resolve.rs:63-75 | the number of documents the clause matches, each once |
| Resolve.SortedOnceIs | crates/rqmd-core/src/db.rs:565-573 | sorting by (collection, path) and dropping repeated ids gives each row once in table order |
| Resolve.FindByNeedles | crates/rqmd-core/src/db.rs:549-573 | batches of 250 merged equal one query over all needles |
| Resolve.ResolveMultiGet | crates/rqmd-core/src/resolve.rs:179-307 | the documents are exactly those some entry stands for, each once, in order; the report lists each entry that matched nothing and each plain entry that matched several with its number, each once and in the order written; it fails exactly past 5000 distinct plain entries and, short of that, when some glob does not compile |
| CjkBigrams.RunIsMaximal | crates/rqmd-core/src/cjk_tokenizer.rs:101-125 | a run is uniform and cannot be extended |
| CjkBigrams.FlushRun | crates/rqmd-core/src/cjk_tokenizer.rs:128-145 | a run of several CJK characters gives its overlapping pairs, any other one piece, by byte offsets |
| CjkBigrams.Split | crates/rqmd-core/src/cjk_tokenizer.rs:101-125 | the loop gives the pieces of the maximal runs in order |
| CjkBigrams.CjkBigramStream.Advance | crates/rqmd-core/src/cjk_tokenizer.rs:63-78 | each call takes the next token of the remaining stream, and reports the end only when nothing remains |
| CjkBigrams.Drain | crates/rqmd-core/src/cjk_tokenizer.rs:63-78 | the stream is the concatenation of the splits of the inner tokens, renumbered |
| CjkBigrams.StreamOffsets | crates/rqmd-core/src/cjk_tokenizer.rs:89-97 | offsets slice the document to each token's text when the inner ones do, and positions are 0, 1, 2, ... |
| CjkBigrams.OffsetsCountBytes | crates/rqmd-core/src/cjk_tokenizer.rs:128-145 | offsets count bytes of UTF-8 (section 3 of RFC 3629) |
| CjkSearch.SubstringIsFound | crates/rqmd-core/src/cjk_tokenizer.rs:1-8 | every CJK substring of at least two characters of any inner token is found: its tokens stand at consecutive positions of the stream |
| CjkSearch.SearchIsExactIff | crates/rqmd-core/src/cjk_tokenizer.rs:128-145 | for any list of runs, the tokens of every query of two or more CJK characters stand exactly at the positions where a run contains it, if and only if no two neighbouring runs agree in last and first character |
| CjkSearch.PhraseIsFoundIff | crates/rqmd-core/src/cjk_tokenizer.rs:101-145 | in any stream such a query is found if and only if it occurs in a run or in consecutive runs that agree, glued at the character they share |
| CjkSearch.SingleCharacterIsFoundIff | crates/rqmd-core/src/cjk_tokenizer.rs:137-140 | in any stream a single CJK character is found if and only if it is a run of its own |
| CjkSearch.TwoWordsLookLikeOne | crates/rqmd-core/src/cjk_tokenizer.rs:128-145 | two words that agree in last and first character are indexed exactly like one longer word that occurs in neither |
| Calendar.NextDayIsTomorrow | crates/rqmd-core/src/store.rs:2541-2562 | day 0 is 1970-01-01, every day number gives an existing Gregorian date, and the next number gives the next day |
| Calendar.DaysOfCivil | crates/rqmd-cli/src/format.rs:414-425 | reading a date gives back its day number |
| Calendar.DateIsRead | crates/rqmd-cli/src/format.rs:414-425 | every date that exists from 1970 on reads as the day with that date, none before 1970 is read, and before March of year 0 the subtraction falls below zero |
| Calendar.RoundTrip | crates/rqmd-cli/src/format.rs:401-427 | for every 64-bit number of seconds, parsing the formatted timestamp gives it back |
| Calendar.FormatShape | crates/rqmd-core/src/store.rs:2541-2562 | through year 9999 the text has the shape `YYYY-MM-DDTHH:MM:SSZ` (section 5.6 of RFC 3339) |
| Calendar.MinutesReadBack | crates/rqmd-cli/src/format.rs:401-413 | seconds may be missing and count as zero |
| Calendar.TextOrderIsTimeOrder | crates/rqmd-core/src/db.rs:1412 | through year 9999 timestamps compare as text if and only if they compare as times |
| Metrics.TopIsLargest | crates/rqmd-core/src/eval_metrics.rs:43-56 | the first k of a descending list have the largest sum of any k of its elements |
| Metrics.NdcgIsQuotient | crates/rqmd-core/src/eval_metrics.rs:43-56 | nDCG times the ideal sum is the ranking's sum, and nDCG is 0 when there is nothing to find |
| Metrics.DominatedScoresLess | crates/rqmd-core/src/eval_metrics.rs:20-38 | with any falling discount a dominated ranking scores less, and equal only with equal gains |
| Metrics.NdcgIsNormalized | crates/rqmd-core/src/eval_metrics.rs:43-56 | nDCG@k lies between 0 and 1 for every duplicate-free ranking, and with something to find is 1 if and only if the gains are the ideal ones |

## Left out

- Integer width of vids: the model counts without the 64-bit limit.
- Failures inside a rollback or an eviction: usearch's `remove` is taken to succeed on a writable index.
- Read-only sessions and `reload_if_stale`: sessions are writing ones.
- Recency weighting in `search_vec_multi_with` and `hybrid_query`: picks are scored by similarity alone.
- VectorSearch.SearchVecMulti: HNSW search is taken as the exact prefix of one list with distinct similarities; approximate recall is not modelled.
- Rounding of `f32` scores: fusion, search and nDCG use reals, and `Metrics` takes any positive falling discount in place of the logarithm.
- Regex break patterns, and the prefix scanned by `first_chunk`: break points are an arbitrary list.
- `index_document` inside donor runs, `purge_collection` and the rebuild clears: they ignore `prev_hash` and are not steps of `Donors`.
- EmbedListings.EmbedCollections: every embedded hash commits at once, where the run commits in batches (that delay is modelled in `VectorStore`), and errors of the index itself, which end the command, do not occur; the shortcut when nothing is pending and the sweep at the end (modelled in `Donors`) are left out.
- EmbedRuns.EmbedDocs: the same holds for the loop over one collection.
- How exclusion rules choose documents (`embed_exclusion.rs`): the excluded set is a parameter.
- Comma splitting, trimming and glob matching of `multi-get`, and the docid query: entries come trimmed; which globs compile, what they match and the docid lookup are parameters. Failing SQLite queries are left out.
- Text analysis of the full-text index: the tokens of a path are an arbitrary function, titles and bodies one text; `NFC` normalization is not modelled.
- A failing Tantivy or SQLite commit during a rename, and other processes' commits.
- Rows without a key, or with one of another model than the row's: lookups never find them and no vector is compared with them; `backfill_vector_keys` is not modelled.
- WriteLock.RunKeepsInv: when the guard of a drop cannot be taken, the directory goes in one step; other processes acting in the middle of that removal are not modelled.
- WriteLock.MutualExclusion: as for `WriteLock.RunKeepsInv`.
- WriteLock.OwnerKeepsDirectory: as for `WriteLock.RunKeepsInv`.
- WriteLock.IndexDir.TryAcquire: the method runs alone; the interleaved acquire is `LockReclaim.GoneOwnerIsReplaced`.
- Non-Unix locks, the lock's wait loop and messages, and the heartbeat's throttle: a heartbeat may happen at any time while the lock is held.
- `recall`, `percentile`, reciprocal rank and the other short metrics: they would only add easy members.
- Model calls, downloads, the CLI, the MCP server, the daemon, file walking, snippets and query parsing.
