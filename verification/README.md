# CodeTrace: verified models of its hardest parts

CodeTrace keeps a searchable index of a Git repository and reviews its pull requests. This
Dafny project models the parts of it that hold invariants and proves them for every input, every run
and every interleaving. `dafny verify dfyconfig.toml` checks all of it.

| part | files |
|---|---|
| the embedding batch and its store | `Embedding.dfy` |
| the index as tables, the two indexing runs as sequences of transactions, and their theorems | `IndexTables.dfy`, `IndexRuns.dfy`, `IndexSteps.dfy`, `IndexTheorems.dfy`, `IndexExactness.dfy`, `IndexRetries.dfy`, `IndexProgress.dfy`, `IndexContents.dfy`, `IndexStatus.dfy`, `IndexEdges.dfy`, `IndexCalls.dfy`, `IndexTargets.dfy`, `IndexAgreement.dfy` |
| the same runs as imperative code over mutable tables | `Indexer.dfy` |
| triggers, queue and worker of the index jobs | `IndexJobs.dfy` |
| the unified-diff parser, the pull-request diff and the comment router | `Text.dfy`, `UnifiedDiff.dfy`, `DiffTheorems.dfy`, `PatchTexts.dfy`, `PrDiff.dfy`, `Writeback.dfy` |
| the review row over all executions, and the webhook claim | `PrReviews.dfy`, `Webhooks.dfy` |
| syntax trees, the chunker, call attribution and the relationship walks | `SyntaxTree.dfy`, `AstChunker.dfy`, `SymbolRelationships.dfy`, `RelationshipWalks.dfy` |
| rank fusion, the file graph and review scoring | `StableSort.dfy`, `RrfMerge.dfy`, `FileGraph.dfy`, `PrEval.dfy` |
| shared records and facts | `Wrappers.dfy`, `SourceChunks.dfy`, `Sequences.dfy` |

Code that changes state is a class or a method with loops, proved equal to a specification
function; the theorems are lemmas about those functions. A crash is a number: a run owns so many more
transactions, and when they are used up nothing further happens, so a theorem about every such number covers a
crash between any two transactions. Concurrent parties are steps of a state machine, and a
theorem about every sequence of steps covers every interleaving.

## What the proofs brought out

- An incremental run does not leave the edges of a full one. Re-chunking a file deletes its chunks with the edges at
  both ends, and only edges that start in files of this run are inserted again, resolved over the rows of this run.
  `CallsAgreeIff` says exactly when the calls of a commit go where a full run sends them. A call of an untouched file
  disappears when its target was in a changed file (`CallIntoChangedFileIsLost`), also when the new target is in an
  untouched one (`RetargetedCallIsLost`), and stays external when the commit defines its target for the first time
  (`NewDefinitionStaysExternal`). A call of a changed file becomes external when only untouched files define its target
  (`CallOutOfChangedFileIsExternal`), and can go into another file when both kinds do (`ChangedCallGoesElsewhere`).
- A changed path that is still found on disk without being a regular file keeps its old row: a link is skipped before
  the delete branch, a directory exists but is not listed as a file, and a path below a linked directory exists but is
  never visited. Moving a directory and leaving a link under its old name is such a commit
  (`LinkedDirectoryKeepsOldRows`). `IncrementalRefinesFull` says that no file or chunk goes wrong otherwise.
- The fallback re-walk deletes nothing. `FallbackIsExactIff` gives the exact condition.
- Retries after a crash are safe for one head only (`RetriesConverge`). Under another head a file can lose its row or its
  chunks (`FileWithChunksIff`), and a file that only the first head had can keep a row (`StrayRowIff`).
  `MovedHeadIff` gives the exact condition.
- `str(None)` is the text "None": a top-level call gets an edge from a chunk of that name, if the file has one (`TopLevelEdgeIff`).
- The comment in `symbol_relationships.py` says that the innermost chunk is found. With equal line spans it is the outermost of them (`OneLineCallGoesToTheClass`), and a shorter chunk on the same line, such as an arrow function
  before the call, takes it from the enclosing one (`SiblingTakesTheCall`). `InnermostIff` gives the exact condition.
- A failure after the INDEXED commit can put two jobs to work at once, and a throwing enqueue call strands the
  repository in PENDING (`LateFailureGivesTwoLiveJobs`, `StrandedForever`).
- A review can reach GitHub twice if a reply is lost, recording that fails, and the row is then marked FAILED (`AtMostOncePreservedIff`).
- A webhook event whose handler and release both fail is never handled again (`ClaimIsForever`).
- Rank fusion would stop keeping keyword hits first at 71 rows, and shared hits first at 42, from the present 20.

## Assumptions

- A commit is a map from paths to entries. `chunk_file`, `extract_relationships`, `should_exclude`, the extension table and the
  hash are arbitrary functions in the indexing model, the same for all runs; the hash is injective only where vectors are paired with contents.
- The walk lists every regular file outside a ".git" root once. Links may or may not be listed.
- The diff names at least every path whose regular file differs, as git's does without rename detection; theorems that
  need this say so. What it says about links, directories and submodules does not matter.
- Both chunk columns of `symbol_relationships` cascade, as `backend/prisma/schema.prisma` declares.
- The embedding provider and GitHub are arbitrary functions of the call number; "in order, at most one vector a
  text" is assumed only for the pairing theorems.
- The chunks of one file row carry its one path, and file ids hold no ">", as uuids do not; the graph theorems require it.
- Syntax trees are arbitrary; nested line ranges are assumed only where a theorem requires `WellFormed`.
- Numbers are unbounded integers and exact reals.

## Model

| member | source | states |
|---|---|---|
| IndexExactness.FullIndexingHeals | worker/src/indexing/full_index.py:75-288 | After any history of full and incremental runs, each cut off between any two transactions, with any diff and any provider answers, a full run that finishes leaves exactly the eligible files of its commit, each with its hash, its size and exactly its chunks. |
| IndexExactness.IndexingFromTheStart | backend/src/modules/repositories/services/repository.service.ts:33-48 | In particular from a newly connected repository on, whatever other repositories have put into the store: valid tables after every history, and the exact index after a full run that finishes. |
| IndexContents.StoredChunksAreTheirOwn | worker/src/indexing/full_index.py:157-180 | After any history of runs and crashes from a newly connected repository on, with in-order providers, an injective hash and a shared store that was sound before: every stored chunk has the hash of its own text and the language of its path, and the vector under that hash is the vector of its own text. |
| IndexContents.EveryRunLabels | worker/src/indexing/full_index.py:157-170 | However a run ends, every stored chunk has the hash of its text, the settings' model version and the language of its path. |
| IndexContents.HistoryLabels | worker/src/indexing/incremental_index.py:236-249 | The same over every history of full and incremental runs, from any tables of which it holds. |
| IndexContents.HistoryIsSound | worker/src/embedding/batcher.py:87-89 | And over every such history, with in-order providers and an injective hash, a store whose vectors are those of the texts with their hashes stays so. |
| IndexExactness.IncrementalRefinesFull | worker/src/indexing/incremental_index.py:107-249 | From the exact index of the old commit and a diff that names every differing file, a finished incremental run leaves the exact index of the new commit if and only if no indexed path is still found on disk without being a regular file: a link that resolves, a directory, or a path below a linked directory. |
| IndexExactness.LinkedDirectoryKeepsOldRows | worker/src/indexing/incremental_index.py:126-140 | Where it fails: a file below a directory that became a link to its new place is in the diff and is found through the link, so its row and chunks stay. |
| IndexExactness.MovedDirectoryIsNotExact | worker/src/indexing/incremental_index.py:126-140 | The smallest such commit, with its two trees and its diff. |
| IndexExactness.IncrementalAgreesWithFull | worker/src/indexing/incremental_index.py:107-249 | Under the condition of IncrementalRefinesFull it agrees with any finished full run of the new commit: the same paths, and at each path the same hash, size, language and chunks, although row ids, walk order and provider answers may differ. |
| IndexExactness.FullRunExactAt | worker/src/indexing/full_index.py:123-151 | From any valid tables, a finished full run is exact at every path. |
| IndexExactness.IncrementalExactAt | worker/src/indexing/incremental_index.py:150-230 | A finished incremental run is exact at a path if and only if it acts on the path or the index already agreed with the new tree there. |
| IndexExactness.IncrementalKeepsTheRest | worker/src/indexing/incremental_index.py:159-168 | A path on which an incremental run does not act keeps its row and its chunks, whether the run finishes or dies anywhere. |
| IndexExactness.FallbackIsExactIff | worker/src/indexing/incremental_index.py:113-116 | When the diff fails the run walks every file and deletes none: the result is exact if and only if every indexed path is still a regular file. |
| IndexExactness.HistoryKeepsInv | worker/src/indexing/full_index.py:123-151 | Over every history of runs and crashes the tables stay consistent and every file row is an eligible path of the commit it is stamped with. |
| IndexExactness.RetriesConverge | worker/src/indexing/incremental_index.py:107-349 | Crashed attempts change nothing in the outcome at a path, as long as the last attempt acts on the paths that earlier ones acted on; attempts that see one head always meet this. |
| IndexExactness.MovedHeadLosesFile | worker/src/indexing/incremental_index.py:126-140 | A file that a dead attempt deleted, and that the next head has again as in the base, stays missing from the finished index. |
| IndexRetries.MovedHeadIff | worker/src/indexing/incremental_index.py:126-230 | Why retries need the same head, exactly: at a path that the finishing attempt need not touch, the finished index is right if and only if the dead attempt had not acted on the path, or what its action leaves there is right under the new head: no row where it deleted or purged, a row of that content without chunks where it upserted. |
| IndexRetries.FileWithChunksIff | worker/src/indexing/incremental_index.py:197-230 | So a file with chunks is right if and only if the dead attempt had not yet deleted, purged or rewritten it. |
| IndexRetries.StrayRowIff | worker/src/indexing/incremental_index.py:197-230 | And a path that the new head has no indexable file for has a row in the finished index if and only if the dead attempt had upserted it. |
| IndexRetries.ActedJobLeaves | worker/src/indexing/incremental_index.py:197-230 | A dead attempt leaves a path on which it has acted without a row, or, where it upserted the file, with the row of that content and no chunks. |
| IndexRetries.UnactedJobKeeps | worker/src/indexing/incremental_index.py:126-230 | A dead attempt leaves every other path as it was. |
| IndexExactness.AttemptsKeepTheRest | worker/src/indexing/incremental_index.py:159-168 | Any number of attempts leave alone each path on which none of them acts. |
| IndexExactness.DeadRunKeepsBase | worker/src/indexing/incremental_index.py:338-345 | Only the last transaction moves the indexed commit, so a retry after a crash diffs against the same base. |
| IndexTheorems.EveryRunKeepsInv | worker/src/indexing/full_index.py:178-288 | However a run ends, unique paths and ids, every foreign key (chunk to file, chunk to embedding, edge to chunk at both ends) and the exclusive edge target hold afterwards. |
| IndexStatus.StatusTells | worker/src/indexing/full_index.py:75-288 | A run leaves the status of the last status write that it committed, in the order of the job protocol, and it finishes exactly with the fifth. |
| IndexStatus.CountersTell | worker/src/indexing/full_index.py:282-288 | After a finished run files_indexed is the number of files that it indexed; a full run leaves that many file rows and sets chunks_indexed to the number of chunks, an incremental run leaves chunks_indexed alone. |
| IndexStatus.FullRunKeepsRows | worker/src/indexing/full_index.py:275-288 | A full run that dies has deleted no file row, and none gives an existing row a new id. |
| IndexStatus.DiffDecides | worker/src/indexing/incremental_index.py:107-141 | What the incremental run makes of its base and its diff: with both, the exact index if and only if no indexed path lingers; without one of them, if and only if every indexed path is still a regular file. |
| IndexTheorems.EmbedStep | worker/src/indexing/full_index.py:178-180 | When the batch has finished, the embedding of every collected chunk is in the store, so no later chunk insert can violate its foreign key. |
| IndexTheorems.StoreStep | worker/src/indexing/full_index.py:213-288 | The last transaction keeps the tables valid and leaves at each path either the walked row with its new chunks or, for a stale row of a full run, nothing. |
| IndexTheorems.AliveWalk | worker/src/indexing/incremental_index.py:152-249 | What a walk that survives has done to one path, for walked and unwalked, changed and unchanged, eligible and excluded paths alike. |
| IndexTheorems.PrepareStep | worker/src/indexing/incremental_index.py:118-141 | Before the walk exactly the changed paths that no longer exist lose their rows; every other path and the indexed commit are untouched. |
| IndexSteps.UpsertStep | worker/src/indexing/full_index.py:123-151 | The upsert keeps the invariant, stamps the row with the commit, clears exactly that file's chunks and leaves every other path alone, whether the row existed or not. |
| IndexSteps.MakeRowsMeaning | worker/src/indexing/full_index.py:157-170 | The collected rows of a file are its chunks in order, each with the next unused id, the language of the path, the hash of its text and the model version, and nothing for any other file. |
| IndexSteps.UntouchedByWalk | worker/src/indexing/incremental_index.py:159-168 | A path that the walk skips keeps its row and chunks through any prefix of the walk. |
| IndexTables.DeleteFilesKeepsValid | backend/prisma/schema.prisma:117-147 | Deleting file rows with its cascades leaves no dangling chunk or edge and keeps every other invariant. |
| IndexTables.DeleteChunksKeepsReferences | backend/prisma/schema.prisma:192-202 | Deleting a file's chunks cascades to the edges at both ends, so the remaining edges still point at chunks. |
| IndexProgress.OneGoodRunHeals | worker/src/indexing/full_index.py:75-288 | So one full run heals any history of crashes, given a provider that answers every block within its five attempts and a worker that survives six transactions, one for each walked file and one for each chunk. |
| IndexProgress.RunFinishes | worker/src/indexing/incremental_index.py:83-349 | With such a provider and so many transactions a run of either kind finishes, from any tables. |
| IndexProgress.BatchFinishes | worker/src/embedding/batcher.py:45-91 | The batch then ends without an error and uses at most one transaction a chunk. |
| IndexProgress.WalkSpends | worker/src/indexing/full_index.py:75-170 | The walk uses at most one transaction a file and collects exactly the chunks of the files that it indexes. |
| IndexEdges.FullRunEdges | worker/src/indexing/full_index.py:240-263 | After a finished full run an edge is stored if and only if it is the edge of a relationship extracted from an eligible file: from that file's last chunk of the caller's name, to the file's last chunk of the target's name, else the run's last, else external, with exactly one of the two targets set. |
| IndexEdges.FullRunReplacesEverything | worker/src/indexing/full_index.py:275-288 | After a finished full run the chunk and edge tables hold this run's rows and nothing older, and chunks_indexed is their number. |
| IndexEdges.OldEdgeSurvivesIff | worker/src/indexing/incremental_index.py:203-209 | An old edge survives a finished incremental run if and only if the run acts on the file of neither end. |
| IndexEdges.IncrementalRunEdges | worker/src/indexing/incremental_index.py:288-336 | All edges after a finished incremental run: the old ones whose ends both lie in files that it leaves alone, and those of the relationships of the files that it indexes, resolved over the rows of this run only. |
| IndexCalls.CallIntoChangedFileIsLost | worker/src/indexing/incremental_index.py:203-209 | A call from an untouched file whose target is defined only in files on which the run acts, before and after: a full run of the new commit stores an internal edge for it, and the incremental run stores no edge that records it. |
| IndexCalls.CallOutOfChangedFileIsExternal | worker/src/indexing/incremental_index.py:286-336 | A call from a changed file whose target only untouched files define: a full run stores an internal edge for it, and every edge that the incremental run stores for it is external; ChangedCallInternalIff adds the other direction. |
| IndexCalls.CallKeptIff | worker/src/indexing/incremental_index.py:203-209 | Exactly when a relationship of an untouched file still has an edge: when the old index resolved it to no chunk, or to one in a file that the run leaves alone. |
| IndexCalls.NoEdgeIsLostIff | worker/src/indexing/incremental_index.py:203-209 | No edge out of the files that the run leaves alone is lost if and only if none of them points into the others. |
| IndexCalls.NoEdgeCrosses | worker/src/indexing/incremental_index.py:286-336 | After a finished incremental run no internal edge joins a file that the run leaves alone with one on which it acts. |
| IndexCalls.FullIndexRecords | worker/src/indexing/full_index.py:240-263 | A full index has an internal edge for every relationship whose caller is a chunk of its file and whose target some file defines. |
| IndexCalls.FullRunIndexesFully | worker/src/indexing/full_index.py:75-288 | A finished full run leaves the exact files and chunks and exactly their edges. |
| IndexCalls.EdgeIffCallerIsChunk | worker/src/indexing/full_index.py:240-263 | A full index has an edge for a relationship of an eligible file if and only if the caller's name is that of a chunk of the file. |
| IndexCalls.TopLevelEdgeIff | worker/src/indexing/full_index.py:242-245 | A relationship without a caller has an edge if and only if a chunk of its file is called "None", and the edge starts there. |
| IndexAgreement.CallsAgreeIff | worker/src/indexing/incremental_index.py:197-336 | Over the index of a full run, with a diff that names every differing file, the calls of the new commit go into the same files as after a full run if and only if each call of a changed file is resolved alike over the files of this run and over all files, and each call of an untouched file is resolved as in the old commit, into an untouched file or into none. |
| IndexAgreement.ResolutionsAgreeIff | worker/src/indexing/incremental_index.py:286-336 | With the same walk a call of a changed file is resolved alike if and only if the file that the full run finds is none, the caller's own, or one on which the incremental run acts. |
| IndexAgreement.ChangedCallAgreesIff | worker/src/indexing/incremental_index.py:286-336 | A call of a changed file has the edges of a full run if and only if the two runs resolve it alike, from any old index. |
| IndexAgreement.UntouchedCallAgreesIff | worker/src/indexing/incremental_index.py:203-209 | A call of an untouched file has them if and only if the old and the new commit resolve it alike, into none or into a file on which the run does not act. |
| IndexAgreement.ChangedCallInternalIff | worker/src/indexing/incremental_index.py:286-336 | A call of a changed file is internal after the run if and only if some file on which the run acts defines its target. |
| IndexAgreement.UntouchedCallInternalIff | worker/src/indexing/incremental_index.py:203-209 | A call of an untouched file is internal after the run if and only if it was before, into an untouched file; from any old index. |
| IndexAgreement.KeptInternalIff | worker/src/indexing/incremental_index.py:203-209 | Over the index of a full run: if and only if that resolved it into a file which the run leaves alone. |
| IndexAgreement.NewDefinitionStaysExternal | worker/src/indexing/incremental_index.py:286-336 | A call of an untouched file whose target the commit defines for the first time: a full run stores an internal edge, and after the incremental run it is still external. |
| IndexAgreement.RetargetedCallIsLost | worker/src/indexing/incremental_index.py:203-209 | A call whose target moves from a changed file to an untouched one: a full run joins two untouched files, and the incremental run stores no edge. |
| IndexAgreement.ChangedCallGoesElsewhere | worker/src/indexing/incremental_index.py:286-336 | A call of a changed file whose target is defined in a changed file and later in an untouched one: the two runs store internal edges into different files. |
| IndexTargets.FullEdgeGoes | worker/src/indexing/full_index.py:240-263 | After a finished full run a relationship with a known caller has an edge into exactly one place: the caller's own file if that defines the target, else the last walked file that is indexed and defines it, else outside. |
| IndexTargets.ChangedEdgeGoes | worker/src/indexing/incremental_index.py:286-336 | The same for a changed file after a finished incremental run, with the files of this run only. |
| IndexTargets.UntouchedEdgeGoes | worker/src/indexing/incremental_index.py:203-209 | A file that the run leaves alone keeps exactly those edges that do not go into a file on which it acts, from any old index. |
| IndexTargets.WalkFollows | worker/src/indexing/full_index.py:152-170 | The last collected row of a name belongs to the last walked file that is indexed and defines it; there is none if and only if no such file does. |
| IndexEdges.LookupMeaning | worker/src/indexing/full_index.py:235-238 | The two symbol maps answer exactly for the names that are defined, with the last definition in the file or in the run. |
| IndexEdges.ResolveMeaning | worker/src/indexing/full_index.py:240-263 | The edges inserted for a run are exactly those that the declarative rule gives for its relationships. |
| IndexEdges.OneEdgeMeaning | worker/src/indexing/full_index.py:242-261 | One relationship gives the edge that the rule describes, and none if its caller has no chunk in the file. |
| IndexEdges.DeleteChunksEdges | backend/prisma/schema.prisma:192-202 | A delete removes an edge exactly when it would dangle. |
| IndexEdges.SweepKeepsOnlyRows | worker/src/indexing/full_index.py:275-280 | The sweep removes every chunk and edge that was there before the run and none that the run inserted. |
| Indexer.RunFullIndex | worker/src/indexing/full_index.py:75-288 | The imperative run over mutable tables, symbol maps and row lists does exactly the transactions of the specified full run, in order, for every number of transactions after which the worker dies, and keeps every stored chunk under the hash and the vector of its own text. |
| Indexer.RunIncrementalIndex | worker/src/indexing/incremental_index.py:107-349 | The same for the incremental run, from its diff to its last transaction. |
| Indexer.WalkFull | worker/src/indexing/full_index.py:75-170 | The full walk loop computes the specified walk: tables, collected rows, relationship lists and counter. |
| Indexer.WalkIncremental | worker/src/indexing/incremental_index.py:152-249 | The incremental walk loop with its skips, exclusion deletes and upserts computes the specified walk. |
| Indexer.InsertEdges | worker/src/indexing/full_index.py:240-263 | The edge loop over the two dictionaries appends exactly the resolved edges. |
| Indexer.InsertRows | worker/src/indexing/full_index.py:213-238 | The chunk loop appends the rows in order and fills both dictionaries with the last id of each name. |
| Indexer.Store | worker/src/indexing/full_index.py:215-288 | The last transaction: chunks, edges, sweep and repository row together. |
| Indexer.UpsertFull | worker/src/indexing/full_index.py:123-151 | Insert or update of the file row, then the delete of its chunks. |
| Indexer.UpsertIncremental | worker/src/indexing/incremental_index.py:197-230 | Lookup, then either chunk delete and update (keeping the stored language) or insert. |
| Indexer.Database.DeleteGone | worker/src/indexing/incremental_index.py:126-140 | Row by row in one transaction, all changed paths that no longer exist lose their rows. |
| Indexer.Database.InsertChunk | backend/prisma/schema.prisma:123-147 | A chunk insert whose file or embedding row is missing cannot be issued. |
| Indexer.Database.InsertEdge | backend/prisma/schema.prisma:192-202 | An edge insert whose chunks are missing cannot be issued. |
| Embedding.TotalCountForcesPairing | worker/src/embedding/batcher.py:79-85 | If each answer holds at most one vector a text, in order, then the single total-count check forces every sub-batch to be complete and every vector to be that of its own text. |
| Embedding.StoredVectorsAreTheirOwn | worker/src/embedding/batcher.py:87-89 | With such a provider and an injective hash, every stored vector is the embedding of the content with that hash, also when the worker dies between two upserts. |
| Embedding.FinishedBatchCoversAll | worker/src/embedding/batcher.py:45-91 | A finished batch leaves every hash of the batch in the store and reports a hit for exactly the hashes that were there before; no entry is ever lost or changed. |
| Embedding.FailureStoresNothing | worker/src/embedding/batcher.py:69-85 | The batch raises exactly on a provider failure or a count mismatch, and then nothing is stored. |
| Embedding.CallsAreBounded | worker/src/embedding/batcher.py:18-42 | At most five provider calls for each started block of twenty texts. |
| Embedding.LifeIsSpent | worker/src/embedding/batcher.py:87-91 | Each new entry costs one transaction: a finished batch has paid for every missing hash, a killed one with all it had left, a failed one nothing. |
| Embedding.FullSelection | worker/src/embedding/batcher.py:70-85 | An in-order selection is never longer than its texts, and one of equal length misses none. |
| Embedding.ToEmbedIsExact | worker/src/embedding/batcher.py:59-67 | The dictionary holds every uncached hash of the batch exactly once, with a content from the batch, and no other hash. |
| Embedding.UpsertsOnlyAdd | worker/src/embedding/cache.py:22-34 | Upserts add exactly the given hashes and never change an existing entry. |
| Embedding.HitsAreCached | worker/src/embedding/batcher.py:61-65 | The result marks a hash as hit exactly when it is in the batch and was cached. |
| Embedding.Retry | worker/src/embedding/batcher.py:23-35 | Only 429 is retried, at most five times in all, and the last answer is the one returned or raised. |
| Embedding.EmbedWithRetry | worker/src/embedding/batcher.py:23-35 | At most five requests, all with the same texts; each but the last was answered 429, the last answer is returned, and a final 429 means five requests. |
| Embedding.EmbedBatchChunked | worker/src/embedding/batcher.py:38-42 | Blocks of twenty from the start, each sent again only after a 429; the answered requests together are all texts in order and their vectors the result, or the last request failed and nothing was sent after it. |
| Embedding.EmbedAndStoreBatch | worker/src/embedding/batcher.py:45-91 | For every number of upserts after which the worker dies: at most twenty missing texts a request, no request without missing hashes; it raises exactly when the last answer is a failure or the vectors of all answers are not one for each missing hash. |
| Embedding.Cache.GetCachedContentHashes | worker/src/embedding/cache.py:5-19 | Exactly the queried hashes that are stored for the model version. |
| IndexJobs.StepKeepsInvIff | backend/src/modules/indexing/services/index-job.service.ts:16-49 | One step of any party keeps the protocol invariant if and only if it is not one of three faults: an enqueue call that throws, a FAILED write lost before INDEXED, or a failure after INDEXED with another attempt or job to come. |
| IndexJobs.AtMostOneLiveJob | backend/src/modules/indexing/services/index-job.service.ts:21-40 | Over every interleaving of triggers, status reads, swaps, worker steps and failed attempts without such a fault, at most one job is live and the status is non-terminal exactly while one is. |
| IndexJobs.AtMostOneLiveJobFromTheStart | backend/src/modules/repositories/services/repository.service.ts:33-67 | In particular from a newly connected repository on. |
| IndexJobs.JobsEnd | worker/src/queue_consumer.py:14-50 | Each job gets at most 24 worker steps in any run, faults included, and its attempt count is the number of attempts that threw. |
| IndexJobs.DeadOnlyAfterEveryAttempt | worker/src/queue_consumer.py:53-71 | The queue gives a job up only after exactly three attempts threw, and completes it after at most two did. |
| IndexJobs.FailedOnlyAfterEveryAttempt | worker/src/queue_consumer.py:38-50 | In any run from a connected repository, faults included, the repository is FAILED only if three attempts of one job threw in this run or the first enqueue failed. |
| IndexJobs.IndexedOnlyAfterAFullAttempt | worker/src/indexing/full_index.py:282-288 | And it is INDEXED only if some attempt of the run made all its status writes. |
| IndexJobs.ThrownInRun | worker/src/queue_consumer.py:53-71 | The attempts that a job has used are those that threw in the run, also for jobs that the run creates. |
| IndexJobs.QuiescentIsTerminal | worker/src/queue_consumer.py:38-50 | When no party has a step left, no job is live and the repository is INDEXED or FAILED. |
| IndexJobs.LateFailureGivesTwoLiveJobs | worker/src/indexing/full_index.py:282-300 | If the usage log fails after INDEXED is committed, the retried job and a newly triggered one are live together. |
| IndexJobs.TwoJobsIsReachable | backend/src/modules/indexing/services/index-job.service.ts:51-55 | The state in which that happens is reached from a newly connected repository by nine ordinary steps. |
| IndexJobs.StrandedForever | backend/src/modules/indexing/services/index-job.service.ts:42-46 | Once an enqueue call has thrown, no sequence of steps changes the non-terminal status again. |
| IndexJobs.ThrowingEnqueueStrands | backend/src/modules/indexing/services/index-job.service.ts:42-46 | A throwing enqueue of a re-index leads to such a state, unlike the connect path, which rolls back. |
| IndexJobs.EnqueueStep | backend/src/modules/repositories/services/repository.service.ts:56-64 | Enqueuing keeps the invariant, and so does the rollback of a failed first enqueue. |
| IndexJobs.Shared.CreateIndexJob | backend/src/modules/indexing/services/index-job.service.ts:16-40 | Guard and compare-and-swap as one protocol step; it creates a job exactly when the read status was terminal and is still the stored one. |
| IndexJobs.Shared.LoadStatus | backend/src/modules/indexing/services/index-job.service.ts:51-54 | The status that a trigger acts on is the stored one at the time of the read. |
| IndexJobs.Shared.EnqueueIndexJob | backend/src/modules/indexing/services/index-job.service.ts:42-46 | A working enqueue hands the trigger's job to the queue. |
| IndexJobs.Shared.ProcessJob | worker/src/queue_consumer.py:14-71 | One attempt is a run of the protocol for every number of status writes, for success and failure, on the last attempt and before, with and without a lost FAILED write, also after INDEXED, and leaves what AttemptEnds says. |
| IndexJobs.AttemptEnds | worker/src/queue_consumer.py:14-71 | An attempt leaves its job completed or one throw further, and given up after the third; the status of its last write, or FAILED after the third throw; and no other job or trigger touched. |
| DiffTheorems.RoundTrip | backend/src/modules/pr-review/services/github-diff.service.ts:19-72 | Parsing any printed list of well-formed ascending hunks gives one range for each hunk with new lines; the position map's keys are exactly the lines in the ranges, positions rise with the line number, and the patch line at each position is that line of the new file. |
| PatchTexts.ParseTells | backend/src/modules/pr-review/services/github-diff.service.ts:19-72 | On every text at all: one range for each header line with new lines, in order; and a line number has position p if and only if p is the last shown line with that number, counted from the last header before it. |
| PatchTexts.HeaderIff | backend/src/modules/pr-review/services/github-diff.service.ts:4 | The header pattern matches with this start and count if and only if the line has that form: two ranges of digit runs, the count 1 where it is left out. |
| PatchTexts.KindsIff | backend/src/modules/pr-review/services/github-diff.service.ts:26-63 | The branches of the loop: a line is a header, a shown line, or neither (empty, or led by a minus or a backslash). |
| DiffTheorems.ParsedPositionIff | backend/src/modules/pr-review/services/github-diff.service.ts:65-68 | In a parsed printed patch line l has position p if and only if p is the place of the hunk line that shows l. |
| DiffTheorems.TrailingNewlineIsHarmless | backend/src/modules/pr-review/services/github-diff.service.ts:56-63 | A newline at the end of the patch changes nothing in the result. |
| DiffTheorems.OneFileConserves | backend/src/modules/pr-review/services/pr-review.service.ts:236 | The line count of a file's ranges equals the size of its position map. |
| DiffTheorems.PositionsRise | backend/src/modules/pr-review/services/github-diff.service.ts:40-69 | Positions rise strictly with line numbers within and across hunks. |
| DiffTheorems.PositionsShow | backend/src/modules/pr-review/services/github-diff.service.ts:65-68 | Each position is that of the context or added line with the new file's text; deletions and no-newline markers shift nothing. |
| DiffTheorems.PositionKey | backend/src/modules/pr-review/services/github-diff.service.ts:65-68 | A line is a key of the map if and only if some hunk covers it. |
| UnifiedDiff.HeaderRoundTrip | backend/src/modules/pr-review/services/github-diff.service.ts:4-36 | The header pattern, read character by character, gives back the start and count of every printed header, in the long form and in the form without a count. |
| UnifiedDiff.ScanPrinted | backend/src/modules/pr-review/services/github-diff.service.ts:4 | One range of a header is scanned back, with its default count of 1. |
| UnifiedDiff.ParseUnifiedDiff | backend/src/modules/pr-review/services/github-diff.service.ts:19-72 | The loop over the lines with its mutable line counter computes the specified parse. |
| UnifiedDiff.ParseLine | backend/src/modules/pr-review/services/github-diff.service.ts:26-69 | Each branch of the loop body acts as the classified line demands. |
| Text.SplitJoin | backend/src/modules/pr-review/services/github-diff.service.ts:20 | Splitting a joined text at newlines gives its lines back. |
| Text.JoinSplit | backend/src/modules/pr-review/services/github-diff.service.ts:20 | And joining the lines of any text gives it back, no line holding a newline. |
| Text.ParseDecimal | backend/src/modules/pr-review/services/github-diff.service.ts:31-32 | parseInt of the decimal digits of a number is that number. |
| PrDiff.GetPrDiff | backend/src/modules/pr-review/services/github-diff.service.ts:113-133 | For any files: the ranges of all files that are not removed and have a patch, one file after the other, and for each path the positions of its last such file. |
| PrDiff.DiffHolds | backend/src/modules/pr-review/services/github-diff.service.ts:113-133 | A file that is not removed and has a printed patch has exactly the ranges and positions of its hunks. |
| PrDiff.DiffHoldsNoOther | backend/src/modules/pr-review/services/github-diff.service.ts:125-130 | A removed file, one without a patch and any other path have no range and no map. |
| PrDiff.LinesChangedIsMapSize | backend/src/modules/pr-review/services/pr-review.service.ts:236 | For well-formed patches over distinct paths, linesChanged is the number of new-file lines that the hunks of the files that are not removed show, and the total size of all position maps. |
| PrDiff.ChunkSelectedIff | backend/src/modules/pr-review/services/diff-analyzer.service.ts:10-30 | A stored chunk of a file that is not removed and has a printed patch is selected if and only if a hunk of the patch shows one of its lines. |
| PrDiff.SelectedMeaning | backend/src/modules/pr-review/services/diff-analyzer.service.ts:10-30 | The collected list holds exactly the chunks that overlap some range of their file. |
| PrDiff.MapChangedLinesToChunks | backend/src/modules/pr-review/services/diff-analyzer.service.ts:4-31 | The nested loops compute that list in order. |
| PrDiff.OverlapIff | backend/src/modules/pr-review/services/diff-analyzer.service.ts:17-23 | Interval overlap with some range is the same as having a shown line. |
| Writeback.CommentsAreAnchored | backend/src/modules/pr-review/services/github-writeback.service.ts:58-93 | End to end: a finding has an inline comment if and only if it is cited where it is and the patch of its file has its line; the comment stands in its place, on the finding's file, at the position of the finding's line in that patch, with its category and explanation; every other finding is an entry of the summary, in its place. |
| Writeback.AnchorableIff | backend/src/modules/pr-review/services/github-writeback.service.ts:66-82 | A finding can be anchored if and only if its citation is in its own file and range and a file of the diff that is not removed has its line in the patch. |
| Writeback.PartsAreRouted | backend/src/modules/pr-review/services/github-writeback.service.ts:61-93 | Each finding is routed once: to its comment or to its summary entry, in the place that the earlier ones of its kind leave it. |
| Writeback.SummaryMeaning | backend/src/modules/pr-review/services/github-writeback.service.ts:17-42 | The summary is the headline with level and score, an empty line, the risk factors with their points, and one line with category, file, line and explanation for each finding without an anchor. |
| Writeback.ShowIntMeaning | backend/src/modules/pr-review/services/github-writeback.service.ts:37 | The line number in an entry reads back as the finding's line, also if it is negative. |
| Writeback.AnchoredWhereShown | backend/src/modules/pr-review/services/github-writeback.service.ts:76-82 | For a file of the diff: a finding has position p if and only if its citation is in its own file and range and p is the position of its line in the patch, which shows the line there. |
| Writeback.FindingsArePartitioned | backend/src/modules/pr-review/services/github-writeback.service.ts:84-92 | Inline comments and summary entries together are the findings, each exactly as often as it occurs. |
| Writeback.PartsAreDisjoint | backend/src/modules/pr-review/services/github-writeback.service.ts:84-92 | Comments come from findings with an anchor, summary entries from those without one. |
| Writeback.OrderIsKept | backend/src/modules/pr-review/services/github-writeback.service.ts:61-93 | Both parts keep the order of the findings. |
| Writeback.SummaryListsAll | backend/src/modules/pr-review/services/github-writeback.service.ts:34-39 | The summary ends with one entry for each finding that was not anchored, in order, with its category, file, line and explanation. |
| Writeback.OtherFilesAreNotAnchored | backend/src/modules/pr-review/services/github-diff.service.ts:125-130 | A finding about a removed file, one without a patch or a file outside the diff is never posted inline. |
| Writeback.RouteFindings | backend/src/modules/pr-review/services/github-writeback.service.ts:58-93 | The routing loop gives each finding its comment, with path, position and text, or its place among the others. |
| Writeback.BuildSummaryBody | backend/src/modules/pr-review/services/github-writeback.service.ts:17-42 | The body built line by line is the specified one. |
| Writeback.PostReviewToGitHub | backend/src/modules/pr-review/services/github-writeback.service.ts:50-119 | One call sends exactly one review: comments for the findings that can be anchored, a summary with an entry for each other one; it succeeds exactly when GitHub accepts and throws exactly on a network error. |
| PrReviews.AtMostOneAcknowledgedPost | backend/src/modules/pr-review/services/pr-review.service.ts:275-408 | Over any number of serial executions and any failure, lost reply or crash at any await: at most one post is acknowledged, and every post left while the row was COMPLETE and carried its stored findings. |
| PrReviews.AtMostOncePreservedIff | backend/src/modules/pr-review/services/pr-review.service.ts:351-364 | One execution keeps "GitHub has at most one review and will get no other" if and only if it is not the reopening one: reply lost, recording that throws, and the row then marked FAILED. |
| PrReviews.AtMostOneReceivedPost | backend/src/modules/pr-review/services/pr-review.service.ts:275-408 | Over any history without a reopening execution GitHub receives at most one review. |
| PrReviews.ReopeningLeadsToASecondPost | backend/src/modules/pr-review/services/pr-review.service.ts:397-407 | After a reopening execution an ordinary retry posts a second review. |
| PrReviews.ReopeningIsPossible | backend/src/modules/pr-review/services/pr-review.service.ts:397-407 | A first execution can be a reopening one. |
| PrReviews.CompleteIsLeftAlone | backend/src/modules/pr-review/services/pr-review.service.ts:302-304 | An execution that finds COMPLETE calls no model, posts nothing and changes nothing. |
| PrReviews.UndisturbedExecutionPosts | backend/src/modules/pr-review/services/pr-review.service.ts:325-351 | An undisturbed execution of any other row completes it with its findings and posts them once. |
| PrReviews.WithRow | backend/src/modules/pr-review/services/pr-review.service.ts:275-408 | How a job that gets the row ends, for every plan: when it returns, throws or dies; the row's status, findings and failure marks; the number of model calls and of posts. |
| PrReviews.WithoutRow | backend/src/modules/pr-review/services/pr-review.service.ts:57-82 | A job that does not get the row returns exactly if the row is COMPLETE, dies where the plan says and otherwise throws; it calls no model, posts nothing, and leaves the row unless the reply to its own claim was lost. |
| PrReviews.EvalEnds | backend/src/modules/pr-review/services/pr-review.service.ts:84-90 | The same for a review run on its own: no catch block, no post, and a row that stays RUNNING unless the save took effect. |
| PrReviews.ExecutionKeepsInv | backend/src/modules/pr-review/services/pr-review.service.ts:275-366 | Each execution keeps the safety invariant, however it ends. |
| PrReviews.Database.ProcessPrReviewJob | backend/src/modules/pr-review/services/pr-review.service.ts:275-366 | The job with its claim, pipeline and catch block has exactly the specified effect and outcome for every plan of failures. |
| PrReviews.Database.ClaimOrCreate | backend/src/modules/pr-review/services/pr-review.service.ts:57-82 | Create, or take over a row that is not COMPLETE and clear its failure marks. |
| PrReviews.Database.RunPrReview | backend/src/modules/pr-review/services/pr-review.service.ts:232-273 | The model call, the save as COMPLETE and the usage log; a failure after the save reaches the catch block. |
| PrReviews.Database.RunPrReviewAlone | backend/src/modules/pr-review/services/pr-review.service.ts:84-90 | Called on its own, it claims or creates the row itself and posts nothing. |
| PrReviews.Database.PostWriteback | backend/src/modules/pr-review/services/pr-review.service.ts:368-408 | A failed post is recorded and not rethrown, unless recording it fails. |
| Webhooks.AtMostOneHandlerAndOneSuccess | backend/src/modules/webhooks/controllers/webhooks.controller.ts:26-54 | Over every interleaving of deliveries, failures, crashes and redeliveries, two deliveries of one event never handle it together and never both succeed. |
| Webhooks.ClaimIsForever | backend/src/modules/webhooks/controllers/webhooks.controller.ts:45-51 | After a success, or after a failure whose release fails too, no other delivery of the event ever gets the claim. |
| Webhooks.RedeliveryHandlesIff | backend/src/modules/webhooks/services/idempotency.service.ts:34-48 | A delivery runs the handler if and only if no delivery of its event holds the claim. |
| Webhooks.ReleasedEventCanBeRetried | backend/src/modules/webhooks/controllers/webhooks.controller.ts:45-51 | After a released failure the next delivery of the event runs its handler. |
| Webhooks.StepKeepsInv | backend/src/modules/webhooks/services/idempotency.service.ts:34-48 | Every step keeps one holder for each claim row and one row for each holder. |
| Webhooks.DeliveryIsRun | backend/src/modules/webhooks/controllers/webhooks.controller.ts:26-54 | What one delivery does is a run of the protocol. |
| Webhooks.DeliverySettles | backend/src/modules/webhooks/controllers/webhooks.controller.ts:26-54 | Which answer goes with which fate: processed exactly after a won claim and a handler that returned, deduplicated exactly over a held claim, an error otherwise; the claim row stays exactly after a success, an unreleased failure or a lost reply; no other delivery or event is touched. |
| Webhooks.Server.PostGithubWebhook | backend/src/modules/webhooks/controllers/webhooks.controller.ts:12-55 | The controller refuses missing headers without effect; otherwise it takes exactly those steps and settles the delivery and its answer as DeliverySettles says, whether the insert works, fails or loses its reply, and however the handler and the release fare. |
| Webhooks.Server.TryClaimEvent | backend/src/modules/webhooks/services/idempotency.service.ts:34-48 | The insert under the unique key succeeds for exactly one delivery; any other error is rethrown. |
| Webhooks.Server.ReleaseClaim | backend/src/modules/webhooks/controllers/webhooks.controller.ts:45-52 | The release deletes the claim row, or leaves it when the delete fails. |
| AstChunker.Chunker.Walk | worker/src/parsing/ast_chunker.py:89-131 | The recursive walk with its threaded class name appends, on every tree, exactly the chunks that the ancestor-based specification gives, in preorder. |
| AstChunker.Chunker.AppendChunk | worker/src/parsing/ast_chunker.py:92-124 | At one node it appends the specified chunk and hands down the class that the children are in. |
| AstChunker.ChunkFile | worker/src/parsing/ast_chunker.py:134-156 | A file's chunks are those of its named chunk-type nodes, each with its name, kind, class, lines and text, in preorder; an unknown language or a tree too deep for the interpreter gives none. |
| AstChunker.ChunkIff | worker/src/parsing/ast_chunker.py:92-110 | Exactly the named chunk-type nodes have a chunk, with their name and lines, and the parent symbol is p exactly for METHOD chunks whose nearest enclosing chunk-type node is a class named p. |
| AstChunker.ChunksMeaning | worker/src/parsing/ast_chunker.py:89-131 | The list holds one chunk for each named chunk-type node of the tree, in preorder, and no other. |
| AstChunker.ChunkAtMeaning | worker/src/parsing/ast_chunker.py:40-124 | That chunk has the node's name, its kind by language and class, its class as parent, its lines and its text. |
| AstChunker.MethodIff | worker/src/parsing/ast_chunker.py:95-99 | A chunk is a METHOD if and only if its node is a method_definition, or a function directly in a named class. |
| AstChunker.OwnerIff | worker/src/parsing/ast_chunker.py:112-128 | The threaded name is p if and only if the nearest enclosing chunk-type node is a class named p. |
| AstChunker.ClosuresHaveNoParent | worker/src/parsing/ast_chunker.py:116-124 | A function inside a function or method belongs to no class, however many classes are further out. |
| AstChunker.ChunksAreThoseOfOccurrences | worker/src/parsing/ast_chunker.py:89-131 | Every chunk of a file belongs to one of its nodes, and every node with a chunk is listed. |
| AstChunker.ChunksNest | worker/src/parsing/ast_chunker.py:106-107 | A chunk inside another one lies within its lines and comes after it in the list. |
| SyntaxTree.LinesNest | worker/src/parsing/ast_chunker.py:106-107 | On a well-formed tree line ranges nest along ancestry, at any distance. |
| SyntaxTree.AncestorComesFirst | worker/src/parsing/ast_chunker.py:126-131 | In the preorder of the walks an ancestor comes before its descendants. |
| SyntaxTree.CollectMember | worker/src/parsing/ast_chunker.py:126-131 | A preorder walk collects exactly the items of the visited nodes. |
| SyntaxTree.WalkIsComplete | worker/src/parsing/ast_chunker.py:126-131 | Node by node and child by child, the recursive loops collect the whole preorder. |
| SyntaxTree.VisitsAll | worker/src/parsing/ast_chunker.py:126-131 | The preorder visits exactly the nodes that lie below the root. |
| SyntaxTree.HeightBounds | worker/src/parsing/ast_chunker.py:134-156 | No node lies deeper than the height that is held against the recursion limit. |
| SyntaxTree.HeightReached | worker/src/parsing/ast_chunker.py:134-156 | And some node lies that deep. |
| SymbolRelationships.AttributionMeaning | worker/src/parsing/symbol_relationships.py:15-28 | Sort once, then scan: a line is attributed to none if and only if no chunk covers it, and otherwise to a covering chunk of least line span, the earliest among equal spans. |
| SymbolRelationships.AttributedToOutermostOfLeastSpan | worker/src/parsing/symbol_relationships.py:120-127 | On a tree where only ancestors of the call cover its line, the call goes to the outermost enclosing chunk that has the span of the innermost one. |
| SymbolRelationships.InnermostIff | worker/src/parsing/symbol_relationships.py:15-28 | Exactly when, for every call with an enclosing chunk: the scan stops at the innermost one if and only if no other chunk of the file, outer, sibling or inside the call, covers the line with fewer lines, or with as many and an earlier place; only then does the call get its name, unless another covering chunk shares it. |
| SymbolRelationships.InnermostOccurrence | worker/src/parsing/symbol_relationships.py:15-28 | That innermost chunk is one of the file's, of an occurrence not after the call. |
| SymbolRelationships.StopsAtIff | worker/src/parsing/symbol_relationships.py:25-28 | The scan of the sorted list stops at a chunk if and only if it is the least covering one, by span and then by place. |
| SymbolRelationships.SiblingTakesTheCall | worker/src/parsing/symbol_relationships.py:25-28 | Where the innermost chunk loses: a call after a one-line arrow function on the same line goes to that sibling. |
| SymbolRelationships.InnermostAmongAncestorsIff | worker/src/parsing/symbol_relationships.py:15-28 | Where only enclosing chunks cover the line: the call goes to the innermost one if and only if no outer one has the same number of lines. |
| SymbolRelationships.AttributedToInnermost | worker/src/parsing/symbol_relationships.py:17-18 | Under strictly nested spans the call goes to its innermost named enclosing chunk. |
| SymbolRelationships.OneLineCallGoesToTheClass | worker/src/parsing/symbol_relationships.py:120-122 | Where that fails: on one line a call inside a method goes to the class. |
| SymbolRelationships.TopLevelCallHasNoSymbol | worker/src/parsing/symbol_relationships.py:25-28 | A call without a named enclosing chunk is attributed to none. |
| SymbolRelationships.FindSymbolForNode | worker/src/parsing/symbol_relationships.py:15-28 | The scan loop returns the symbol of the first covering chunk of the sorted list. |
| RelationshipWalks.ExtractRelationships | worker/src/parsing/symbol_relationships.py:112-137 | Imports in preorder followed by calls in preorder, one record for each node in its place: an import with its target and no symbol, a call with its target and the symbol of the least covering chunk; none for an unknown language or a tree that is too deep. |
| RelationshipWalks.RelationshipsAreThoseOfNodes | worker/src/parsing/symbol_relationships.py:37-109 | A relationship is recorded if and only if it is that of a node: for an import statement its module, without quotes, and no symbol; for a call its callee, with the symbol of the least chunk that covers its first line, or none if no chunk does. |
| RelationshipWalks.RelationshipsMeaning | worker/src/parsing/symbol_relationships.py:112-137 | Every occurrence of an import or of a call with a callee has its record, in the place that the earlier ones leave it, and there are no others. |
| RelationshipWalks.RecordedCallerIff | worker/src/parsing/symbol_relationships.py:88-109 | The recorded call names the innermost enclosing chunk if no other chunk of the file rivals it, and, when no other covering chunk has that name, only then. |
| RelationshipWalks.CallerIsUnique | worker/src/parsing/symbol_relationships.py:15-28 | A line has one caller only. |
| RelationshipWalks.Walker.WalkForImports | worker/src/parsing/symbol_relationships.py:37-85 | The recursive import walk appends the preorder list, for both languages' statement forms. |
| RelationshipWalks.Walker.WalkForCalls | worker/src/parsing/symbol_relationships.py:88-109 | The recursive call walk appends the preorder list of attributed calls. |
| StableSort.OrderAscends | worker/src/parsing/symbol_relationships.py:122 | A stable sort puts the elements in strictly ascending order of key and position. |
| StableSort.AscendingIsUnique | backend/src/modules/retrieval/services/rrf-merge.service.ts:34 | No other arrangement does, so stability fixes the result. |
| RrfMerge.KeywordHitsFirstIff | backend/src/modules/retrieval/services/rrf-merge.service.ts:21-34 | In identifier mode every keyword hit precedes every vector-only hit, for all rankings with ranks up to L, if and only if L is at most 70. |
| RrfMerge.SharedHitsFirstIff | backend/src/modules/retrieval/services/rrf-merge.service.ts:21-34 | In semantic mode every chunk of both lists precedes every chunk of one, for all rankings with ranks up to L, if and only if L is at most 41. |
| RrfMerge.IdentifierQueryKeepsKeywordHits | backend/src/modules/retrieval/services/retrieval.service.ts:24-51 | With the 20-row rankings of the two searches, an identifier query loses no keyword hit in the top-20 cut: every one with a row is passed on. |
| RrfMerge.SemanticQueryKeepsSharedHits | backend/src/modules/retrieval/services/retrieval.service.ts:24-51 | A semantic query loses no chunk of both lists in that cut. |
| RrfMerge.RetrievedIff | backend/src/modules/retrieval/services/retrieval.service.ts:24-51 | In both modes at most twenty rows come out: exactly the found rows of the first twenty ids. |
| RrfMerge.MergeIsTheUnion | backend/src/modules/retrieval/services/rrf-merge.service.ts:24-35 | The merged list is the duplicate-free union of the two lists with ranks 1 to n, in either mode. |
| RrfMerge.MergeIsSorted | backend/src/modules/retrieval/services/rrf-merge.service.ts:33-35 | Scores never rise along it, and equal scores stay in the order in which the vector list and then the keyword list bring them up. |
| RrfMerge.TotalIsSum | backend/src/modules/retrieval/services/rrf-merge.service.ts:8-31 | A score is the sum of 1 over constant plus rank for each list that has the chunk, with the constants 80 and 10 for identifiers and 40 and 40 otherwise. |
| RrfMerge.ScoreBounds | backend/src/modules/retrieval/services/rrf-merge.service.ts:26-31 | The share of one list in a score is zero for a miss and between the worst and the best rank's for a hit. |
| RrfMerge.KeywordHitTies | backend/src/modules/retrieval/services/rrf-merge.service.ts:34 | At rank 71 a keyword hit ties with the first vector hit and comes after it. |
| RrfMerge.SharedHitTies | backend/src/modules/retrieval/services/rrf-merge.service.ts:34 | At rank 42 in both lists a shared chunk ties with the first vector hit and comes after it. |
| RrfMerge.HitsFillTheFront | backend/src/modules/retrieval/services/retrieval.service.ts:25 | The position of a keyword hit is smaller than the number of keyword hits. |
| RrfMerge.CandidatesMeaning | backend/src/modules/retrieval/services/retrieval.service.ts:36-38 | The lookup returns exactly the rows of the cut's ids that exist. |
| RrfMerge.CandidatesKeepOrder | backend/src/modules/retrieval/services/retrieval.service.ts:36-38 | The rows come out in the order of the merged ranking. |
| RrfMerge.OrderOfRowsDoesNotMatter | backend/src/modules/retrieval/services/retrieval.service.ts:34 | The order in which the query returns its rows makes no difference. |
| RrfMerge.ByIdMeaning | backend/src/modules/retrieval/services/retrieval.service.ts:34 | The map built from the query's rows holds each of them under its id. |
| RrfMerge.MergeRankings | backend/src/modules/retrieval/services/rrf-merge.service.ts:16-36 | The two accumulating loops over the score map and the stable sort compute the specified merge over exact reals. |
| RrfMerge.AddScores | backend/src/modules/retrieval/services/rrf-merge.service.ts:26-31 | One loop adds its list's reciprocal ranks to the scores and keeps the map's insertion order. |
| FileGraph.NodesAreDistinct | backend/src/modules/repositories/services/graph.service.ts:64-83 | With one path a file, different nodes have different normalised paths and different ids. |
| FileGraph.NodesMeaning | backend/src/modules/repositories/services/graph.service.ts:56-83 | One node for each path that has chunks, backslashes read as slashes: it counts all chunks of the path, and its id is the smallest of their files' ids. |
| FileGraph.NormalizeMeaning | backend/src/modules/repositories/services/graph.service.ts:40-56 | Two paths are grouped together if and only if they differ at most in slashes and backslashes. |
| FileGraph.LessIff | backend/src/modules/repositories/services/graph.service.ts:64-70 | The order of ids is the one by first differing character. |
| FileGraph.NodeIdIsSmallest | backend/src/modules/repositories/services/graph.service.ts:64-70 | A node's id is the smallest id of the file rows with its normalised path. |
| FileGraph.ChunkHasItsNode | backend/src/modules/repositories/services/graph.service.ts:56-83 | Every chunk belongs to the node of its normalised path, and its file's canonical id is that node's id. |
| FileGraph.SymbolsAreConserved | backend/src/modules/repositories/services/graph.service.ts:72-83 | The nodes' symbol counts add up to the number of chunks. |
| FileGraph.OneEdgePerPair | backend/src/modules/repositories/services/graph.service.ts:85-95 | An ordered pair of nodes has at most one edge and no node has an edge to itself. |
| FileGraph.EdgesMeaning | backend/src/modules/repositories/services/graph.service.ts:85-95 | Every edge counts, type by type, the relationships that lead from the node holding their from-file to the different node holding their non-empty to-file, a file without a chunk standing for itself; there is an edge for a pair exactly when one leads so, and for every type the counts add up to the relationships that lead anywhere. |
| FileGraph.EdgeExistsIff | backend/src/modules/repositories/services/graph.service.ts:86-95 | The edge from s to t exists if and only if some relationship leads from node s to node t. |
| FileGraph.DrawnIff | backend/src/modules/repositories/services/graph.service.ts:86-92 | A relationship is drawn from s to t if and only if it leads from the node of its from-file, s, to the node of its to-file, t. |
| FileGraph.EndIff | backend/src/modules/repositories/services/graph.service.ts:64-70 | The id that stands for a file is that of the node which holds one of its chunks, and the file's own where it has none. |
| FileGraph.KeyIsInjective | backend/src/modules/repositories/services/graph.service.ts:91 | The text key of a pair is unambiguous for ids without ">", as uuids are. |
| FileGraph.CanonIsSmallest | backend/src/modules/repositories/services/graph.service.ts:64-70 | The map built group by group gives each file the smallest id of its group. |
| FileGraph.AggregateFileGraph | backend/src/modules/repositories/services/graph.service.ts:40-98 | The grouping, canonicalising and drawing loops return exactly those nodes and edges. |
| FileGraph.GroupByPath | backend/src/modules/repositories/services/graph.service.ts:56-62 | The map of lists groups the chunks by normalised path, in order of first appearance. |
| FileGraph.DrawEdges | backend/src/modules/repositories/services/graph.service.ts:85-95 | The edge loop over its map computes the specified edges. |
| PrEval.RunPrEval | backend/src/modules/evaluation/services/evaluation.service.ts:156-176 | The greedy loop's true positives are the sum over (category, file) of the smaller count and the size of a one-to-one matching; with the false ones they add up to the findings and to the labels. |
| PrEval.NoMatchingIsLarger | backend/src/modules/evaluation/services/evaluation.service.ts:160-170 | No one-to-one matching of findings to labels has more pairs. |
| PrEval.OrderDoesNotMatter | backend/src/modules/evaluation/services/evaluation.service.ts:160-170 | The score depends on the order of neither list. |
| PrEval.PerfectPrecisionIff | backend/src/modules/evaluation/services/evaluation.service.ts:173 | Precision is 1 if and only if no key is reported more often than it is labelled. |
| PrEval.PerfectRecallIff | backend/src/modules/evaluation/services/evaluation.service.ts:174 | Recall is 1 if and only if every key is reported at least as often as it is labelled. |
| PrEval.MatchOneMore | backend/src/modules/evaluation/services/evaluation.service.ts:160-167 | Matching one more finding keeps the matched keys equal to the common keys so far. |
| PrEval.NothingToMatch | backend/src/modules/evaluation/services/evaluation.service.ts:160-170 | A finding without an unmatched label of its key adds nothing to the common keys. |
| PrEval.FindMatch | backend/src/modules/evaluation/services/evaluation.service.ts:161-163 | The first label of that key which is not matched yet, if there is one. |

## Left out

- HTTP, SQL, Redis, BullMQ, Git, tree-sitter, Gemini, Jina and the GitHub API: a table is a map or a list, a transaction one atomic step, the queue a list of jobs with attempt counts.
- Indexer.RunIncrementalIndex: does not capture renames reported without the old name, names that git quotes in `--name-only` output, or names that contain a backslash (which this run rewrites and the full run does not).
- IndexExactness.FullIndexingHeals: does not cover settings that change between runs (size limit, excluded patterns, model version); they are the same for the whole history.
- IndexJobs.AtMostOneLiveJob: does not model the killing of a worker process and the queue's stalled-job recovery, whose limits are not in this repository; a crash is a failed attempt there, and a dead run in the indexing model.
- IndexJobs.Shared.ProcessJob: does not model the `index_jobs` row's own status, progress events or the rejection of an unknown job type.
- PrReviews.AtMostOneAcknowledgedPost: covers serial executions of one commit; two different jobs for one commit at the same time are a race that the code accepts.
- PrReviews.Database.ProcessPrReviewJob: the row is never deleted, so the early return for a vanished row is not modelled; failure reasons and timestamps are flags.
- PrReviews.Database.RunPrReview: retrieval, citation validation, risk scoring and cost computation are awaits that work or fail and a list of findings.
- DiffTheorems.RoundTrip: does not cover an empty unaffected line without its leading space, which the format allows: the printer always writes the space, and the parser skips such a line without counting it.
- IndexAgreement.CallsAgreeIff: speaks of the calls of the new commit and of the files into which their edges go, not of how many equal edges a repeated call gives, nor of edges that start at rows which a lingering path keeps.
- UnifiedDiff.ParseUnifiedDiff: does not model numbers beyond the exact range of a double; header numbers are unbounded.
- Writeback.RouteFindings: does not model a finding whose line is not an integer.
- AstChunker.ChunkFile: the recursion limit is a bound on the depth of the tree; the extra frame of a helper call at the deepest node is not counted.
- AstChunker.ExtractName: a field is the text of the named child; byte offsets and decoding are not modelled.
- RrfMerge.MergeRankings: does not model floating-point rounding; the classifying pattern and the reranker are outside the model.
- FileGraph.AggregateFileGraph: leaves out the five top symbols of a node, a display order.
- buildSymbolGraph and runRetrievalEval: simple loops whose members would add only easy claims.
- Authentication, sessions, rate limits, chat, progress polling, usage totals, pricing, risk scoring and the whole frontend.
